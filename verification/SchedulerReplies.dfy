/** What the calls of the scheduler answer in any run, and what the sessions and counters are in numbers. */
module SchedulerReplies {
  import opened Wrappers
  import opened ClusterTypes
  import opened Locks
  import opened SchedulerModel
  import opened SchedulerLocks

  /** The session gets 30 percent, 4 GiB and 2 GiB on each of the chosen nodes. */
  ghost predicate IsSession(c: Cluster, id: SessionId, session: Session) {
    && session.id == id && session.nodes == SelectNodes(c)
    && (forall n :: n in session.resources <==> n in SelectNodes(c))
    && forall n :: n in session.resources ==> session.resources[n] == Amount(30, 4, 2)
  }

  /** The cluster has more than a KiB of memory and more than half a KiB of device memory a token. */
  predicate FitsMemory(c: Cluster, contextLength: nat) {
    1024 * contextLength < c.hostMemory && 512 * contextLength < c.deviceMemory
  }

  ghost predicate SomeNodeIsHealthy(c: Cluster) {
    exists x :: x in c.nodes && x.status == Healthy
  }

  /** The answers a call can give. */
  ghost predicate IsAnswer(c: Cluster, request: Request, r: Response) {
    match request
    case Schedule(id, contextLength) =>
      if !FitsMemory(c, contextLength) then r == Failed(AdmissionRejected)
      else if !SomeNodeIsHealthy(c) then r == Failed(NoAvailableNodes)
      else
        || (r.Failed? && r.error.InsufficientResources? && r.error.node in SelectNodes(c))
        || (r.Scheduled? && IsSession(c, id, r.session))
    case Release(_) => r == Done || r == Failed(SessionNotFound)
    case Stats => r.StatsAre?
  }

  ghost predicate AnswerFits(c: Cluster, op: Op) {
    match op.phase
    case Start => true
    case Returned(r) => IsAnswer(c, op.request, r)
    case Refused(n) => op.request.Schedule? && GoesOn(c, op.request) && n in SelectNodes(c)
    case _ => op.request.Schedule? ==> GoesOn(c, op.request)
  }

  ghost predicate GoesOn(c: Cluster, request: Request)
    requires request.Schedule?
  {
    FitsMemory(c, request.contextLength) && SomeNodeIsHealthy(c)
  }

  ghost predicate AnswersFit(s: System) {
    && (forall o :: o in s.ops ==> AnswerFits(s.cluster, s.ops[o]))
    && (forall id :: id in s.data.sessions ==> IsSession(s.cluster, id, s.data.sessions[id]))
  }

  lemma NewSessionIs(c: Cluster, id: SessionId)
    ensures IsSession(c, id, NewSession(c, id))
  {
  }

  lemma NobodyHealthy(c: Cluster)
    requires ValidCluster(c)
    ensures SelectNodes(c) == [] <==> !SomeNodeIsHealthy(c)
  {
    hide SelectNodes;
    SelectionSize(c);
    SelectedNonEmpty(c);
  }

  lemma SectionAnswers(c: Cluster, d: Data, op: Op, pick: NodeId)
    requires ValidCluster(c) && PhaseFits(c, op) && AnswerFits(c, op)
    ensures AnswerFits(c, op.(phase := NextPhase(op, Section(c, d, op, pick))))
  {
    hide SelectNodes, ReserveOne, ReleaseOne, NewSession, IsSession, SomeNodeIsHealthy;
    NobodyHealthy(c);
    if op.request.Schedule? {
      NewSessionIs(c, op.request.id);
    }
    SelectedAre(c);
  }

  lemma SelectedAre(c: Cluster)
    ensures forall n :: n in Selected(c) <==> n in SelectNodes(c)
  {
    hide SelectNodes;
  }

  lemma SectionStores(c: Cluster, d: Data, op: Op, pick: NodeId)
    requires forall id :: id in d.sessions ==> IsSession(c, id, d.sessions[id])
    requires Section(c, d, op, pick).Access?
    ensures var sessions := Section(c, d, op, pick).data.sessions;
            forall id :: id in sessions ==> IsSession(c, id, sessions[id])
  {
    hide SelectNodes, ReserveOne, ReleaseOne, NewSession, IsSession;
    if op.request.Schedule? {
      NewSessionIs(c, op.request.id);
    }
  }

  lemma StepAnswers(s: System, a: Action)
    requires Inv(s) && ValidCluster(s.cluster) && AnswersFit(s)
    ensures AnswersFit(Next(s, a))
  {
    hide Perform, Section, IsAnswer, IsSession, Inv, PhaseFits;
    if a.Advance? && a.o in s.ops {
      InvMeans(s, a.o);
      PerformIs(s, a.o, a.pick);
      SectionAnswers(s.cluster, s.data, s.ops[a.o], a.pick);
      if Section(s.cluster, s.data, s.ops[a.o], a.pick).Access? {
        SectionStores(s.cluster, s.data, s.ops[a.o], a.pick);
      }
    }
  }

  lemma InvMeans(s: System, o: OpId)
    requires Inv(s) && o in s.ops
    ensures PhaseFits(s.cluster, s.ops[o])
  {
  }

  lemma {:induction false} RunAnswers(c: Cluster, actions: seq<Action>)
    requires ValidCluster(c)
    ensures AnswersFit(Run(c, actions)) && Run(c, actions).cluster == c
  {
    hide Next, AnswerFits, IsSession;
    if actions != [] {
      RunAnswers(c, actions[..|actions| - 1]);
      RunKeepsInv(c, actions[..|actions| - 1]);
      RunKeepsInv(c, actions);
      StepAnswers(Run(c, actions[..|actions| - 1]), actions[|actions| - 1]);
    }
  }

  /**
   In every run: a schedule is rejected exactly if the memory does not suffice, finds no nodes
   exactly if none is Healthy, and otherwise is refused by a chosen node or answers the session
   on the chosen nodes; every stored session is such a session under its own id.
   */
  lemma CallsAnswer(c: Cluster, actions: seq<Action>)
    requires ValidCluster(c)
    ensures var s := Run(c, actions);
            && (forall o :: o in s.ops && s.ops[o].phase.Returned? ==>
                  IsAnswer(c, s.ops[o].request, s.ops[o].phase.response))
            && (forall id :: id in s.data.sessions ==> IsSession(c, id, s.data.sessions[id]))
  {
    hide Run, IsAnswer, IsSession;
    RunAnswers(c, actions);
    assert forall o :: o in Run(c, actions).ops ==> AnswerFits(c, Run(c, actions).ops[o]);
  }

  /** Outside the loops every chosen node has reserved k times 30 percent, 4 GiB and 2 GiB, with k at most three. */
  lemma CountersInNumbers(c: Cluster, actions: seq<Action>, n: NodeId)
    requires ValidCluster(c) && Settled(Run(c, actions)) && n in SelectNodes(c)
    ensures var s := Run(c, actions);
            var held := if n in s.data.ledger then s.data.ledger[n].amount else Amount(0, 0, 0);
            && 0 <= Base(s) <= 3
            && held.cpu == 30 * Base(s) && held.ram == 4 * Base(s) && held.vram == 2 * Base(s)
  {
    hide Run, Base, Settled, SelectNodes;
    LoadIsEven(c, actions);
    SelectedAre(c);
    RunKeepsInv(c, actions);
    assert n in Selected(c);
    assert Held(Run(c, actions).data.ledger, n).amount == Times(Base(Run(c, actions)));
  }

  /**
   A call that wants a lock waits exactly while someone holds it exclusively or, unless it is
   for the statistics, while anyone holds it.
   */
  lemma WaitsIff(s: System, o: OpId, pick: NodeId)
    requires o in s.ops
    requires var e := Section(s.cluster, s.data, s.ops[o], pick); e.TakeSessions? || e.TakeLedger?
    ensures var e := Section(s.cluster, s.data, s.ops[o], pick);
            var lock := if e.TakeSessions? then s.sessionsLock else s.ledgerLock;
            Perform(s, o, pick) == s <==> lock.writer.Some? || (!s.ops[o].request.Stats? && lock.readers != {})
  {
    hide Section, HoldsSessions, HoldsLedger;
    WantsWhatItLacks(s, o, pick);
  }

  lemma WantsWhatItLacks(s: System, o: OpId, pick: NodeId)
    requires o in s.ops
    ensures var e := Section(s.cluster, s.data, s.ops[o], pick);
            e.TakeSessions? || e.TakeLedger? ==> NextPhase(s.ops[o], e) != s.ops[o].phase
  {
    hide SelectNodes, Selected, ReserveOne, ReleaseOne, NewSession;
    SectionRespectsLocks(s.cluster, s.data, s.ops[o], pick);
  }
}
