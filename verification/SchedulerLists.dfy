/** The lists of active sessions over whole runs, and a run that reuses a session id. */
module SchedulerLists {
  import opened Wrappers
  import opened ClusterTypes
  import opened Locks
  import opened SchedulerModel
  import opened SchedulerLocks
  import opened SchedulerSessions

  // ----- the lists of active sessions -----

  /** Reservations append their session, a release takes every occurrence of its session out. */
  function ActiveAfter(log: seq<Event>): seq<SessionId> {
    if log == [] then []
    else
      var last, before := log[|log| - 1], ActiveAfter(log[..|log| - 1]);
      if last.ReserveEvent? then before + [last.id] else Others(before, last.id)
  }

  /** Reservations of the session since it was last released. */
  function SinceRelease(log: seq<Event>, id: SessionId): nat {
    if log == [] then 0
    else
      var last, before := log[|log| - 1], SinceRelease(log[..|log| - 1], id);
      if last.id != id then before else if last.ReserveEvent? then before + 1 else 0
  }

  lemma {:induction false} ActiveCounts(log: seq<Event>, id: SessionId)
    ensures multiset(ActiveAfter(log))[id] == SinceRelease(log, id)
  {
    if log != [] {
      ActiveCounts(log[..|log| - 1], id);
      OthersAre(ActiveAfter(log[..|log| - 1]), log[|log| - 1].id);
    }
  }

  /** What the loop of a call has made of the list of node `n`, when the lists were `list` before the loop. */
  function PartOf(list: seq<SessionId>, op: Op, n: NodeId): seq<SessionId> {
    match op.phase
    case Reserving(left) => if n !in left && op.request.Schedule? then list + [op.request.id] else list
    case Releasing(_, left) => if n !in left && op.request.Release? then Others(list, op.request.id) else list
    case _ => list
  }

  function ListOf(s: System, n: NodeId): seq<SessionId> {
    match s.ledgerLock.writer
    case Some(o) => if o in s.ops then PartOf(ActiveAfter(s.log), s.ops[o], n) else ActiveAfter(s.log)
    case None => ActiveAfter(s.log)
  }

  ghost predicate ListsFit(s: System) {
    forall n :: n in Selected(s.cluster) ==> Held(s.data.ledger, n).active == ListOf(s, n)
  }

  lemma ActiveOne(log: seq<Event>, e: Event)
    ensures ActiveAfter(log + [e])
            == if e.ReserveEvent? then ActiveAfter(log) + [e.id] else Others(ActiveAfter(log), e.id)
  {
    assert (log + [e])[..|log|] == log;
  }

  // ----- what the steps of the loops do -----

  lemma ReserveRoundIs(s: System, o: OpId, pick: NodeId)
    requires o in s.ops && s.ops[o].phase.Reserving? && s.ops[o].request.Schedule? && pick in s.ops[o].phase.left
    ensures var op := s.ops[o];
            var (ledger, ok) := ReserveOne(s.data.ledger, pick, UNIT, op.request.id);
            Perform(s, o, pick) == s.(
              data := s.data.(ledger := ledger),
              ops := s.ops[o := op.(phase := if ok then Reserving(op.phase.left - {pick}) else Refused(pick))])
  {
  }

  lemma ReserveEndIs(s: System, o: OpId, pick: NodeId)
    requires o in s.ops && s.ops[o].phase == Reserving({}) && s.ops[o].request.Schedule?
    ensures Perform(s, o, pick) == s.(
              ops := s.ops[o := s.ops[o].(phase := Reserved)],
              ledgerLock := Drop(s.ledgerLock, o, true),
              log := s.log + [ReserveEvent(s.ops[o].request.id)])
  {
  }

  lemma ReleaseRoundIs(s: System, o: OpId, pick: NodeId)
    requires o in s.ops && s.ops[o].phase.Releasing? && s.ops[o].request.Release?
    requires pick in s.ops[o].phase.left && pick in s.ops[o].phase.resources
    ensures var op := s.ops[o];
            Perform(s, o, pick) == s.(
              data := s.data.(ledger := ReleaseOne(s.data.ledger, pick, op.phase.resources[pick], op.request.id)),
              ops := s.ops[o := op.(phase := Releasing(op.phase.resources, op.phase.left - {pick}))])
  {
  }

  lemma ReleaseEndIs(s: System, o: OpId, pick: NodeId)
    requires o in s.ops && s.ops[o].phase.Releasing? && s.ops[o].phase.left == {} && s.ops[o].request.Release?
    ensures Perform(s, o, pick) == s.(
              ops := s.ops[o := s.ops[o].(phase := Released)],
              ledgerLock := Drop(s.ledgerLock, o, true),
              log := s.log + [ReleaseEvent(s.ops[o].request.id)])
  {
  }

  /** A loop whose next node is not named yet waits. */
  lemma LoopWaits(s: System, o: OpId, pick: NodeId)
    requires o in s.ops && (s.ops[o].phase.Reserving? || s.ops[o].phase.Releasing?)
    requires PhaseFits(s.cluster, s.ops[o]) && s.ops[o].phase.left != {} && pick !in s.ops[o].phase.left
    ensures Perform(s, o, pick) == s
  {
  }

  lemma LoopHoldsLedger(s: System, o: OpId)
    requires Inv(s) && o in s.ops && (s.ops[o].phase.Reserving? || s.ops[o].phase.Releasing?)
    ensures s.ledgerLock.writer == Some(o) && PhaseFits(s.cluster, s.ops[o])
    ensures s.ops[o].phase.Reserving? ==>
              Even(Selected(s.cluster), View(Base(s), ReserveLoop(s.ops[o].phase.left), s.data.ledger))
    ensures s.ops[o].phase.Releasing? ==>
              Even(Selected(s.cluster), View(Base(s), ReleaseLoop(s.ops[o].phase.left), s.data.ledger))
  {
  }

  // ----- every step keeps the lists -----

  /** What one round does to the list of any node. */
  lemma ReserveOneLists(l: Ledger, pick: NodeId, id: SessionId, n: NodeId)
    ensures var (l', ok) := ReserveOne(l, pick, UNIT, id);
            Held(l', n).active == if ok && n == pick then Held(l, n).active + [id] else Held(l, n).active
  {
  }

  lemma RefusedAtFirstNode(s: System, o: OpId, pick: NodeId)
    requires Inv(s) && o in s.ops && s.ops[o].phase.Reserving? && pick in s.ops[o].phase.left
    requires !ReserveOne(s.data.ledger, pick, UNIT, s.ops[o].request.id).1
    ensures s.ops[o].phase.left == Selected(s.cluster)
  {
    hide Inv, Base, Selected, ReserveOne, Even;
    LoopHoldsLedger(s, o);
    var left, id := s.ops[o].phase.left, s.ops[o].request.id;
    ChangesKeepEven(Selected(s.cluster), View(Base(s), ReserveLoop(left), s.data.ledger), ReserveNode(pick, id));
  }

  lemma ReserveRoundFits(s: System, o: OpId, pick: NodeId)
    requires Inv(s) && o in s.ops && s.ops[o].phase.Reserving? && pick in s.ops[o].phase.left && ListsFit(s)
    ensures ListsFit(Perform(s, o, pick))
  {
    hide Perform, Inv, Selected, ActiveAfter, Even, ReserveOne, Held;
    LoopHoldsLedger(s, o);
    ReserveRoundIs(s, o, pick);
    if !ReserveOne(s.data.ledger, pick, UNIT, s.ops[o].request.id).1 {
      RefusedAtFirstNode(s, o, pick);
    }
    forall n | n in Selected(s.cluster)
      ensures Held(Perform(s, o, pick).data.ledger, n).active == ListOf(Perform(s, o, pick), n) {
      ReserveOneLists(s.data.ledger, pick, s.ops[o].request.id, n);
    }
  }

  lemma ReserveStepFits(s: System, o: OpId, pick: NodeId)
    requires Inv(s) && o in s.ops && s.ops[o].phase.Reserving? && ListsFit(s)
    ensures ListsFit(Perform(s, o, pick))
  {
    hide Perform, Section, Inv, Base, Selected, SelectNodes, ActiveAfter, Even;
    LoopHoldsLedger(s, o);
    var left, id := s.ops[o].phase.left, s.ops[o].request.id;
    if left == {} {
      ReserveEndIs(s, o, pick);
      ActiveOne(s.log, ReserveEvent(id));
    } else if pick in left {
      ReserveRoundFits(s, o, pick);
    } else {
      LoopWaits(s, o, pick);
    }
  }

  lemma ReleaseStepFits(s: System, o: OpId, pick: NodeId)
    requires Inv(s) && o in s.ops && s.ops[o].phase.Releasing? && ListsFit(s)
    ensures ListsFit(Perform(s, o, pick))
  {
    hide Perform, Section, Inv, Base, Selected, SelectNodes, ActiveAfter, Even;
    LoopHoldsLedger(s, o);
    var left, id := s.ops[o].phase.left, s.ops[o].request.id;
    if left == {} {
      ReleaseEndIs(s, o, pick);
      ActiveOne(s.log, ReleaseEvent(id));
    } else if pick in left {
      ReleaseRoundIs(s, o, pick);
      OneMore(View(Base(s), ReleaseLoop(left), s.data.ledger), Selected(s.cluster), pick);
    } else {
      LoopWaits(s, o, pick);
    }
  }

  lemma OtherStepFits(s: System, o: OpId, pick: NodeId)
    requires Inv(s) && o in s.ops && !s.ops[o].phase.Reserving? && !s.ops[o].phase.Releasing? && ListsFit(s)
    ensures ListsFit(Perform(s, o, pick))
  {
    hide Perform, ListOf, Inv, Selected;
    PerformIs(s, o, pick);
    forall n | n in Selected(s.cluster)
      ensures Held(Perform(s, o, pick).data.ledger, n).active == ListOf(Perform(s, o, pick), n) {
      OtherStepKeepsList(s, o, pick, n);
    }
  }

  lemma OtherStepKeepsList(s: System, o: OpId, pick: NodeId, n: NodeId)
    requires Inv(s) && o in s.ops && !s.ops[o].phase.Reserving? && !s.ops[o].phase.Releasing?
             && n in Selected(s.cluster)
    ensures ListOf(Perform(s, o, pick), n) == ListOf(s, n)
    ensures Held(Perform(s, o, pick).data.ledger, n) == Held(s.data.ledger, n)
  {
    SectionRespectsLocks(s.cluster, s.data, s.ops[o], pick);
    if Enabled(s, o, Section(s.cluster, s.data, s.ops[o], pick)) {
      StepLogs(s, o, pick);
    }
  }

  lemma {:induction false} RunListsFit(c: Cluster, actions: seq<Action>)
    requires ValidCluster(c)
    ensures ListsFit(Run(c, actions))
  {
    if actions != [] {
      var s, a := Run(c, actions[..|actions| - 1]), actions[|actions| - 1];
      RunListsFit(c, actions[..|actions| - 1]);
      RunKeepsInv(c, actions[..|actions| - 1]);
      StepListsFit(s, a);
    }
  }

  lemma StepListsFit(s: System, a: Action)
    requires Inv(s) && ListsFit(s)
    ensures ListsFit(Next(s, a))
  {
    hide Perform;
    if a.Advance? && a.o in s.ops {
      if s.ops[a.o].phase.Reserving? {
        ReserveStepFits(s, a.o, a.pick);
      } else if s.ops[a.o].phase.Releasing? {
        ReleaseStepFits(s, a.o, a.pick);
      } else {
        OtherStepFits(s, a.o, a.pick);
      }
    } else if a.Invoke? && a.o !in s.ops {
      assert s.ledgerLock.writer != Some(a.o);
    }
  }

  /**
   In every reachable state outside the loops all chosen nodes list the same active sessions:
   those of the reservations completed so far, in order, without the ones whose session was
   released later; each session as often as it was reserved since its last release.
   */
  lemma ActiveListsAre(c: Cluster, actions: seq<Action>, n: NodeId, id: SessionId)
    requires ValidCluster(c) && n in Selected(c) && Settled(Run(c, actions))
    ensures var s := Run(c, actions);
            && Held(s.data.ledger, n).active == ActiveAfter(s.log)
            && multiset(Held(s.data.ledger, n).active)[id] == SinceRelease(s.log, id)
  {
    RunListsFit(c, actions);
    RunKeepsInv(c, actions);
    ActiveCounts(Run(c, actions).log, id);
  }
}
