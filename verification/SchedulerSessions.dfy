/**
 The scheduler's ledger session by session: what each id has reserved and given back, what
 a reused id loses, and the lists of active sessions.
 */
module SchedulerSessions {
  import opened Wrappers
  import opened ClusterTypes
  import opened Locks
  import opened SchedulerModel
  import opened SchedulerLocks

  /** Every call has returned. */
  ghost predicate Quiet(s: System) {
    forall o :: o in s.ops ==> s.ops[o].phase.Returned?
  }

  lemma QuietMeans(s: System)
    requires Quiet(s) && LocksOk(s)
    ensures s.sessionsLock == Free && s.ledgerLock == Free && Settled(s) && Base(s) == |s.data.sessions| + s.data.leaked
  {
    NobodyHolds(s.ledgerLock, s.ops, HoldsLedger, ExclusiveOp);
    NobodyHolds(s.sessionsLock, s.ops, HoldsSessions, ExclusiveOp);
    assert Pending(s.ops) == {};
  }

  // ----- sessions that a reused id replaces -----

  /** The step stores session `id`. */
  ghost predicate Stores(s: System, a: Action, id: SessionId) {
    && a.Advance? && a.o in s.ops && s.ops[a.o].phase.Storing?
    && s.ops[a.o].request.Schedule? && s.ops[a.o].request.id == id
  }

  /** The step stores a session over one with the same id. */
  ghost predicate Replaces(s: System, a: Action) {
    exists id :: id in s.data.sessions && Stores(s, a, id)
  }

  lemma StepLeaks(s: System, a: Action)
    ensures Next(s, a).data.leaked == s.data.leaked + if Replaces(s, a) then 1 else 0
  {
    if a.Advance? && a.o in s.ops && s.ops[a.o].phase.Storing? && s.ops[a.o].request.Schedule? {
      var id := s.ops[a.o].request.id;
      assert Stores(s, a, id);
      assert Replaces(s, a) <==> id in s.data.sessions;
    } else {
      assert !Replaces(s, a);
    }
  }

  /** What is lost stays lost: no step ever gives a replaced reservation back. */
  lemma {:induction false} LeakedNeverFalls(c: Cluster, actions: seq<Action>, i: nat)
    requires i <= |actions|
    ensures Run(c, actions[..i]).data.leaked <= Run(c, actions).data.leaked
  {
    hide Next;
    if i < |actions| {
      var front := actions[..|actions| - 1];
      LeakedNeverFalls(c, front, i);
      assert front[..i] == actions[..i];
      StepLeaks(Run(c, front), actions[|actions| - 1]);
    } else {
      assert actions[..i] == actions;
    }
  }

  /** Step `i` of the run stores over a session. */
  ghost predicate ReplacesAt(c: Cluster, actions: seq<Action>, i: nat) {
    i < |actions| && Replaces(Run(c, actions[..i]), actions[i])
  }

  lemma ReplacesAtEarlier(c: Cluster, actions: seq<Action>, front: seq<Action>, i: nat)
    requires front <= actions && i < |front|
    ensures ReplacesAt(c, front, i) <==> ReplacesAt(c, actions, i)
  {
    assert front[..i] == actions[..i];
  }

  /** Nothing is lost if and only if no step of the run stored over a session. */
  lemma {:induction false} NothingLeakedIff(c: Cluster, actions: seq<Action>)
    ensures Run(c, actions).data.leaked == 0 <==> forall i: nat :: !ReplacesAt(c, actions, i)
  {
    hide Next, ReplacesAt;
    if actions == [] {
      NeverAtNothing(c);
    } else {
      var front, last := actions[..|actions| - 1], |actions| - 1;
      NothingLeakedIff(c, front);
      StepLeaks(Run(c, front), actions[last]);
      forall i: nat ensures ReplacesAt(c, actions, i) <==>
                              ReplacesAt(c, front, i) || (i == last && Replaces(Run(c, front), actions[last]))
      {
        ReplacesAtSplit(c, actions, i);
      }
      assert Replaces(Run(c, front), actions[last]) ==> ReplacesAt(c, actions, last);
      assert forall i: nat :: ReplacesAt(c, front, i) ==> ReplacesAt(c, actions, i);
    }
  }

  lemma NeverAtNothing(c: Cluster)
    ensures forall i: nat :: !ReplacesAt(c, [], i)
  {
  }

  lemma ReplacesAtSplit(c: Cluster, actions: seq<Action>, i: nat)
    requires actions != []
    ensures var front, last := actions[..|actions| - 1], |actions| - 1;
            ReplacesAt(c, actions, i) <==>
              ReplacesAt(c, front, i) || (i == last && Replaces(Run(c, front), actions[last]))
  {
    hide Replaces, Run;
    if i < |actions| - 1 {
      ReplacesAtEarlier(c, actions, actions[..|actions| - 1], i);
    }
  }

  /**
   When every call has returned, all chosen nodes carry one unit for each stored session and
   each lost one; they carry exactly the stored sessions if and only if nothing was lost, and
   that is if and only if no id was stored while a session with it was stored already.
   */
  lemma QuietLoad(c: Cluster, actions: seq<Action>)
    requires ValidCluster(c) && Quiet(Run(c, actions)) && Selected(c) != {}
    ensures var d := Run(c, actions).data;
            && (forall n :: n in Selected(c) ==> Held(d.ledger, n).amount == Times(|d.sessions| + d.leaked))
            && ((forall n :: n in Selected(c) ==> Held(d.ledger, n).amount == Times(|d.sessions|)) <==> d.leaked == 0)
            && (d.leaked == 0 <==> forall i: nat :: !ReplacesAt(c, actions, i))
  {
    hide ReplacesAt, Run, Inv, Quiet, Selected, Settled, Base;
    QuietIsEven(c, actions);
    NothingLeakedIff(c, actions);
    var n :| n in Selected(c);
    var d := Run(c, actions).data;
    assert Held(d.ledger, n).amount == Times(|d.sessions| + d.leaked);
  }

  lemma QuietIsEven(c: Cluster, actions: seq<Action>)
    requires ValidCluster(c) && Quiet(Run(c, actions))
    ensures var d := Run(c, actions).data;
            forall n :: n in Selected(c) ==> Held(d.ledger, n).amount == Times(|d.sessions| + d.leaked)
  {
    hide Run, Quiet, Selected, Settled, Base;
    RunKeepsInv(c, actions);
    QuietMeans(Run(c, actions));
    LoadIsEven(c, actions);
  }

  // ----- conservation session by session -----

  function CountOf(log: seq<Event>, id: SessionId, reserve: bool): nat {
    if log == [] then 0
    else
      var last := log[|log| - 1];
      CountOf(log[..|log| - 1], id, reserve) + if last.ReserveEvent? == reserve && last.id == id then 1 else 0
  }

  lemma CountOfOne(log: seq<Event>, e: Event, id: SessionId, reserve: bool)
    ensures CountOf(log + [e], id, reserve)
            == CountOf(log, id, reserve) + if e.ReserveEvent? == reserve && e.id == id then 1 else 0
  {
    assert (log + [e])[..|log|] == log;
  }

  /** The call holds a reservation of session `id` that is not stored: not yet, or no more. */
  predicate Owes(op: Op, id: SessionId) {
    !op.request.Stats? && op.request.id == id && (IsPending(op.phase) || op.phase.Releasing?)
  }

  function Owing(ops: map<OpId, Op>, id: SessionId): set<OpId> {
    set o | o in ops && Owes(ops[o], id)
  }

  /** How often a run stored session `id` over itself. */
  ghost function Replaced(c: Cluster, actions: seq<Action>, id: SessionId): nat {
    if actions == [] then 0
    else
      var s, a := Run(c, actions[..|actions| - 1]), actions[|actions| - 1];
      Replaced(c, actions[..|actions| - 1], id) + if id in s.data.sessions && Stores(s, a, id) then 1 else 0
  }

  /** Every reservation of the session was released, or is stored, in a call's hands, or replaced. */
  ghost predicate Balanced(s: System, id: SessionId, replaced: nat) {
    CountOf(s.log, id, true)
    == CountOf(s.log, id, false) + One(id in s.data.sessions) + |Owing(s.ops, id)| + replaced
  }

  lemma OwingUpdate(ops: map<OpId, Op>, o: OpId, op': Op, id: SessionId)
    requires o in ops
    ensures |Owing(ops[o := op'], id)|
            == |Owing(ops, id)| - One(Owes(ops[o], id)) + One(Owes(op', id))
  {
    var rest := Owing(ops, id) - {o};
    assert Owing(ops, id) == if Owes(ops[o], id) then rest + {o} else rest;
    assert Owing(ops[o := op'], id) == if Owes(op', id) then rest + {o} else rest;
  }

  function One(b: bool): int {
    if b then 1 else 0
  }

  /** A step moves the reservation of a session between the store, the calls, and the log. */
  lemma StepMoves(s: System, o: OpId, pick: NodeId, id: SessionId)
    requires o in s.ops && PhaseFits(s.cluster, s.ops[o])
    requires Enabled(s, o, Section(s.cluster, s.data, s.ops[o], pick))
    ensures var op, e, s' := s.ops[o], Section(s.cluster, s.data, s.ops[o], pick), Perform(s, o, pick);
            var mine := !op.request.Stats? && op.request.id == id;
            One(id in s'.data.sessions) + One(Owes(s'.ops[o], id))
              + One(id in s.data.sessions && Stores(s, Advance(o, pick), id))
            == One(id in s.data.sessions) + One(Owes(op, id))
               + One(mine && e.DropLedger? && op.phase.Reserving?) - One(mine && e.DropLedger? && op.phase.Releasing?)
  {
  }

  lemma StepCounts(s: System, o: OpId, pick: NodeId, id: SessionId, reserve: bool)
    requires o in s.ops && PhaseFits(s.cluster, s.ops[o])
    requires Enabled(s, o, Section(s.cluster, s.data, s.ops[o], pick))
    ensures var op, e := s.ops[o], Section(s.cluster, s.data, s.ops[o], pick);
            var mine := !op.request.Stats? && op.request.id == id;
            CountOf(Perform(s, o, pick).log, id, reserve)
            == CountOf(s.log, id, reserve)
               + One(mine && e.DropLedger? && if reserve then op.phase.Reserving? else op.phase.Releasing?)
  {
    hide CountOf, Perform;
    var op := s.ops[o];
    StepLogs(s, o, pick);
    if op.phase.Reserving? {
      CountOfOne(s.log, ReserveEvent(op.request.id), id, reserve);
    } else if op.phase.Releasing? {
      CountOfOne(s.log, ReleaseEvent(op.request.id), id, reserve);
    }
  }

  lemma StepBalances(s: System, o: OpId, pick: NodeId, id: SessionId, replaced: nat)
    requires o in s.ops && PhaseFits(s.cluster, s.ops[o]) && Balanced(s, id, replaced)
    ensures Balanced(Perform(s, o, pick), id,
                     replaced + if id in s.data.sessions && Stores(s, Advance(o, pick), id) then 1 else 0)
  {
    hide Section, Perform, CountOf, Owing, Owes, Stores, Enabled;
    var op, e := s.ops[o], Section(s.cluster, s.data, s.ops[o], pick);
    if !Enabled(s, o, e) {
      DisabledStays(s, o, pick);
      DisabledStoresNothing(s, o, pick, id);
    } else {
      PerformOps(s, o, pick);
      OwingUpdate(s.ops, o, Perform(s, o, pick).ops[o], id);
      StepMoves(s, o, pick, id);
      StepCounts(s, o, pick, id, true);
      StepCounts(s, o, pick, id, false);
    }
  }

  lemma DisabledStoresNothing(s: System, o: OpId, pick: NodeId, id: SessionId)
    requires o in s.ops && !Enabled(s, o, Section(s.cluster, s.data, s.ops[o], pick))
    ensures !Stores(s, Advance(o, pick), id)
  {
  }

  lemma PerformOps(s: System, o: OpId, pick: NodeId)
    requires o in s.ops
    ensures o in Perform(s, o, pick).ops && Perform(s, o, pick).ops == s.ops[o := Perform(s, o, pick).ops[o]]
  {
    PerformIs(s, o, pick);
  }

  lemma {:induction false} RunBalances(c: Cluster, actions: seq<Action>, id: SessionId)
    requires ValidCluster(c)
    ensures Balanced(Run(c, actions), id, Replaced(c, actions, id))
  {
    hide Perform, Section;
    if actions == [] {
      assert Owing(map[], id) == {};
    } else {
      var front, a := actions[..|actions| - 1], actions[|actions| - 1];
      var s := Run(c, front);
      RunBalances(c, front, id);
      RunKeepsInv(c, front);
      if a.Advance? && a.o in s.ops {
        StepBalances(s, a.o, a.pick, id, Replaced(c, front, id));
      } else if a.Invoke? && a.o !in s.ops {
        assert Owing(Next(s, a).ops, id) == Owing(s.ops, id);
      }
    }
  }

  /** No call has a reservation of the session in its hands. */
  ghost predicate NotInHand(s: System, id: SessionId) {
    forall o :: o in s.ops ==> !Owes(s.ops[o], id)
  }

  /**
   Conservation session by session: between two moments at which no call has the session in
   its hands, the reservations made for its id are the releases made for it, plus one if it
   has come to be stored (less one if it no longer is), plus the times it was stored over
   itself.
   */
  lemma SessionIsConserved(c: Cluster, before: seq<Action>, after: seq<Action>, between: seq<Event>, id: SessionId)
    requires ValidCluster(c) && NotInHand(Run(c, before), id) && NotInHand(Run(c, after), id)
    requires Run(c, after).log == Run(c, before).log + between
    ensures CountOf(between, id, true) - CountOf(between, id, false)
            == One(id in Run(c, after).data.sessions) - One(id in Run(c, before).data.sessions)
               + Replaced(c, after, id) - Replaced(c, before, id)
  {
    hide Run, Replaced;
    RunBalances(c, before, id);
    RunBalances(c, after, id);
    assert Owing(Run(c, before).ops, id) == {} == Owing(Run(c, after).ops, id);
    CountOfConcat(Run(c, before).log, between, id, true);
    CountOfConcat(Run(c, before).log, between, id, false);
  }

  /** Step `i` of the run stores session `id` over itself. */
  ghost predicate ReusesAt(c: Cluster, actions: seq<Action>, i: nat, id: SessionId) {
    i < |actions| && id in Run(c, actions[..i]).data.sessions && Stores(Run(c, actions[..i]), actions[i], id)
  }

  lemma ReusesAtEarlier(c: Cluster, actions: seq<Action>, i: nat, id: SessionId)
    requires i < |actions| - 1
    ensures ReusesAt(c, actions[..|actions| - 1], i, id) <==> ReusesAt(c, actions, i, id)
  {
    assert actions[..|actions| - 1][..i] == actions[..i];
  }

  lemma LastReuse(c: Cluster, actions: seq<Action>, id: SessionId)
    requires actions != []
    ensures Replaced(c, actions, id)
            == Replaced(c, actions[..|actions| - 1], id) + One(ReusesAt(c, actions, |actions| - 1, id))
  {
    hide Run, Stores;
  }

  lemma {:induction false} ReplacedSinceIff(c: Cluster, before: seq<Action>, after: seq<Action>, id: SessionId)
    requires before <= after
    ensures Replaced(c, before, id) <= Replaced(c, after, id)
    ensures Replaced(c, before, id) == Replaced(c, after, id) <==>
              forall i :: |before| <= i < |after| ==> !ReusesAt(c, after, i, id)
  {
    hide Replaced, ReusesAt;
    if before != after {
      var front, last := after[..|after| - 1], |after| - 1;
      ReplacedSinceIff(c, before, front, id);
      LastReuse(c, after, id);
      forall i | |before| <= i < last ensures ReusesAt(c, front, i, id) <==> ReusesAt(c, after, i, id) {
        ReusesAtEarlier(c, after, i, id);
      }
      assert (forall i :: |before| <= i < |front| ==> !ReusesAt(c, front, i, id))
        <==> (forall i :: |before| <= i < last ==> !ReusesAt(c, after, i, id));
    }
  }

  /**
   A session that is stored at neither moment has given back exactly what it took in between if
   and only if its id was not stored over itself meanwhile, whatever else ran.
   */
  lemma SessionGivesBackIff(c: Cluster, before: seq<Action>, after: seq<Action>, between: seq<Event>, id: SessionId)
    requires ValidCluster(c) && before <= after && NotInHand(Run(c, before), id) && NotInHand(Run(c, after), id)
    requires id !in Run(c, before).data.sessions && id !in Run(c, after).data.sessions
    requires Run(c, after).log == Run(c, before).log + between
    ensures CountOf(between, id, true) == CountOf(between, id, false) <==>
              forall i :: |before| <= i < |after| ==> !ReusesAt(c, after, i, id)
  {
    hide Run, Replaced, ReusesAt, NotInHand;
    SessionIsConserved(c, before, after, between, id);
    ReplacedSinceIff(c, before, after, id);
  }

  lemma {:induction false} CountOfConcat(a: seq<Event>, b: seq<Event>, id: SessionId, reserve: bool)
    ensures CountOf(a + b, id, reserve) == CountOf(a, id, reserve) + CountOf(b, id, reserve)
  {
    if b == [] {
      assert a + b == a;
    } else {
      CountOfConcat(a, b[..|b| - 1], id, reserve);
      assert (a + b)[..|a + b| - 1] == a + b[..|b| - 1];
    }
  }
}
