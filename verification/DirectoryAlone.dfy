/**
 Calls of the directory that nobody interferes with: they finish, with the result of the
 whole call. And what a transfer that has returned has done.
 */
module DirectoryAlone {
  import opened Wrappers
  import opened ClusterTypes
  import opened DirectoryModel
  import opened DirectoryIndex
  import opened DirectoryEffects
  import opened DirectoryLocks
  import opened Locks

  // ----- one call that can move finishes -----

  /** No call but `o` holds a lock. */
  ghost predicate OthersHoldNothing(s: System, o: OpId) {
    forall p :: p in s.ops && p != o ==> !HoldsTensors(s.ops[p]) && !HoldsIndex(s.ops[p])
  }

  /** How far a call has to go; the rounds of an eviction loop come on top. */
  function Rank(op: Op): nat {
    (if op.request.Transfer? && op.call.Check? then 10 else 0) +
    match op.phase
    case Idle => 7
    case First => 6
    case MapDone => 5
    case Both => 4
    case Evicting(_, _, _) => 3
    case Finished(_) => 2
    case Releasing(_) => 1
    case Returned(_) => 0
  }

  function Rounds(op: Op): int {
    if op.phase.Evicting? then |op.phase.ids| - op.phase.k else 0
  }

  lemma LocksAreFree(s: System, o: OpId)
    requires Inv(s) && o in s.ops && OthersHoldNothing(s, o)
    ensures !HoldsTensors(s.ops[o]) ==> s.tensorsLock == Free
    ensures !HoldsIndex(s.ops[o]) ==> s.indexLock == Free
  {
    if !HoldsTensors(s.ops[o]) {
      NobodyHolds(s.tensorsLock, s.ops, HoldsTensors, ExclusiveOp);
    }
    if !HoldsIndex(s.ops[o]) {
      NobodyHolds(s.indexLock, s.ops, HoldsIndex, ExclusiveOp);
    }
  }

  ghost predicate Nearer(op': Op, op: Op) {
    Rank(op') < Rank(op) || (Rank(op') == Rank(op) && 0 <= Rounds(op') < Rounds(op))
  }

  /** The call after a step with effect `e`. */
  function NextOp(op: Op, e: Effect): Op {
    match e
    case TakeTensors(next) => op.(phase := next)
    case TakeIndex(next) => op.(phase := next)
    case DropTensors(op') => op'
    case DropIndex(op') => op'
    case Access(_, next) => op.(phase := next)
    case Reply(_, next, _) => op.(phase := next)
    case Stay => op
  }

  lemma SectionMovesOn(d: Directory, op: Op)
    requires PhaseFits(op) && !op.phase.Returned?
    ensures !Section(d, op).Stay? && Nearer(NextOp(op, Section(d, op)), op)
    ensures NextOp(op, Section(d, op)).request == op.request
  {
    hide Apply, MapPart, IndexPart, EvictOne;
  }

  lemma FreeLocksAreTaken(s: System, o: OpId)
    requires Inv(s) && o in s.ops && OthersHoldNothing(s, o)
    ensures Perform(s, o).ops == s.ops[o := NextOp(s.ops[o], Section(s.d, s.ops[o]))]
  {
    hide LocksOk, DataOk, Section, HoldsTensors, HoldsIndex, Completed, LogOf, Explains, PhaseFits;
    LocksAreFree(s, o);
    SectionRespectsLocks(s.d, s.ops[o]);
  }

  lemma StepAlone(s: System, o: OpId)
    requires Inv(s) && o in s.ops && OthersHoldNothing(s, o) && !s.ops[o].phase.Returned?
    ensures var op, s' := s.ops[o], Perform(s, o);
            && o in s'.ops && OthersHoldNothing(s', o) && s'.ops == s.ops[o := s'.ops[o]]
            && s'.ops[o].request == op.request && s'.history == s.history + Logged(s, o) && Nearer(s'.ops[o], op)
  {
    hide Perform, Section, LocksOk, DataOk, Explains, Completed, LogOf, Rank, PhaseFits, HoldsTensors, HoldsIndex;
    FreeLocksAreTaken(s, o);
    PerformIs(s, o);
    SectionMovesOn(s.d, s.ops[o]);
  }

  /** The events of a run of steps of `o` alone. */
  ghost predicate Adds(s: System, s': System, o: OpId, events: seq<Event>) {
    && s'.history == s.history + events && (forall i :: 0 <= i < |events| ==> events[i].op == o)
    && o in s.ops && o in s'.ops && s'.ops == s.ops[o := s'.ops[o]] && s'.ops[o].request == s.ops[o].request
  }

  lemma AddsOneMore(s: System, s1: System, s': System, o: OpId, a: seq<Event>, b: seq<Event>)
    requires Adds(s, s1, o, a) && Adds(s1, s', o, b)
    ensures Adds(s, s', o, a + b)
  {
  }

  /** A call that holds whatever locks are held can finish, by its own steps. */
  lemma {:induction false} FinishesAlone(actions: seq<Action>, o: OpId) returns (more: seq<Action>, events: seq<Event>)
    requires var s := Run(actions); o in s.ops && OthersHoldNothing(s, o)
    ensures forall i :: 0 <= i < |more| ==> more[i] == Advance(o)
    ensures Adds(Run(actions), Run(actions + more), o, events) && Run(actions + more).ops[o].phase.Returned?
    decreases Rank(Run(actions).ops[o]), Rounds(Run(actions).ops[o])
  {
    hide Run, Perform, Rank, Rounds, Adds, Section, OthersHoldNothing, Logged;
    var s := Run(actions);
    if s.ops[o].phase.Returned? {
      more, events := [], [];
      assert actions + [] == actions;
      AddsNothing(s, o);
    } else {
      RunKeepsInv(actions);
      StepAlone(s, o);
      RunOne(actions, Advance(o));
      var rest, later := FinishesAlone(actions + [Advance(o)], o);
      more, events := [Advance(o)] + rest, Logged(s, o) + later;
      assert actions + more == actions + [Advance(o)] + rest;
      AddsLogged(s, o);
      AddsOneMore(s, Run(actions + [Advance(o)]), Run(actions + more), o, Logged(s, o), later);
    }
  }

  lemma AddsNothing(s: System, o: OpId)
    requires o in s.ops
    ensures Adds(s, s, o, [])
  {
  }

  lemma AddsLogged(s: System, o: OpId)
    requires Inv(s) && o in s.ops && OthersHoldNothing(s, o) && !s.ops[o].phase.Returned?
    ensures Adds(s, Perform(s, o), o, Logged(s, o))
  {
    hide Perform, Section;
    StepAlone(s, o);
  }

  lemma RunOne(actions: seq<Action>, a: Action)
    ensures Run(actions + [a]) == Next(Run(actions), a)
  {
    assert (actions + [a])[..|actions|] == actions;
  }

  /**
   A call that wants a lock waits for it exactly as long as it must: a listing, the statistics
   and the check of a transfer while someone holds it exclusively, every other call while
   anyone holds it.
   */
  lemma WaitsIff(s: System, o: OpId)
    requires Inv(s) && o in s.ops
    requires Section(s.d, s.ops[o]).TakeTensors? || Section(s.d, s.ops[o]).TakeIndex?
    ensures var c, e := s.ops[o].call, Section(s.d, s.ops[o]);
            var lock := if e.TakeTensors? then s.tensorsLock else s.indexLock;
            Perform(s, o) == s <==>
              lock.writer.Some? || (!(c.OnNode? || c.GetStats? || c.Check?) && lock.readers != {})
  {
    hide LocksOk, DataOk, Completed, LogOf, Explains, Section;
    WantsWhatItLacks(s, o);
  }

  lemma WantsWhatItLacks(s: System, o: OpId)
    requires Inv(s) && o in s.ops
    ensures match Section(s.d, s.ops[o])
            case TakeTensors(next) => s.ops[o].phase != next
            case TakeIndex(next) => s.ops[o].phase != next
            case _ => true
  {
    SectionRespectsLocks(s.d, s.ops[o]);
  }

  // ----- a whole call alone -----

  lemma {:induction false} LogOfOwn(h: seq<Event>, events: seq<Event>, o: OpId)
    requires LogOf(h, o) == [] && forall i :: 0 <= i < |events| ==> events[i].op == o
    ensures LogOf(h + events, o) == events
  {
    hide LogOf;
    if events == [] {
      assert h + events == h;
    } else {
      var front, last := events[..|events| - 1], events[|events| - 1];
      LogOfOwn(h, front, o);
      LogOne(h + front, last, o);
      assert h + events == (h + front) + [last];
      assert events == front + [last];
    }
  }

  ghost predicate NobodyHoldsLocks(s: System) {
    forall p :: p in s.ops ==> !HoldsTensors(s.ops[p]) && !HoldsIndex(s.ops[p])
  }

  lemma UnlockedData(s: System)
    requires Inv(s) && NobodyHoldsLocks(s)
    ensures s.d == Replay(s.history)
  {
    hide DataOk;
    NobodyHolds(s.tensorsLock, s.ops, HoldsTensors, ExclusiveOp);
    DataWithoutWriter(s);
  }

  lemma DataWithoutWriter(s: System)
    requires DataOk(s) && s.tensorsLock.writer.None?
    ensures s.d == Replay(s.history)
  {
  }

  /** Invoked while no lock is held, and left alone, an operation returns and has logged only its own calls. */
  lemma RunsAlone(actions: seq<Action>, o: OpId, request: Request) returns (more: seq<Action>)
    requires NobodyHoldsLocks(Run(actions)) && o !in Run(actions).ops && IsService(request)
    ensures actions <= more
    ensures var s, s' := Run(actions), Run(more);
            && o in s'.ops && s'.ops[o].phase.Returned? && s'.ops[o].request == request
            && s'.ops == s.ops[o := s'.ops[o]]
            && s'.history == s.history + Completed(o, s'.ops[o])
            && Inv(s') && s.d == Replay(s.history) && s'.d == Replay(s'.history)
  {
    hide Run, Completed, LogOf, LocksOk, DataOk, Explains, PhaseFits;
    var s, invoke := Run(actions), Invoke(o, request);
    RunKeepsInv(actions);
    UnlockedData(s);
    RunOne(actions, invoke);
    var tail, events := FinishesAlone(actions + [invoke], o);
    more := actions + [invoke] + tail;
    RunKeepsInv(more);
    LogOfOwn(s.history, events, o);
    UnlockedData(Run(more));
  }

  /**
   Every call that is invoked while no lock is held, and left alone, returns what the whole
   call replies and leaves the directory as the whole call does.
   */
  lemma CallAlone(actions: seq<Action>, o: OpId, c: Call) returns (more: seq<Action>)
    requires NobodyHoldsLocks(Run(actions)) && o !in Run(actions).ops && !c.Check?
    ensures var s, s' := Run(actions), Run(more);
            var (d, r) := Apply(s.d, c);
            s'.d == d && s'.ops == s.ops[o := Op(Single(c), c, Returned(r))]
  {
    hide Run, Apply, Replay;
    more := RunsAlone(actions, o, Single(c));
    var s, s' := Run(actions), Run(more);
    var e := Completed(o, s'.ops[o])[0];
    assert s'.history == s.history + [e];
    ReplayOne(s.history, e);
    LastIsExplained(s.history, e);
  }

  lemma LastIsExplained(h: seq<Event>, e: Event)
    requires Explains(h + [e])
    ensures e.response == Apply(Replay(h), e.call).1
  {
    assert (h + [e])[|h|] == e && (h + [e])[..|h|] == h;
  }

  // ----- transfers -----

  /**
   A transfer that has returned has either been refused by its check, or has added the replica
   that its check prepared and replied to the addition.
   */
  lemma ReturnedTransferIs(actions: seq<Action>, o: OpId)
    requires o in Run(actions).ops
    requires Run(actions).ops[o].request.Transfer? && Run(actions).ops[o].phase.Returned?
    ensures var op, log := Run(actions).ops[o], LogOf(Run(actions).history, o);
            var check := Check(op.request.id, op.request.from, op.request.to, op.request.length);
            var r := op.phase.response;
            || ((r == TensorNotFound || r == NotOnSource) && log == [Event(o, check, r)])
            || exists p :: log == [Event(o, check, Checked(p)), Event(o, Add(op.request.id, p), r)]
  {
    hide Run, Replay, Explains, Apply;
    RunKeepsInv(actions);
    var s := Run(actions);
    var op, log := s.ops[o], LogOf(s.history, o);
    if op.call.Check? {
      var e := log[0];
      var i := LoggedAt(s.history, o, e);
      CheckWasAnswered(s.history, i);
    } else {
      assert log == [Event(o, FirstCall(op.request), Checked(op.call.placement)),
                     Event(o, Add(op.request.id, op.call.placement), op.phase.response)];
    }
  }

  lemma {:induction false} LoggedAt(h: seq<Event>, o: OpId, e: Event) returns (i: nat)
    requires e in LogOf(h, o)
    ensures i < |h| && h[i] == e
  {
    if h[|h| - 1] == e {
      i := |h| - 1;
    } else {
      i := LoggedAt(h[..|h| - 1], o, e);
    }
  }

  lemma CheckWasAnswered(h: seq<Event>, i: nat)
    requires Explains(h) && i < |h| && h[i].call.Check?
    ensures h[i].response.TensorNotFound? || h[i].response.NotOnSource? || h[i].response.Checked?
  {
    var c := h[i].call;
    CheckReplies(Replay(h[..i]), c.id, c.from, c.to, c.length);
  }
}
