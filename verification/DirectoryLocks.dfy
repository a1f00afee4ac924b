/**
 The tensor directory under its two reader-writer locks, one lock operation or one
 data access a step, with any number of calls in flight. A step a call cannot take yet
 (the lock is held) leaves the state as it is: the call keeps waiting.

 Main results: every run has a history of whole calls, run one after another, that
 explains every response (`RunsAreLinearizable`), that respects the order of calls
 that did not overlap (`HistoryRespectsRealTime`), and that equals the stored data
 whenever no call holds the write lock on the primary map.
 */
module DirectoryLocks {
  import opened Wrappers
  import opened ClusterTypes
  import opened DirectoryModel
  import opened DirectoryIndex
  import opened Locks

  /** What a client asks for; a transfer runs two calls. */
  datatype Request =
    | Single(call: Call)
    | Transfer(id: TensorId, from: NodeId, to: NodeId, length: nat)

  datatype Phase =
    | Idle                                                          // no lock
    | First                                                         // its first lock
    | MapDone                                                       // primary map written, index lock still to take
    | Both                                                          // both locks
    | Evicting(ids: seq<TensorId>, k: nat, evicted: seq<TensorId>)  // both locks, k rounds of the loop done
    | Finished(response: Response)                                  // both locks, nothing left to access
    | Releasing(response: Response)                                 // its first lock
    | Returned(response: Response)                                  // no lock

  datatype Op = Op(request: Request, call: Call, phase: Phase)

  datatype System = System(
    d: Directory,
    tensorsLock: Lock,
    indexLock: Lock,
    ops: map<OpId, Op>,
    history: seq<Event>)

  datatype Action = Invoke(o: OpId, request: Request) | Advance(o: OpId)

  const Initial: System := System(Empty, Free, Free, map[], [])

  // ----- which lock a call holds when -----

  /** Evicting and listing take the index lock first, every other call the lock on the primary map. */
  predicate IndexFirst(c: Call) { c.Evict? || c.OnNode? }

  predicate Exclusive(c: Call) { !c.OnNode? && !c.GetStats? && !c.Check? }

  predicate ExclusiveOp(op: Op) { Exclusive(op.call) }

  predicate HoldsTensors(op: Op) {
    match op.phase
    case Idle => false
    case Returned(_) => false
    case First => !IndexFirst(op.call)
    case Releasing(_) => !IndexFirst(op.call)
    case _ => true
  }

  predicate HoldsIndex(op: Op) {
    match op.phase
    case Idle => false
    case Returned(_) => false
    case First => IndexFirst(op.call)
    case Releasing(_) => IndexFirst(op.call)
    case MapDone => false
    case _ => true
  }

  // ----- steps -----

  /** What one step of a call does: take a lock, drop a lock, or access the data. */
  datatype Effect =
    | TakeTensors(next: Phase)
    | TakeIndex(next: Phase)
    | DropTensors(then_: Op)
    | DropIndex(then_: Op)
    | Access(d: Directory, next: Phase)
    | Reply(d: Directory, next: Phase, response: Response)
    | Stay

  /** After its last lock a call returns, except that a successful check goes on to add the new placement. */
  function AfterRelease(op: Op, r: Response): Op {
    if op.request.Transfer? && op.call.Check? && r.Checked? then
      op.(call := Add(op.call.id, r.placement), phase := Idle)
    else op.(phase := Returned(r))
  }

  ghost function AtFirst(d: Directory, c: Call): Effect {
    match c
    case Evict(_) => TakeTensors(Both)
    case OnNode(_) => TakeTensors(Both)
    case GetStats => TakeIndex(Both)
    case Register(_, _, _, _, _, _) => Access(MapPart(d, c), MapDone)
    case Add(id, _) =>
      if id in d.tensors then Access(MapPart(d, c), MapDone) else Reply(d, Releasing(TensorNotFound), TensorNotFound)
    case Remove(id, _) =>
      if id in d.tensors then Access(MapPart(d, c), MapDone) else Reply(d, Releasing(TensorNotFound), TensorNotFound)
    case _ => var r := Apply(d, c).1; Reply(d, Releasing(r), r)
  }

  ghost function AtBoth(d: Directory, c: Call): Effect {
    match c
    case Evict(n) => Access(d.(index := d.index - {n}), Evicting(Listed(d, n), 0, []))
    case OnNode(_) => var r := Apply(d, c).1; Reply(d, Finished(r), r)
    case GetStats => var r := Apply(d, c).1; Reply(d, Finished(r), r)
    case GetTensor(_) => Stay
    case Check(_, _, _, _) => Stay
    case _ => Reply(IndexPart(d, c), Finished(Acknowledged), Acknowledged)
  }

  ghost function Section(d: Directory, op: Op): Effect {
    match op.phase
    case Idle => if IndexFirst(op.call) then TakeIndex(First) else TakeTensors(First)
    case First => AtFirst(d, op.call)
    case MapDone => TakeIndex(Both)
    case Both => AtBoth(d, op.call)
    case Evicting(ids, k, evicted) =>
      if k < |ids| && op.call.Evict? then
        var (tensors, dropped) := EvictOne(d.tensors, op.call.node, ids[k]);
        Access(d.(tensors := tensors), Evicting(ids, k + 1, if dropped then evicted + [ids[k]] else evicted))
      else Reply(d, Finished(Response.Evicted(evicted)), Response.Evicted(evicted))
    case Finished(r) =>
      if IndexFirst(op.call) then DropTensors(op.(phase := Releasing(r))) else DropIndex(op.(phase := Releasing(r)))
    case Releasing(r) =>
      if IndexFirst(op.call) then DropIndex(AfterRelease(op, r)) else DropTensors(AfterRelease(op, r))
    case Returned(_) => Stay
  }

  ghost function Perform(s: System, o: OpId): System
    requires o in s.ops
  {
    var op := s.ops[o];
    var exclusive := Exclusive(op.call);
    match Section(s.d, op)
    case TakeTensors(next) =>
      if !CanTake(s.tensorsLock, exclusive) then s
      else s.(ops := s.ops[o := op.(phase := next)], tensorsLock := Take(s.tensorsLock, o, exclusive))
    case TakeIndex(next) =>
      if !CanTake(s.indexLock, exclusive) then s
      else s.(ops := s.ops[o := op.(phase := next)], indexLock := Take(s.indexLock, o, exclusive))
    case DropTensors(op') => s.(ops := s.ops[o := op'], tensorsLock := Drop(s.tensorsLock, o, exclusive))
    case DropIndex(op') => s.(ops := s.ops[o := op'], indexLock := Drop(s.indexLock, o, exclusive))
    case Access(d, next) => s.(d := d, ops := s.ops[o := op.(phase := next)])
    case Reply(d, next, r) =>
      s.(d := d, ops := s.ops[o := op.(phase := next)], history := s.history + [Event(o, op.call, r)])
    case Stay => s
  }

  function FirstCall(request: Request): Call {
    match request
    case Single(c) => c
    case Transfer(id, from, to, length) => Check(id, from, to, length)
  }

  /** A check on its own is not something a client can ask for. */
  predicate IsService(request: Request) {
    request.Single? ==> !request.call.Check?
  }

  ghost function Next(s: System, a: Action): System {
    match a
    case Invoke(o, request) =>
      if o in s.ops || !IsService(request) then s
      else s.(ops := s.ops[o := Op(request, FirstCall(request), Idle)])
    case Advance(o) => if o in s.ops then Perform(s, o) else s
  }

  ghost function Run(actions: seq<Action>): System {
    if actions == [] then Initial else Next(Run(actions[..|actions| - 1]), actions[|actions| - 1])
  }

  // ----- invariants -----

  /** The phases a call can be in, and how its current call relates to its request. */
  ghost predicate PhaseFits(op: Op) {
    && (match op.phase
        case MapDone => op.call.Register? || op.call.Add? || op.call.Remove?
        case Both => !op.call.GetTensor? && !op.call.Check?
        case Evicting(ids, k, _) => op.call.Evict? && k <= |ids|
        case Finished(_) => !op.call.GetTensor? && !op.call.Check?
        case Returned(r) => !(op.request.Transfer? && op.call.Check? && r.Checked?)
        case _ => true)
    && IsService(op.request)
    && (match op.request
        case Single(c) => op.call == c
        case Transfer(id, from, to, length) => op.call == FirstCall(op.request) || (op.call.Add? && op.call.id == id))
  }

  ghost predicate LocksOk(s: System) {
    && Matches(s.tensorsLock, s.ops, HoldsTensors, ExclusiveOp)
    && Matches(s.indexLock, s.ops, HoldsIndex, ExclusiveOp)
  }

  /** How far the holder of the exclusive lock on the primary map has taken the data from `base`. */
  ghost predicate Partway(op: Op, base: Directory, d: Directory) {
    match op.phase
    case First => d == base
    case MapDone => TwoPart(base, op.call) && d == MapPart(base, op.call)
    case Both =>
      if op.call.Evict? then d == base else TwoPart(base, op.call) && d == MapPart(base, op.call)
    case Evicting(ids, k, evicted) =>
      && op.call.Evict?
      && ids == Listed(base, op.call.node) && k <= |ids|
      && d.index == base.index - {op.call.node}
      && EvictAll(base.tensors, op.call.node, ids[..k]) == (d.tensors, evicted)
    case _ => d == base
  }

  ghost predicate DataOk(s: System) {
    && (s.tensorsLock.writer.None? ==> s.d == Replay(s.history))
    && (forall o :: s.tensorsLock.writer == Some(o) && o in s.ops ==> Partway(s.ops[o], Replay(s.history), s.d))
  }

  /** Every response in the history is the one the call gives when run alone at that point. */
  ghost predicate Explains(h: seq<Event>) {
    forall i :: 0 <= i < |h| ==> h[i].response == Apply(Replay(h[..i]), h[i].call).1
  }

  ghost function LogOf(h: seq<Event>, o: OpId): seq<Event> {
    if h == [] then []
    else
      var front := LogOf(h[..|h| - 1], o);
      if h[|h| - 1].op == o then front + [h[|h| - 1]] else front
  }

  /** The calls an operation has completed: its own one, or the two halves of a transfer. */
  ghost function Completed(o: OpId, op: Op): seq<Event> {
    var own :=
      match op.phase
      case Finished(r) => [Event(o, op.call, r)]
      case Releasing(r) => [Event(o, op.call, r)]
      case Returned(r) => [Event(o, op.call, r)]
      case _ => [];
    if op.request.Transfer? && op.call.Add? then
      [Event(o, FirstCall(op.request), Checked(op.call.placement))] + own
    else own
  }

  ghost predicate LogsOk(s: System) {
    && (forall o :: o in s.ops ==> PhaseFits(s.ops[o]) && LogOf(s.history, o) == Completed(o, s.ops[o]))
    && (forall o :: o !in s.ops ==> LogOf(s.history, o) == [])
    && Explains(s.history)
  }

  // ----- locks -----

  /** A step takes a lock it does not hold, drops one it holds, and accesses data under the right locks. */
  ghost predicate RespectsLocks(op: Op, e: Effect) {
    match e
    case TakeTensors(next) =>
      !HoldsTensors(op) && HoldsTensors(op.(phase := next)) && (HoldsIndex(op) <==> HoldsIndex(op.(phase := next)))
    case TakeIndex(next) =>
      !HoldsIndex(op) && HoldsIndex(op.(phase := next)) && (HoldsTensors(op) <==> HoldsTensors(op.(phase := next)))
    case DropTensors(op') =>
      HoldsTensors(op) && !HoldsTensors(op') && (HoldsIndex(op) <==> HoldsIndex(op'))
      && (HoldsIndex(op') ==> op'.call == op.call)
    case DropIndex(op') =>
      HoldsIndex(op) && !HoldsIndex(op') && (HoldsTensors(op) <==> HoldsTensors(op'))
      && (HoldsTensors(op') ==> op'.call == op.call)
    case Access(_, next) =>
      HoldsTensors(op) && Exclusive(op.call) && HoldsTensors(op.(phase := next))
      && (HoldsIndex(op) <==> HoldsIndex(op.(phase := next)))
    case Reply(_, next, _) =>
      HoldsTensors(op) && HoldsTensors(op.(phase := next)) && (HoldsIndex(op) <==> HoldsIndex(op.(phase := next)))
    case Stay => true
  }

  lemma SectionRespectsLocks(d: Directory, op: Op)
    requires PhaseFits(op)
    ensures RespectsLocks(op, Section(d, op))
  {
  }

  lemma PerformKeepsLocks(s: System, o: OpId)
    requires o in s.ops && PhaseFits(s.ops[o]) && LocksOk(s)
    ensures LocksOk(Perform(s, o))
  {
    var op := s.ops[o];
    SectionRespectsLocks(s.d, op);
    var s' := Perform(s, o);
    if s' != s {
      var op' := s'.ops[o];
      assert s'.ops == s.ops[o := op'];
      match Section(s.d, op)
      case TakeTensors(_) =>
        Taken(s.tensorsLock, s.ops, HoldsTensors, ExclusiveOp, o, op');
        Kept(s.indexLock, s.ops, HoldsIndex, ExclusiveOp, o, op');
      case TakeIndex(_) =>
        Taken(s.indexLock, s.ops, HoldsIndex, ExclusiveOp, o, op');
        Kept(s.tensorsLock, s.ops, HoldsTensors, ExclusiveOp, o, op');
      case DropTensors(_) =>
        Dropped(s.tensorsLock, s.ops, HoldsTensors, ExclusiveOp, o, op');
        Kept(s.indexLock, s.ops, HoldsIndex, ExclusiveOp, o, op');
      case DropIndex(_) =>
        Dropped(s.indexLock, s.ops, HoldsIndex, ExclusiveOp, o, op');
        Kept(s.tensorsLock, s.ops, HoldsTensors, ExclusiveOp, o, op');
      case _ =>
        Kept(s.indexLock, s.ops, HoldsIndex, ExclusiveOp, o, op');
        Kept(s.tensorsLock, s.ops, HoldsTensors, ExclusiveOp, o, op');
    }
  }

  lemma PerformKeepsPhases(s: System, o: OpId)
    requires o in s.ops && PhaseFits(s.ops[o])
    ensures PhaseFits(Perform(s, o).ops[o])
  {
  }

  // ----- data -----

  /** The access steps of the exclusive holder move its partial work one piece on. */
  lemma AccessMovesOn(base: Directory, d: Directory, op: Op)
    requires Partway(op, base, d) && PhaseFits(op) && Section(d, op).Access?
    ensures Partway(op.(phase := Section(d, op).next), base, Section(d, op).d)
  {
    if op.phase.Evicting? {
      var ids, k := op.phase.ids, op.phase.k;
      assert ids[..k + 1][..k] == ids[..k];
    }
  }

  /** When the exclusive holder replies, its whole call has happened to the data. */
  lemma ReplyCompletes(base: Directory, d: Directory, op: Op)
    requires Partway(op, base, d) && PhaseFits(op) && Section(d, op).Reply?
    ensures (Section(d, op).d, Section(d, op).response) == Apply(base, op.call)
  {
    if op.phase.Evicting? {
      assert op.phase.ids[..op.phase.k] == op.phase.ids;
    }
  }

  /** A call that only reads replies what it would reply alone. */
  lemma ReaderReplies(d: Directory, op: Op)
    requires PhaseFits(op) && Section(d, op).Reply? && !Exclusive(op.call)
    ensures (Section(d, op).d, Section(d, op).response) == Apply(d, op.call)
  {
  }

  lemma ReplayOne(h: seq<Event>, e: Event)
    ensures Replay(h + [e]) == Apply(Replay(h), e.call).0
  {
    assert (h + [e])[..|h|] == h;
  }

  lemma ExplainsOne(h: seq<Event>, e: Event)
    requires Explains(h) && e.response == Apply(Replay(h), e.call).1
    ensures Explains(h + [e])
  {
    var h' := h + [e];
    assert forall i :: 0 <= i <= |h| ==> h'[..i] == h[..i];
    assert h[..|h|] == h;
  }

  lemma ReplyKeepsData(s: System, o: OpId)
    requires o in s.ops && PhaseFits(s.ops[o]) && LocksOk(s) && DataOk(s) && Explains(s.history)
    requires Section(s.d, s.ops[o]).Reply?
    ensures Section(s.d, s.ops[o]).d == Replay(Perform(s, o).history) && Explains(Perform(s, o).history)
    ensures s.tensorsLock.writer == Some(o) || s.tensorsLock.writer.None?
  {
    var op, base := s.ops[o], Replay(s.history);
    SectionRespectsLocks(s.d, op);
    if Exclusive(op.call) {
      assert s.tensorsLock.writer == Some(o);
      ReplyCompletes(base, s.d, op);
    } else {
      assert o in s.tensorsLock.readers;
      ReaderReplies(s.d, op);
    }
    var e := Event(o, op.call, Section(s.d, op).response);
    ReplayOne(s.history, e);
    ExplainsOne(s.history, e);
  }

  /** Taking and dropping locks leaves the partial work where it was. */
  lemma LockStepKeepsPartway(base: Directory, d: Directory, op: Op)
    requires PhaseFits(op) && Exclusive(op.call)
    ensures match Section(d, op)
            case TakeTensors(next) => d == base ==> Partway(op.(phase := next), base, d)
            case TakeIndex(next) => Partway(op, base, d) ==> Partway(op.(phase := next), base, d)
            case DropIndex(op') => Partway(op, base, d) ==> Partway(op', base, d)
            case DropTensors(_) => Partway(op, base, d) ==> d == base
            case _ => true
  {
  }

  lemma RepliedIsPartway(d: Directory, op: Op)
    requires Section(d, op).Reply?
    ensures Partway(op.(phase := Section(d, op).next), Section(d, op).d, Section(d, op).d)
  {
  }

  lemma TakingKeepsData(s: System, o: OpId)
    requires o in s.ops && !Section(s.d, s.ops[o]).Reply? && !Section(s.d, s.ops[o]).Access?
    ensures Perform(s, o).d == s.d && Perform(s, o).history == s.history
  {
  }

  lemma PerformKeepsData(s: System, o: OpId)
    requires o in s.ops && PhaseFits(s.ops[o]) && LocksOk(s) && DataOk(s) && Explains(s.history)
    ensures DataOk(Perform(s, o)) && Explains(Perform(s, o).history)
  {
    hide Partway, Replay, Explains, Apply;
    var effect := Section(s.d, s.ops[o]);
    SectionRespectsLocks(s.d, s.ops[o]);
    if effect.Reply? {
      ReplyKeepsData(s, o);
      RepliedIsPartway(s.d, s.ops[o]);
    } else if effect.Access? {
      AccessMovesOn(Replay(s.history), s.d, s.ops[o]);
    } else {
      if Exclusive(s.ops[o].call) {
        LockStepKeepsPartway(Replay(s.history), s.d, s.ops[o]);
      }
      TakingKeepsData(s, o);
    }
  }

  // ----- logs -----

  lemma LogOne(h: seq<Event>, e: Event, o: OpId)
    ensures LogOf(h + [e], o) == if e.op == o then LogOf(h, o) + [e] else LogOf(h, o)
  {
    assert (h + [e])[..|h|] == h;
  }

  /** A step completes a call exactly when it replies. */
  lemma CompletedOne(d: Directory, op: Op, o: OpId)
    requires PhaseFits(op)
    ensures match Section(d, op)
            case TakeTensors(next) => Completed(o, op.(phase := next)) == Completed(o, op)
            case TakeIndex(next) => Completed(o, op.(phase := next)) == Completed(o, op)
            case DropTensors(op') => Completed(o, op') == Completed(o, op)
            case DropIndex(op') => Completed(o, op') == Completed(o, op)
            case Access(_, next) => Completed(o, op.(phase := next)) == Completed(o, op)
            case Reply(_, next, r) => Completed(o, op.(phase := next)) == Completed(o, op) + [Event(o, op.call, r)]
            case Stay => true
  {
  }

  /** What a step adds to the history. */
  ghost function Logged(s: System, o: OpId): seq<Event>
    requires o in s.ops
  {
    var e := Section(s.d, s.ops[o]);
    if e.Reply? then [Event(o, s.ops[o].call, e.response)] else []
  }

  lemma PerformIs(s: System, o: OpId)
    requires o in s.ops && PhaseFits(s.ops[o])
    ensures o in Perform(s, o).ops && Perform(s, o).ops == s.ops[o := Perform(s, o).ops[o]]
    ensures Perform(s, o).history == s.history + Logged(s, o)
    ensures Completed(o, Perform(s, o).ops[o]) == Completed(o, s.ops[o]) + Logged(s, o)
  {
    hide Completed, Section;
    CompletedOne(s.d, s.ops[o], o);
  }

  lemma LogOfMore(s: System, o: OpId, p: OpId)
    requires o in s.ops
    ensures LogOf(s.history + Logged(s, o), p) == LogOf(s.history, p) + if p == o then Logged(s, o) else []
  {
    hide Section, LogOf;
    if Section(s.d, s.ops[o]).Reply? {
      LogOne(s.history, Logged(s, o)[0], p);
    } else {
      assert s.history + [] == s.history;
    }
  }

  lemma PerformKeepsLogs(s: System, o: OpId)
    requires o in s.ops && LogsOk(s)
    requires PhaseFits(Perform(s, o).ops[o]) && Explains(Perform(s, o).history)
    ensures LogsOk(Perform(s, o))
  {
    hide Perform, Completed, Logged, LogOf, Explains, PhaseFits;
    PerformIs(s, o);
    forall p ensures LogOf(Perform(s, o).history, p) == LogOf(s.history, p) + if p == o then Logged(s, o) else [] {
      LogOfMore(s, o, p);
    }
  }

  // ----- runs -----

  ghost predicate Inv(s: System) {
    LocksOk(s) && DataOk(s) && LogsOk(s)
  }

  lemma InvokeKeepsInv(s: System, a: Action)
    requires Inv(s) && a.Invoke? && a.o !in s.ops && IsService(a.request)
    ensures Inv(Next(s, a))
  {
    hide Partway, Explains, LogOf, Replay, Matches, PhaseFits, Completed;
    var op := Op(a.request, FirstCall(a.request), Idle);
    NewOpIs(a.o, a.request);
    Joined(s.tensorsLock, s.ops, HoldsTensors, ExclusiveOp, a.o, op);
    Joined(s.indexLock, s.ops, HoldsIndex, ExclusiveOp, a.o, op);
  }

  lemma NewOpIs(o: OpId, request: Request)
    requires IsService(request)
    ensures var op := Op(request, FirstCall(request), Idle);
            PhaseFits(op) && Completed(o, op) == [] && !HoldsTensors(op) && !HoldsIndex(op)
  {
  }

  lemma NextKeepsInv(s: System, a: Action)
    requires Inv(s)
    ensures Inv(Next(s, a))
  {
    hide Section, Partway, Explains, LogOf, Completed, Replay, Perform;
    if a.Advance? && a.o in s.ops {
      PerformKeepsLocks(s, a.o);
      PerformKeepsPhases(s, a.o);
      PerformKeepsData(s, a.o);
      PerformKeepsLogs(s, a.o);
    } else if a.Invoke? && a.o !in s.ops && IsService(a.request) {
      InvokeKeepsInv(s, a);
    }
  }

  lemma {:induction false} RunKeepsInv(actions: seq<Action>)
    ensures Inv(Run(actions))
  {
    if actions != [] {
      RunKeepsInv(actions[..|actions| - 1]);
      NextKeepsInv(Run(actions[..|actions| - 1]), actions[|actions| - 1]);
    } else {
      assert Inv(Initial);
    }
  }

  /**
   Atomicity. In every run, with any number of overlapping calls: the history of whole
   calls, run one after another, gives every response that was returned; each operation
   appears in it as exactly the calls it has completed (one, or for a transfer first its
   check and then its addition); and outside exclusive sections on the primary map the
   stored directory is the one the history leads to.
   */
  lemma RunsAreLinearizable(actions: seq<Action>)
    ensures var s := Run(actions);
            && Explains(s.history)
            && (forall o :: o in s.ops ==> LogOf(s.history, o) == Completed(o, s.ops[o]))
            && (forall o :: o !in s.ops ==> LogOf(s.history, o) == [])
            && (s.tensorsLock.writer.None? ==> s.d == Replay(s.history))
  {
    RunKeepsInv(actions);
  }

  /**
   Whenever the primary map is not write-locked the index covers all placements, and if no
   registration hit an id that was present it agrees with them exactly.
   */
  lemma IndexHoldsWhenUnlocked(actions: seq<Action>)
    requires Run(actions).tensorsLock.writer.None?
    ensures WellFormed(Run(actions).d) && Covers(Run(actions).d)
    ensures RegistersFreshIds(Run(actions).history) ==> Agrees(Run(actions).d)
  {
    RunKeepsInv(actions);
    HistoryKeepsCovers(Run(actions).history);
    if RegistersFreshIds(Run(actions).history) {
      HistoryKeepsAgrees(Run(actions).history);
    }
  }

  /** No two calls are ever inside conflicting sections of the same lock. */
  lemma LocksExclude(actions: seq<Action>, o: OpId, o': OpId)
    requires var ops := Run(actions).ops; o in ops && o' in ops && o != o' && Exclusive(ops[o].call)
    ensures var ops := Run(actions).ops;
            !(HoldsTensors(ops[o]) && HoldsTensors(ops[o'])) && !(HoldsIndex(ops[o]) && HoldsIndex(ops[o']))
  {
    RunKeepsInv(actions);
    var s := Run(actions);
    if HoldsTensors(s.ops[o]) {
      assert s.tensorsLock.writer == Some(o);
    }
    if HoldsIndex(s.ops[o]) {
      assert s.indexLock.writer == Some(o);
    }
  }

  // ----- real time -----

  ghost predicate HasReturned(s: System, o: OpId) {
    o in s.ops && s.ops[o].phase.Returned?
  }

  /** From `s` on, `o` has returned and its last event lies before position `n`. */
  ghost predicate Over(s: System, o: OpId, n: nat) {
    HasReturned(s, o) && n <= |s.history| && forall x :: n <= x < |s.history| ==> s.history[x].op != o
  }

  lemma NextKeepsOver(s: System, a: Action, o: OpId, n: nat)
    requires Over(s, o, n)
    ensures Over(Next(s, a), o, n) && s.history <= Next(s, a).history
  {
    assert a.Advance? && a.o in s.ops && a.o == o ==> Section(s.d, s.ops[o]).Stay?;
  }

  lemma {:induction false} OverStays(actions: seq<Action>, i: nat, j: nat, o: OpId)
    requires i <= j <= |actions| && HasReturned(Run(actions[..i]), o)
    ensures Over(Run(actions[..j]), o, |Run(actions[..i]).history|)
    ensures Run(actions[..i]).history <= Run(actions[..j]).history
    decreases j
  {
    if i < j {
      OverStays(actions, i, j - 1, o);
      assert actions[..j][..j - 1] == actions[..j - 1];
      NextKeepsOver(Run(actions[..j - 1]), actions[j - 1], o, |Run(actions[..i]).history|);
    }
  }

  lemma {:induction false} LogOfNobody(h: seq<Event>, o: OpId)
    requires LogOf(h, o) == []
    ensures forall x :: 0 <= x < |h| ==> h[x].op != o
  {
    if h != [] {
      LogOfNobody(h[..|h| - 1], o);
    }
  }

  /** If `a` had returned before `b` was invoked, every event of `a` precedes every event of `b`. */
  lemma HistoryRespectsRealTime(actions: seq<Action>, i: nat, a: OpId, b: OpId, x: nat, y: nat)
    requires i <= |actions|
    requires HasReturned(Run(actions[..i]), a) && b !in Run(actions[..i]).ops
    requires x < |Run(actions).history| && Run(actions).history[x].op == a
    requires y < |Run(actions).history| && Run(actions).history[y].op == b
    ensures x < y
  {
    var early := Run(actions[..i]);
    assert actions[..|actions|] == actions;
    OverStays(actions, i, |actions|, a);
    RunKeepsInv(actions[..i]);
    LogOfNobody(early.history, b);
    assert Run(actions).history[..|early.history|] == early.history;
  }
}
