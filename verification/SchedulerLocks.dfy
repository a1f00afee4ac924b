/**
 The scheduler under its two locks, one lock operation or one loop round a step, with
 any number of schedules, releases and statistics calls in flight and any session ids.
 The reservation and release loops visit the nodes in any order.

 Main results: in every reachable state all chosen nodes carry the same load of at most
 three units and no other node carries any; therefore a reservation succeeds on all
 nodes or changes nothing, although it has no rollback; the load is conserved; and some
 call can always move.
 */
module SchedulerLocks {
  import opened Wrappers
  import opened ClusterTypes
  import opened Locks
  import opened SchedulerModel

  datatype Request = Schedule(id: SessionId, contextLength: nat) | Release(id: SessionId) | Stats

  datatype Report = Report(activeSessions: nat, total: Amount)

  datatype Response = Scheduled(session: Session) | Done | Failed(error: Error) | StatsAre(report: Report)

  datatype Phase =
    | Start                                              // no lock
    | Admitted                                           // no lock, wants the ledger
    | Reserving(left: set<NodeId>)                       // ledger
    | Refused(node: NodeId)                              // ledger
    | Reserved                                           // no lock, wants the sessions
    | Storing                                            // sessions
    | Stored                                             // sessions
    | LookingUp                                          // sessions
    | Missing                                            // sessions
    | Removed(resources: map<NodeId, Amount>)            // sessions, wants the ledger
    | Releasing(resources: map<NodeId, Amount>, left: set<NodeId>) // both
    | Released                                           // sessions
    | Counting                                           // sessions, wants the ledger
    | CountingBoth                                       // both
    | Counted(report: Report)                            // both
    | CountedLast(report: Report)                        // sessions
    | Returned(response: Response)                       // no lock

  datatype Op = Op(request: Request, phase: Phase)

  /** What happened to the ledger as a whole. */
  datatype Event = ReserveEvent(id: SessionId) | ReleaseEvent(id: SessionId)

  /** `leaked` counts the stored sessions that a later session with the same id replaced. */
  datatype Data = Data(sessions: map<SessionId, Session>, ledger: Ledger, leaked: nat)

  datatype System = System(
    cluster: Cluster,
    data: Data,
    sessionsLock: Lock,
    ledgerLock: Lock,
    ops: map<OpId, Op>,
    log: seq<Event>)

  /** `pick` is the node the loop of the call visits next, if the call is in a loop. */
  datatype Action = Invoke(o: OpId, request: Request) | Advance(o: OpId, pick: NodeId)

  function Initial(c: Cluster): System {
    System(c, Data(map[], map[], 0), Free, Free, map[], [])
  }

  predicate ExclusiveOp(op: Op) { !op.request.Stats? }

  predicate HoldsSessions(op: Op) {
    match op.phase
    case Storing => true
    case Stored => true
    case LookingUp => true
    case Missing => true
    case Removed(_) => true
    case Releasing(_, _) => true
    case Released => true
    case Counting => true
    case CountingBoth => true
    case Counted(_) => true
    case CountedLast(_) => true
    case _ => false
  }

  predicate HoldsLedger(op: Op) {
    match op.phase
    case Reserving(_) => true
    case Refused(_) => true
    case Releasing(_, _) => true
    case CountingBoth => true
    case Counted(_) => true
    case _ => false
  }

  // ----- steps -----

  datatype Effect =
    | TakeSessions(next: Phase)
    | TakeLedger(next: Phase)
    | DropSessions(next: Phase)
    | DropLedger(next: Phase, events: seq<Event>)
    | Access(data: Data, next: Phase)
    | Move(next: Phase)
    | Stay

  function NewSession(c: Cluster, id: SessionId): Session {
    Session(id, SelectNodes(c), Allocations(Selected(c)))
  }

  function AtStart(c: Cluster, request: Request): Effect {
    match request
    case Schedule(_, contextLength) =>
      if !Admits(c, contextLength) then Move(Returned(Failed(AdmissionRejected)))
      else if SelectNodes(c) == [] then Move(Returned(Failed(NoAvailableNodes)))
      else Move(Admitted)
    case Release(_) => TakeSessions(LookingUp)
    case Stats => TakeSessions(Counting)
  }

  ghost function Section(c: Cluster, d: Data, op: Op, pick: NodeId): Effect {
    match op.phase
    case Start => AtStart(c, op.request)
    case Admitted => TakeLedger(Reserving(Allocations(Selected(c)).Keys))
    case Reserving(left) =>
      if !op.request.Schedule? then Stay
      else if left == {} then DropLedger(Reserved, [ReserveEvent(op.request.id)])
      else if pick !in left then Stay
      else
        var (ledger, ok) := ReserveOne(d.ledger, pick, UNIT, op.request.id);
        Access(d.(ledger := ledger), if ok then Reserving(left - {pick}) else Refused(pick))
    case Refused(n) => DropLedger(Returned(Failed(InsufficientResources(n))), [])
    case Reserved => TakeSessions(Storing)
    case Storing =>
      if !op.request.Schedule? then Stay
      else
        var id := op.request.id;
        Access(d.(sessions := d.sessions[id := NewSession(c, id)],
                  leaked := d.leaked + if id in d.sessions then 1 else 0), Stored)
    case Stored =>
      if !op.request.Schedule? then Stay else DropSessions(Returned(Scheduled(NewSession(c, op.request.id))))
    case LookingUp =>
      if !op.request.Release? then Stay
      else if op.request.id !in d.sessions then Move(Missing)
      else Access(d.(sessions := d.sessions - {op.request.id}), Removed(d.sessions[op.request.id].resources))
    case Missing => DropSessions(Returned(Failed(SessionNotFound)))
    case Removed(resources) => TakeLedger(Releasing(resources, resources.Keys))
    case Releasing(resources, left) =>
      if !op.request.Release? then Stay
      else if left == {} then DropLedger(Released, [ReleaseEvent(op.request.id)])
      else if pick !in left || pick !in resources then Stay
      else Access(d.(ledger := ReleaseOne(d.ledger, pick, resources[pick], op.request.id)),
                  Releasing(resources, left - {pick}))
    case Released => DropSessions(Returned(Done))
    case Counting => TakeLedger(CountingBoth)
    case CountingBoth => Move(Counted(Report(|d.sessions|, Total(d.ledger))))
    case Counted(r) => DropLedger(CountedLast(r), [])
    case CountedLast(r) => DropSessions(Returned(StatsAre(r)))
    case Returned(_) => Stay
  }

  ghost function Perform(s: System, o: OpId, pick: NodeId): System
    requires o in s.ops
  {
    var op := s.ops[o];
    var exclusive := ExclusiveOp(op);
    match Section(s.cluster, s.data, op, pick)
    case TakeSessions(next) =>
      if !CanTake(s.sessionsLock, exclusive) then s
      else s.(ops := s.ops[o := op.(phase := next)], sessionsLock := Take(s.sessionsLock, o, exclusive))
    case TakeLedger(next) =>
      if !CanTake(s.ledgerLock, exclusive) then s
      else s.(ops := s.ops[o := op.(phase := next)], ledgerLock := Take(s.ledgerLock, o, exclusive))
    case DropSessions(next) =>
      s.(ops := s.ops[o := op.(phase := next)], sessionsLock := Drop(s.sessionsLock, o, exclusive))
    case DropLedger(next, events) =>
      s.(ops := s.ops[o := op.(phase := next)], ledgerLock := Drop(s.ledgerLock, o, exclusive), log := s.log + events)
    case Access(d, next) => s.(data := d, ops := s.ops[o := op.(phase := next)])
    case Move(next) => s.(ops := s.ops[o := op.(phase := next)])
    case Stay => s
  }

  ghost function Next(s: System, a: Action): System {
    match a
    case Invoke(o, request) => if o in s.ops then s else s.(ops := s.ops[o := Op(request, Start)])
    case Advance(o, pick) => if o in s.ops then Perform(s, o, pick) else s
  }

  ghost function Run(c: Cluster, actions: seq<Action>): System {
    if actions == [] then Initial(c) else Next(Run(c, actions[..|actions| - 1]), actions[|actions| - 1])
  }

  // ----- locks -----

  /** A phase belongs to the kind of request that can reach it. */
  predicate PhaseFits(c: Cluster, op: Op) {
    match op.phase
    case Start => true
    case Returned(_) => true
    case Admitted => op.request.Schedule? && Selected(c) != {}
    case Reserving(left) => op.request.Schedule? && left <= Selected(c) != {}
    case Refused(_) => op.request.Schedule?
    case Reserved => op.request.Schedule?
    case Storing => op.request.Schedule?
    case Stored => op.request.Schedule?
    case LookingUp => op.request.Release?
    case Missing => op.request.Release?
    case Removed(resources) => op.request.Release? && resources == Allocations(Selected(c))
    case Releasing(resources, left) =>
      op.request.Release? && resources == Allocations(Selected(c)) && left <= Selected(c)
    case Released => op.request.Release?
    case _ => op.request.Stats?
  }

  ghost predicate LocksOk(s: System) {
    && Matches(s.sessionsLock, s.ops, HoldsSessions, ExclusiveOp)
    && Matches(s.ledgerLock, s.ops, HoldsLedger, ExclusiveOp)
  }

  ghost predicate SessionsUniform(c: Cluster, sessions: map<SessionId, Session>) {
    forall id :: id in sessions ==> sessions[id].resources == Allocations(Selected(c))
  }

  ghost predicate RespectsLocks(op: Op, e: Effect) {
    match e
    case TakeSessions(next) =>
      !HoldsSessions(op) && HoldsSessions(op.(phase := next)) && (HoldsLedger(op) <==> HoldsLedger(op.(phase := next)))
    case TakeLedger(next) =>
      !HoldsLedger(op) && HoldsLedger(op.(phase := next)) && (HoldsSessions(op) <==> HoldsSessions(op.(phase := next)))
    case DropSessions(next) =>
      HoldsSessions(op) && !HoldsSessions(op.(phase := next)) && (HoldsLedger(op) <==> HoldsLedger(op.(phase := next)))
    case DropLedger(next, _) =>
      HoldsLedger(op) && !HoldsLedger(op.(phase := next)) && (HoldsSessions(op) <==> HoldsSessions(op.(phase := next)))
    case Access(_, next) =>
      (HoldsSessions(op) <==> HoldsSessions(op.(phase := next)))
      && (HoldsLedger(op) <==> HoldsLedger(op.(phase := next)))
    case Move(next) =>
      (HoldsSessions(op) <==> HoldsSessions(op.(phase := next)))
      && (HoldsLedger(op) <==> HoldsLedger(op.(phase := next)))
    case Stay => true
  }

  lemma SectionRespectsLocks(c: Cluster, d: Data, op: Op, pick: NodeId)
    ensures RespectsLocks(op, Section(c, d, op, pick))
  {
  }

  lemma PerformKeepsLocks(s: System, o: OpId, pick: NodeId)
    requires o in s.ops && LocksOk(s)
    ensures LocksOk(Perform(s, o, pick))
  {
    var op := s.ops[o];
    SectionRespectsLocks(s.cluster, s.data, op, pick);
    var s' := Perform(s, o, pick);
    if s' != s {
      var op' := s'.ops[o];
      assert s'.ops == s.ops[o := op'];
      match Section(s.cluster, s.data, op, pick)
      case TakeSessions(_) =>
        Taken(s.sessionsLock, s.ops, HoldsSessions, ExclusiveOp, o, op');
        Kept(s.ledgerLock, s.ops, HoldsLedger, ExclusiveOp, o, op');
      case TakeLedger(_) =>
        Taken(s.ledgerLock, s.ops, HoldsLedger, ExclusiveOp, o, op');
        Kept(s.sessionsLock, s.ops, HoldsSessions, ExclusiveOp, o, op');
      case DropSessions(_) =>
        Dropped(s.sessionsLock, s.ops, HoldsSessions, ExclusiveOp, o, op');
        Kept(s.ledgerLock, s.ops, HoldsLedger, ExclusiveOp, o, op');
      case DropLedger(_, _) =>
        Dropped(s.ledgerLock, s.ops, HoldsLedger, ExclusiveOp, o, op');
        Kept(s.sessionsLock, s.ops, HoldsSessions, ExclusiveOp, o, op');
      case _ =>
        Kept(s.ledgerLock, s.ops, HoldsLedger, ExclusiveOp, o, op');
        Kept(s.sessionsLock, s.ops, HoldsSessions, ExclusiveOp, o, op');
    }
  }

  /** The phase a step leads to, when it leads anywhere. */
  function NextPhase(op: Op, e: Effect): Phase {
    match e
    case TakeSessions(next) => next
    case TakeLedger(next) => next
    case DropSessions(next) => next
    case DropLedger(next, _) => next
    case Access(_, next) => next
    case Move(next) => next
    case Stay => op.phase
  }

  lemma SelectedNonEmpty(c: Cluster)
    ensures Selected(c) == {} <==> SelectNodes(c) == []
  {
    if SelectNodes(c) != [] {
      assert SelectNodes(c)[0] in Selected(c);
    }
  }

  lemma SectionFits(c: Cluster, d: Data, op: Op, pick: NodeId)
    requires PhaseFits(c, op) && SessionsUniform(c, d.sessions)
    ensures PhaseFits(c, op.(phase := NextPhase(op, Section(c, d, op, pick))))
  {
    SelectedNonEmpty(c);
  }

  lemma SectionKeepsUniform(c: Cluster, d: Data, op: Op, pick: NodeId)
    requires SessionsUniform(c, d.sessions) && Section(c, d, op, pick).Access?
    ensures SessionsUniform(c, Section(c, d, op, pick).data.sessions)
  {
  }

  lemma PerformIs(s: System, o: OpId, pick: NodeId)
    requires o in s.ops
    ensures var op, e := s.ops[o], Section(s.cluster, s.data, s.ops[o], pick);
            var s' := Perform(s, o, pick);
            && s'.cluster == s.cluster
            && (s' == s || (s'.ops == s.ops[o := op.(phase := NextPhase(op, e))]
                            && s'.data == (if e.Access? then e.data else s.data)
                            && s'.log == (if e.DropLedger? then s.log + e.events else s.log)))
  {
  }

  lemma PerformKeepsPhases(s: System, o: OpId, pick: NodeId)
    requires o in s.ops && PhaseFits(s.cluster, s.ops[o]) && SessionsUniform(s.cluster, s.data.sessions)
    ensures PhaseFits(s.cluster, Perform(s, o, pick).ops[o])
            && SessionsUniform(s.cluster, Perform(s, o, pick).data.sessions)
  {
    PerformIs(s, o, pick);
    SectionFits(s.cluster, s.data, s.ops[o], pick);
    if Section(s.cluster, s.data, s.ops[o], pick).Access? {
      SectionKeepsUniform(s.cluster, s.data, s.ops[o], pick);
    }
  }

  // ----- the ledger as seen from outside the sessions -----

  /** Where the loop of the call that holds the ledger exclusively is. */
  datatype Loop = NoLoop | ReserveLoop(left: set<NodeId>) | ReleaseLoop(left: set<NodeId>)

  datatype View = View(base: int, loop: Loop, ledger: Ledger)

  /**
   `base` is the load of every chosen node outside loops. A reservation loop can be past
   its first node only below three units; a release loop has already left the base.
   */
  ghost predicate Even(nodes: set<NodeId>, v: View) {
    && 0 <= v.base <= 3
    && match v.loop
       case NoLoop => Loads(v.ledger, nodes, v.base, {})
       case ReserveLoop(left) =>
         left <= nodes && Loads(v.ledger, nodes, v.base, nodes - left) && (left != nodes ==> v.base <= 2)
       case ReleaseLoop(left) => left <= nodes && Loads(v.ledger, nodes, v.base, left) && v.base <= 2
  }

  /** The ways a step can change the view. */
  datatype Change =
    | Nothing
    | BeginReserve
    | ReserveNode(n: NodeId, id: SessionId)
    | EndReserve
    | BeginRelease
    | ReleaseNode(n: NodeId, id: SessionId)
    | EndRelease

  ghost predicate CanChange(nodes: set<NodeId>, v: View, change: Change) {
    match change
    case Nothing => true
    case BeginReserve => v.loop.NoLoop?
    case ReserveNode(n, _) => v.loop.ReserveLoop? && n in v.loop.left
    case EndReserve => v.loop == ReserveLoop({}) && nodes != {}
    case BeginRelease => v.loop.NoLoop? && v.base >= 1
    case ReleaseNode(n, _) => v.loop.ReleaseLoop? && n in v.loop.left
    case EndRelease => v.loop == ReleaseLoop({})
  }

  ghost function Changed(nodes: set<NodeId>, v: View, change: Change): View
    requires CanChange(nodes, v, change)
  {
    match change
    case Nothing => v
    case BeginReserve => v.(loop := ReserveLoop(nodes))
    case ReserveNode(n, id) =>
      var (ledger, ok) := ReserveOne(v.ledger, n, UNIT, id);
      View(v.base, if ok then ReserveLoop(v.loop.left - {n}) else NoLoop, ledger)
    case EndReserve => View(v.base + 1, NoLoop, v.ledger)
    case BeginRelease => View(v.base - 1, ReleaseLoop(nodes), v.ledger)
    case ReleaseNode(n, id) => View(v.base, ReleaseLoop(v.loop.left - {n}), ReleaseOne(v.ledger, n, UNIT, id))
    case EndRelease => v.(loop := NoLoop)
  }

  lemma ReserveNodeKeepsEven(nodes: set<NodeId>, v: View, n: NodeId, id: SessionId)
    requires Even(nodes, v) && v.loop.ReserveLoop? && n in v.loop.left
    ensures Even(nodes, Changed(nodes, v, ReserveNode(n, id)))
    ensures !ReserveOne(v.ledger, n, UNIT, id).1 ==>
              v.loop.left == nodes && Changed(nodes, v, ReserveNode(n, id)).ledger == v.ledger && v.base == 3
  {
    hide Loads, ReserveOne;
    ReserveRound(v.ledger, nodes, v.base, nodes - v.loop.left, n, id);
    assert nodes - (v.loop.left - {n}) == (nodes - v.loop.left) + {n};
    assert nodes - nodes == {};
  }

  /** The heart of the matter: every change keeps the ledger even, and a refusal changes nothing. */
  lemma ChangesKeepEven(nodes: set<NodeId>, v: View, change: Change)
    requires Even(nodes, v) && CanChange(nodes, v, change)
    ensures Even(nodes, Changed(nodes, v, change))
    ensures change.ReserveNode? && !ReserveOne(v.ledger, change.n, UNIT, change.id).1 ==>
              v.loop.left == nodes && Changed(nodes, v, change).ledger == v.ledger && v.base == 3
  {
    hide ReserveOne, ReleaseOne;
    match change
    case ReserveNode(n, id) => ReserveNodeKeepsEven(nodes, v, n, id);
    case ReleaseNode(n, id) => ReleaseRound(v.ledger, nodes, v.base, v.loop.left, n, id);
    case BeginReserve =>
      assert nodes - nodes == {};
    case EndReserve =>
      assert nodes - {} == nodes;
    case _ =>
  }

  // ----- the view of a state -----

  /** The calls that have reserved but not stored, or removed but not begun to release. */
  predicate IsPending(phase: Phase) {
    phase.Reserved? || phase.Storing? || phase.Removed?
  }

  function Pending(ops: map<OpId, Op>): set<OpId> {
    set o | o in ops && IsPending(ops[o].phase)
  }

  /** Sessions stored, sessions in between, and sessions a reused id has replaced. */
  function Base(s: System): nat {
    |s.data.sessions| + |Pending(s.ops)| + s.data.leaked
  }

  function LoopOf(phase: Phase): Loop {
    match phase
    case Reserving(left) => ReserveLoop(left)
    case Releasing(_, left) => ReleaseLoop(left)
    case _ => NoLoop
  }

  function LoopIn(l: Lock, ops: map<OpId, Op>): Loop {
    match l.writer
    case None => NoLoop
    case Some(o) => if o in ops then LoopOf(ops[o].phase) else NoLoop
  }

  function ViewOf(s: System): View {
    View(Base(s), LoopIn(s.ledgerLock, s.ops), s.data.ledger)
  }

  /** The change a step of a call makes. */
  ghost function ChangeBy(c: Cluster, op: Op, pick: NodeId, e: Effect): Change
    requires PhaseFits(c, op)
  {
    match op.phase
    case Admitted => BeginReserve
    case Reserving(_) => if e.Access? then ReserveNode(pick, op.request.id) else EndReserve
    case Removed(_) => BeginRelease
    case Releasing(_, _) => if e.Access? then ReleaseNode(pick, op.request.id) else EndRelease
    case _ => Nothing
  }

  function Weight(phase: Phase): int {
    if IsPending(phase) then 1 else 0
  }

  function Size(d: Data): nat {
    |d.sessions| + d.leaked
  }

  lemma PendingUpdate(ops: map<OpId, Op>, o: OpId, op': Op)
    requires o in ops
    ensures |Pending(ops[o := op'])| == |Pending(ops)| - Weight(ops[o].phase) + Weight(op'.phase)
  {
    var rest := Pending(ops) - {o};
    assert Pending(ops) == if IsPending(ops[o].phase) then rest + {o} else rest;
    assert Pending(ops[o := op']) == if IsPending(op'.phase) then rest + {o} else rest;
  }

  lemma SizeOfInsert(d: Data, id: SessionId, x: Session)
    ensures Size(d.(sessions := d.sessions[id := x], leaked := d.leaked + if id in d.sessions then 1 else 0))
            == Size(d) + 1
  {
    var sessions := d.sessions[id := x];
    assert sessions.Keys == d.sessions.Keys + {id};
  }

  lemma SizeOfRemove(d: Data, id: SessionId)
    requires id in d.sessions
    ensures Size(d.(sessions := d.sessions - {id})) == Size(d) - 1
  {
    assert d.sessions.Keys == (d.sessions - {id}).Keys + {id};
  }

  /** Sessions move between the store and the calls in flight, but none appears or disappears. */
  lemma AccessKeepsSize(c: Cluster, d: Data, op: Op, pick: NodeId)
    requires PhaseFits(c, op) && Section(c, d, op, pick).Access?
    ensures var e := Section(c, d, op, pick);
            Size(e.data) + Weight(e.next) == Size(d) + Weight(op.phase)
  {
    match op.phase
    case LookingUp => SizeOfRemove(d, op.request.id);
    case Storing => SizeOfInsert(d, op.request.id, NewSession(c, op.request.id));
    case _ =>
  }

  ghost predicate Enabled(s: System, o: OpId, e: Effect)
    requires o in s.ops
  {
    match e
    case TakeSessions(_) => CanTake(s.sessionsLock, ExclusiveOp(s.ops[o]))
    case TakeLedger(_) => CanTake(s.ledgerLock, ExclusiveOp(s.ops[o]))
    case Stay => false
    case _ => true
  }

  lemma StepBase(s: System, o: OpId, pick: NodeId)
    requires o in s.ops && PhaseFits(s.cluster, s.ops[o]) && Enabled(s, o, Section(s.cluster, s.data, s.ops[o], pick))
    ensures var op, e := s.ops[o], Section(s.cluster, s.data, s.ops[o], pick);
            Base(Perform(s, o, pick)) == Base(s)
              + if e.TakeLedger? && op.phase.Removed? then -1 else if e.DropLedger? && op.phase.Reserving? then 1 else 0
  {
    var op, e := s.ops[o], Section(s.cluster, s.data, s.ops[o], pick);
    PendingUpdate(s.ops, o, op.(phase := NextPhase(op, e)));
    if e.Access? {
      AccessKeepsSize(s.cluster, s.data, op, pick);
    }
  }

  lemma StepLoop(s: System, o: OpId, pick: NodeId)
    requires o in s.ops && PhaseFits(s.cluster, s.ops[o]) && LocksOk(s)
    requires Enabled(s, o, Section(s.cluster, s.data, s.ops[o], pick))
    ensures var op, e := s.ops[o], Section(s.cluster, s.data, s.ops[o], pick);
            var (loop, loop')
              := (LoopIn(s.ledgerLock, s.ops), LoopIn(Perform(s, o, pick).ledgerLock, Perform(s, o, pick).ops));
            && (!op.request.Stats? && (e.TakeLedger? || e.DropLedger? || (e.Access? && HoldsLedger(op))) ==>
                  loop == LoopOf(op.phase) && loop' == LoopOf(e.next))
            && (!op.request.Stats? && !(e.TakeLedger? || e.DropLedger? || (e.Access? && HoldsLedger(op))) ==>
                  loop' == loop)
            && (op.request.Stats? ==> loop' == loop)
  {
    var op, e := s.ops[o], Section(s.cluster, s.data, s.ops[o], pick);
    SectionRespectsLocks(s.cluster, s.data, op, pick);
    assert HoldsLedger(op) && !op.request.Stats? ==> s.ledgerLock.writer == Some(o);
  }

  ghost predicate ChangesAs(s: System, o: OpId, pick: NodeId, change: Change)
    requires o in s.ops
  {
    CanChange(Selected(s.cluster), ViewOf(s), change)
    && ViewOf(Perform(s, o, pick)) == Changed(Selected(s.cluster), ViewOf(s), change)
  }

  predicate ReservePhase(phase: Phase) { phase.Admitted? || phase.Reserving? }

  predicate ReleasePhase(phase: Phase) { phase.Removed? || phase.Releasing? }

  lemma StepOfReserve(s: System, o: OpId, pick: NodeId)
    requires o in s.ops && PhaseFits(s.cluster, s.ops[o]) && LocksOk(s) && ReservePhase(s.ops[o].phase)
    requires Enabled(s, o, Section(s.cluster, s.data, s.ops[o], pick))
    ensures ChangesAs(s, o, pick, ChangeBy(s.cluster, s.ops[o], pick, Section(s.cluster, s.data, s.ops[o], pick)))
  {
    StepBase(s, o, pick);
    StepLoop(s, o, pick);
    PerformIs(s, o, pick);
  }

  lemma SomethingIsPending(s: System, o: OpId)
    requires o in s.ops && s.ops[o].phase.Removed?
    ensures Base(s) >= 1
  {
    assert o in Pending(s.ops);
  }

  lemma StepOfRelease(s: System, o: OpId, pick: NodeId)
    requires o in s.ops && PhaseFits(s.cluster, s.ops[o]) && LocksOk(s) && ReleasePhase(s.ops[o].phase)
    requires Enabled(s, o, Section(s.cluster, s.data, s.ops[o], pick))
    ensures ChangesAs(s, o, pick, ChangeBy(s.cluster, s.ops[o], pick, Section(s.cluster, s.data, s.ops[o], pick)))
  {
    hide LoopIn, Base;
    StepBase(s, o, pick);
    StepLoop(s, o, pick);
    if s.ops[o].phase.Removed? {
      SomethingIsPending(s, o);
    }
  }

  lemma StepOfOther(s: System, o: OpId, pick: NodeId)
    requires o in s.ops && PhaseFits(s.cluster, s.ops[o]) && LocksOk(s)
    requires !ReservePhase(s.ops[o].phase) && !ReleasePhase(s.ops[o].phase)
    requires Enabled(s, o, Section(s.cluster, s.data, s.ops[o], pick))
    ensures ChangesAs(s, o, pick, Nothing)
  {
    StepBase(s, o, pick);
    StepLoop(s, o, pick);
    PerformIs(s, o, pick);
  }

  /** A step changes the view in exactly the way its phase says. */
  lemma StepChanges(s: System, o: OpId, pick: NodeId)
    requires o in s.ops && PhaseFits(s.cluster, s.ops[o]) && LocksOk(s)
    requires Enabled(s, o, Section(s.cluster, s.data, s.ops[o], pick))
    ensures ChangesAs(s, o, pick, ChangeBy(s.cluster, s.ops[o], pick, Section(s.cluster, s.data, s.ops[o], pick)))
  {
    if ReservePhase(s.ops[o].phase) {
      StepOfReserve(s, o, pick);
    } else if ReleasePhase(s.ops[o].phase) {
      StepOfRelease(s, o, pick);
    } else {
      StepOfOther(s, o, pick);
    }
  }

  // ----- conservation -----

  function Count(log: seq<Event>, reserve: bool): nat {
    if log == [] then 0
    else Count(log[..|log| - 1], reserve) + if log[|log| - 1].ReserveEvent? == reserve then 1 else 0
  }

  lemma CountOne(log: seq<Event>, e: Event, reserve: bool)
    ensures Count(log + [e], reserve) == Count(log, reserve) + if e.ReserveEvent? == reserve then 1 else 0
  {
    assert (log + [e])[..|log|] == log;
  }

  /** What was reserved is what is still held plus what was or is being released. */
  ghost predicate Conserved(log: seq<Event>, v: View) {
    Count(log, true) == v.base + Count(log, false) + if v.loop.ReleaseLoop? then 1 else 0
  }

  /** Completed loops are logged, and nothing else is. */
  lemma StepLogs(s: System, o: OpId, pick: NodeId)
    requires o in s.ops && PhaseFits(s.cluster, s.ops[o])
    requires Enabled(s, o, Section(s.cluster, s.data, s.ops[o], pick))
    ensures var change := ChangeBy(s.cluster, s.ops[o], pick, Section(s.cluster, s.data, s.ops[o], pick));
            match change
            case EndReserve => Perform(s, o, pick).log == s.log + [ReserveEvent(s.ops[o].request.id)]
            case EndRelease => Perform(s, o, pick).log == s.log + [ReleaseEvent(s.ops[o].request.id)]
            case _ => Perform(s, o, pick).log == s.log
  {
  }

  lemma ChangeConserves(nodes: set<NodeId>, log: seq<Event>, v: View, change: Change, id: SessionId)
    requires CanChange(nodes, v, change) && Conserved(log, v)
    ensures match change
            case EndReserve => Conserved(log + [ReserveEvent(id)], Changed(nodes, v, change))
            case EndRelease => Conserved(log + [ReleaseEvent(id)], Changed(nodes, v, change))
            case _ => Conserved(log, Changed(nodes, v, change))
  {
    match change
    case EndReserve =>
      CountOne(log, ReserveEvent(id), true);
      CountOne(log, ReserveEvent(id), false);
    case EndRelease =>
      CountOne(log, ReleaseEvent(id), true);
      CountOne(log, ReleaseEvent(id), false);
    case _ =>
  }

  lemma StepConserves(s: System, o: OpId, pick: NodeId)
    requires o in s.ops && PhaseFits(s.cluster, s.ops[o]) && LocksOk(s) && Conserved(s.log, ViewOf(s))
    requires Enabled(s, o, Section(s.cluster, s.data, s.ops[o], pick))
    ensures Conserved(Perform(s, o, pick).log, ViewOf(Perform(s, o, pick)))
  {
    var change := ChangeBy(s.cluster, s.ops[o], pick, Section(s.cluster, s.data, s.ops[o], pick));
    StepChanges(s, o, pick);
    StepLogs(s, o, pick);
    ChangeConserves(Selected(s.cluster), s.log, ViewOf(s), change,
                    if s.ops[o].request.Stats? then 0 else s.ops[o].request.id);
  }

  // ----- runs -----

  ghost predicate Inv(s: System) {
    && ValidCluster(s.cluster)
    && LocksOk(s)
    && (forall o :: o in s.ops ==> PhaseFits(s.cluster, s.ops[o]))
    && SessionsUniform(s.cluster, s.data.sessions)
    && Even(Selected(s.cluster), ViewOf(s))
    && Conserved(s.log, ViewOf(s))
  }

  lemma DisabledStays(s: System, o: OpId, pick: NodeId)
    requires o in s.ops && !Enabled(s, o, Section(s.cluster, s.data, s.ops[o], pick))
    ensures Perform(s, o, pick) == s
  {
  }

  lemma PerformKeepsInv(s: System, o: OpId, pick: NodeId)
    requires Inv(s) && o in s.ops
    ensures Inv(Perform(s, o, pick))
  {
    if !Enabled(s, o, Section(s.cluster, s.data, s.ops[o], pick)) {
      DisabledStays(s, o, pick);
    } else {
      PerformKeepsLocks(s, o, pick);
      PerformKeepsPhases(s, o, pick);
      PerformIs(s, o, pick);
      StepChanges(s, o, pick);
      StepConserves(s, o, pick);
      ChangesKeepEven(Selected(s.cluster), ViewOf(s),
                      ChangeBy(s.cluster, s.ops[o], pick, Section(s.cluster, s.data, s.ops[o], pick)));
    }
  }

  lemma InvokeKeepsView(s: System, o: OpId, request: Request)
    requires o !in s.ops && LocksOk(s)
    ensures ViewOf(Next(s, Invoke(o, request))) == ViewOf(s) && LocksOk(Next(s, Invoke(o, request)))
  {
    hide Matches;
    var s' := Next(s, Invoke(o, request));
    assert Pending(s'.ops) == Pending(s.ops);
    Joined(s.ledgerLock, s.ops, HoldsLedger, ExclusiveOp, o, Op(request, Start));
    Joined(s.sessionsLock, s.ops, HoldsSessions, ExclusiveOp, o, Op(request, Start));
  }

  lemma {:induction false} RunKeepsInv(c: Cluster, actions: seq<Action>)
    requires ValidCluster(c)
    ensures Inv(Run(c, actions)) && Run(c, actions).cluster == c
  {
    if actions == [] {
      assert Pending(map[]) == {};
    } else {
      var s, a := Run(c, actions[..|actions| - 1]), actions[|actions| - 1];
      RunKeepsInv(c, actions[..|actions| - 1]);
      if a.Advance? && a.o in s.ops {
        PerformKeepsInv(s, a.o, a.pick);
        PerformIs(s, a.o, a.pick);
      } else if a.Invoke? && a.o !in s.ops {
        InvokeKeepsView(s, a.o, a.request);
      }
    }
  }

  // ----- main results -----

  /** No reservation or release loop is under way. */
  ghost predicate Settled(s: System) {
    LoopIn(s.ledgerLock, s.ops).NoLoop?
  }

  /**
   In every reachable state outside the loops, all chosen nodes carry the same load of at
   most three units and no other node carries any; the load is the sessions stored, plus
   those reserved and not yet stored or removed and not yet released, plus those a reused
   id has replaced. At most three sessions are ever stored.
   */
  lemma LoadIsEven(c: Cluster, actions: seq<Action>)
    requires ValidCluster(c)
    ensures var s := Run(c, actions);
            && |s.data.sessions| <= Base(s) <= 3
            && s.data.ledger.Keys <= Selected(c)
            && (Settled(s) ==> forall n :: n in Selected(c) ==> Held(s.data.ledger, n).amount == Times(Base(s)))
  {
    RunKeepsInv(c, actions);
    assert Even(Selected(c), ViewOf(Run(c, actions)));
  }

  /**
   A reservation that is refused at some node has reserved nothing before: the loop was at
   its first node, the node carried three units, and the ledger is left as it was.
   */
  lemma ReservationIsAllOrNothing(c: Cluster, actions: seq<Action>, o: OpId, pick: NodeId)
    requires ValidCluster(c)
    requires o in Run(c, actions).ops && !Run(c, actions).ops[o].phase.Refused?
    requires Next(Run(c, actions), Advance(o, pick)).ops[o].phase.Refused?
    ensures var s, s' := Run(c, actions), Next(Run(c, actions), Advance(o, pick));
            && s.ops[o].phase == Reserving(Selected(c)) && Selected(c) != {}
            && s'.data == s.data
            && forall n :: n in Selected(c) ==> Held(s.data.ledger, n).amount == Times(3)
  {
    RunKeepsInv(c, actions);
    var s := Run(c, actions);
    assert s.ops[o].phase.Reserving?;
    StepChanges(s, o, pick);
    StepLoop(s, o, pick);
    ChangesKeepEven(Selected(c), ViewOf(s), ReserveNode(pick, s.ops[o].request.id));
  }

  lemma OneMore(v: View, nodes: set<NodeId>, n: NodeId)
    requires Even(nodes, v) && v.loop.ReleaseLoop? && n in v.loop.left
    ensures n in v.ledger && v.ledger[n].amount == Times(v.base + 1)
  {
    assert Held(v.ledger, n).amount == Times(v.base + 1);
  }

  lemma ReleasingNode(s: System, o: OpId, n: NodeId)
    requires LocksOk(s) && o in s.ops && PhaseFits(s.cluster, s.ops[o]) && Even(Selected(s.cluster), ViewOf(s))
    requires s.ops[o].phase.Releasing? && n in s.ops[o].phase.left
    ensures n in s.ops[o].phase.resources && s.ops[o].phase.resources[n] == UNIT
    ensures n in s.data.ledger && s.data.ledger[n].amount == Times(Base(s) + 1)
  {
    assert s.ledgerLock.writer == Some(o);
    OneMore(ViewOf(s), Selected(s.cluster), n);
  }

  /** While a release is under way every node still to be released carries at least the unit it takes away. */
  lemma ReleaseNeverUnderflows(c: Cluster, actions: seq<Action>, s: System, o: OpId, n: NodeId)
    requires ValidCluster(c) && s == Run(c, actions) && o in s.ops
    requires s.ops[o].phase.Releasing? && n in s.ops[o].phase.left
    ensures n in s.ops[o].phase.resources && n in s.data.ledger
    ensures var held, taken := s.data.ledger[n].amount, s.ops[o].phase.resources[n];
            held.cpu >= taken.cpu > 0 && held.ram >= taken.ram > 0 && held.vram >= taken.vram > 0
  {
    RunKeepsInv(c, actions);
    ReleasingNode(s, o, n);
  }

  /** The log of reservations and releases only grows along a run. */
  lemma {:induction false} RunExtends(c: Cluster, actions: seq<Action>, i: nat)
    requires i <= |actions|
    ensures Run(c, actions[..i]).log <= Run(c, actions).log
  {
    if i < |actions| {
      var front, a := actions[..|actions| - 1], actions[|actions| - 1];
      RunExtends(c, front, i);
      assert front[..i] == actions[..i];
      var s := Run(c, front);
      if a.Advance? && a.o in s.ops {
        PerformIs(s, a.o, a.pick);
      }
    } else {
      assert actions[..i] == actions;
    }
  }

  lemma {:induction false} CountConcat(a: seq<Event>, b: seq<Event>, reserve: bool)
    ensures Count(a + b, reserve) == Count(a, reserve) + Count(b, reserve)
  {
    if b == [] {
      assert a + b == a;
    } else {
      CountConcat(a, b[..|b| - 1], reserve);
      assert (a + b)[..|a + b| - 1] == a + b[..|b| - 1];
    }
  }

  lemma SettledLoad(s: System, n: NodeId)
    requires Even(Selected(s.cluster), ViewOf(s)) && Conserved(s.log, ViewOf(s))
             && n in Selected(s.cluster) && Settled(s)
    ensures Held(s.data.ledger, n).amount == Times(Base(s))
    ensures Base(s) == Count(s.log, true) - Count(s.log, false)
  {
  }

  /**
   Conservation: at two settled moments of a run the counters of every chosen node are
   whole units, and their number moves up by one for each reservation and down by one for
   each release completed in between. `SchedulerConservation` divides them among the ids.
   */
  lemma LedgerIsConserved(c: Cluster, before: seq<Action>, after: seq<Action>, between: seq<Event>, n: NodeId)
    requires ValidCluster(c) && before <= after && n in Selected(c)
    requires Settled(Run(c, before)) && Settled(Run(c, after))
    requires Run(c, after).log == Run(c, before).log + between
    ensures Held(Run(c, before).data.ledger, n).amount == Times(Base(Run(c, before)))
    ensures Held(Run(c, after).data.ledger, n).amount == Times(Base(Run(c, after)))
    ensures Base(Run(c, after)) == Base(Run(c, before)) + Count(between, true) - Count(between, false)
  {
    RunKeepsInv(c, before);
    RunKeepsInv(c, after);
    SettledLoad(Run(c, before), n);
    SettledLoad(Run(c, after), n);
    CountConcat(Run(c, before).log, between, true);
    CountConcat(Run(c, before).log, between, false);
  }

  lemma CountingIs(s: System, o: OpId, report: Report)
    requires Inv(s) && o in s.ops && s.ops[o].phase == CountingBoth
    requires Next(s, Advance(o, 0)).ops[o].phase == Counted(report)
    ensures report == Report(|s.data.sessions|, Total(s.data.ledger))
    ensures Loads(s.data.ledger, Selected(s.cluster), Base(s), {})
  {
    hide Loads, Base, Total, Selected;
    assert o in s.ledgerLock.readers && s.ledgerLock.writer.None?;
  }

  /**
   Statistics are read between loops: the totals are the common load times the number of
   chosen nodes, and the sessions reported are at most that load.
   */
  lemma StatisticsAreConsistent(c: Cluster, actions: seq<Action>, o: OpId, report: Report)
    requires ValidCluster(c) && o in Run(c, actions).ops && Run(c, actions).ops[o].phase == CountingBoth
    requires Next(Run(c, actions), Advance(o, 0)).ops[o].phase == Counted(report)
    ensures report.activeSessions == |Run(c, actions).data.sessions| <= Base(Run(c, actions))
    ensures report.total == Times(Base(Run(c, actions)) * |Selected(c)|)
  {
    hide Run, Base, Total, Times, Selected;
    RunKeepsInv(c, actions);
    var s := Run(c, actions);
    CountingIs(s, o, report);
    LoadIsEven(c, actions);
    TotalOfEven(s.data.ledger, Selected(c), Base(s));
  }

  // ----- deadlock freedom -----

  /** Sessions are always locked before the ledger: a call that holds the ledger waits for nothing. */
  lemma LedgerHoldersNeverWait(s: System, o: OpId, pick: NodeId)
    requires o in s.ops && PhaseFits(s.cluster, s.ops[o])
    requires Section(s.cluster, s.data, s.ops[o], pick).TakeSessions?
             || Section(s.cluster, s.data, s.ops[o], pick).TakeLedger?
    ensures !HoldsLedger(s.ops[o])
    ensures Section(s.cluster, s.data, s.ops[o], pick).TakeSessions? ==> !HoldsSessions(s.ops[o])
  {
  }

  /** A call that has not returned has a next step, if its loop is given a node to visit. */
  lemma PhaseMoves(c: Cluster, d: Data, op: Op, pick: NodeId)
    requires PhaseFits(c, op) && !op.phase.Returned?
    requires (op.phase.Reserving? || op.phase.Releasing?) && op.phase.left != {} ==> pick in op.phase.left
    ensures !Section(c, d, op, pick).Stay? && NextPhase(op, Section(c, d, op, pick)) != op.phase
  {
  }

  lemma LedgerHolderMoves(s: System, o: OpId) returns (pick: NodeId)
    requires o in s.ops && PhaseFits(s.cluster, s.ops[o]) && HoldsLedger(s.ops[o])
    ensures Perform(s, o, pick) != s
  {
    var phase := s.ops[o].phase;
    if (phase.Reserving? || phase.Releasing?) && phase.left != {} {
      pick :| pick in phase.left;
    } else {
      pick := 0;
    }
    PhaseMoves(s.cluster, s.data, s.ops[o], pick);
  }

  lemma FreeLedgerLetsSessionsMove(s: System, o: OpId)
    requires LocksOk(s) && o in s.ops && PhaseFits(s.cluster, s.ops[o]) && HoldsSessions(s.ops[o])
    requires forall p :: p in s.ops ==> !HoldsLedger(s.ops[p])
    ensures Perform(s, o, 0) != s
  {
    NobodyHolds(s.ledgerLock, s.ops, HoldsLedger, ExclusiveOp);
    PhaseMoves(s.cluster, s.data, s.ops[o], 0);
  }

  lemma FreeLocksLetAnyoneMove(s: System, o: OpId)
    requires LocksOk(s) && o in s.ops && PhaseFits(s.cluster, s.ops[o]) && !s.ops[o].phase.Returned?
    requires forall p :: p in s.ops ==> !HoldsLedger(s.ops[p]) && !HoldsSessions(s.ops[p])
    ensures Perform(s, o, 0) != s
  {
    NobodyHolds(s.ledgerLock, s.ops, HoldsLedger, ExclusiveOp);
    NobodyHolds(s.sessionsLock, s.ops, HoldsSessions, ExclusiveOp);
    PhaseMoves(s.cluster, s.data, s.ops[o], 0);
  }

  /** No reachable state is stuck: while a call has not returned, some call can move. */
  lemma NeverStuck(c: Cluster, actions: seq<Action>, waiting: OpId) returns (o: OpId, pick: NodeId)
    requires ValidCluster(c)
    requires waiting in Run(c, actions).ops && !Run(c, actions).ops[waiting].phase.Returned?
    ensures Next(Run(c, actions), Advance(o, pick)) != Run(c, actions)
  {
    RunKeepsInv(c, actions);
    var s := Run(c, actions);
    if p :| p in s.ops && HoldsLedger(s.ops[p]) {
      o := p;
      pick := LedgerHolderMoves(s, o);
    } else if p :| p in s.ops && HoldsSessions(s.ops[p]) {
      o, pick := p, 0;
      FreeLedgerLetsSessionsMove(s, o);
    } else {
      o, pick := waiting, 0;
      FreeLocksLetAnyoneMove(s, o);
    }
  }
}
