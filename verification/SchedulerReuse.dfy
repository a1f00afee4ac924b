/**
 A run of the scheduler that reuses a session id: two schedules and one release leave no
 session, one unit on every chosen node, and no active session to show for it.
 */
module SchedulerReuse {
  import opened Wrappers
  import opened ClusterTypes
  import opened Locks
  import opened SchedulerModel
  import opened SchedulerLocks
  import opened SchedulerSessions
  import opened SchedulerLists

  // ----- one call at a time -----

  lemma RunOne(c: Cluster, actions: seq<Action>, a: Action)
    ensures Run(c, actions + [a]) == Next(Run(c, actions), a)
  {
    assert (actions + [a])[..|actions|] == actions;
  }

  /** The state with call `o` in the given phase of the given request. */
  ghost function With(s: System, o: OpId, request: Request, phase: Phase): System {
    s.(ops := s.ops[o := Op(request, phase)])
  }

  ghost function AfterReserve(s: System, o: OpId, request: Request, id: SessionId): System {
    With(s, o, request, Reserved).(
      data := s.data.(ledger := ReservedOn(s.data.ledger, Selected(s.cluster), id)),
      log := s.log + [ReserveEvent(id)])
  }

  ghost function AfterSchedule(s: System, o: OpId, id: SessionId, contextLength: nat): System {
    var session := NewSession(s.cluster, id);
    With(s, o, Schedule(id, contextLength), Returned(Scheduled(session))).(
      data := Data(s.data.sessions[id := session], ReservedOn(s.data.ledger, Selected(s.cluster), id),
                   s.data.leaked + if id in s.data.sessions then 1 else 0),
      log := s.log + [ReserveEvent(id)])
  }

  ghost function AfterRelease(s: System, o: OpId, id: SessionId): System {
    With(s, o, Release(id), Returned(Done)).(
      data := s.data.(sessions := s.data.sessions - {id}, ledger := ReleasedOn(s.data.ledger, Selected(s.cluster), id)),
      log := s.log + [ReleaseEvent(id)])
  }

  ghost function InReserve(s: System, o: OpId, request: Request, id: SessionId, left: set<NodeId>): System {
    With(s, o, request, Reserving(left)).(
      ledgerLock := Lock(Some(o), {}),
      data := s.data.(ledger := ReservedOn(s.data.ledger, Selected(s.cluster) - left, id)))
  }

  lemma {:induction false} ReserveLoopAlone(c: Cluster, actions: seq<Action>, s: System, o: OpId, request: Request,
                                            id: SessionId, k: int, left: set<NodeId>)
    returns (more: seq<Action>)
    requires s.cluster == c && request.Schedule? && request.id == id && left <= Selected(c)
    requires Loads(s.data.ledger, Selected(c), k, {}) && k <= 2
    requires Run(c, actions) == InReserve(s, o, request, id, left)
    ensures Run(c, more) == InReserve(s, o, request, id, {})
    decreases left
  {
    hide Next, Run, Loads, ReservedOn, ReserveOne, Selected;
    if left == {} {
      more := actions;
    } else {
      var n :| n in left;
      ReserveRoundAlone(s, o, request, id, k, left, n);
      RunOne(c, actions, Advance(o, n));
      more := ReserveLoopAlone(c, actions + [Advance(o, n)], s, o, request, id, k, left - {n});
    }
  }

  lemma ReserveRoundAlone(s: System, o: OpId, request: Request, id: SessionId, k: int, left: set<NodeId>, n: NodeId)
    requires request.Schedule? && request.id == id && n in left && left <= Selected(s.cluster)
    requires Loads(s.data.ledger, Selected(s.cluster), k, {}) && k <= 2
    ensures Next(InReserve(s, o, request, id, left), Advance(o, n)) == InReserve(s, o, request, id, left - {n})
  {
    hide Perform, Loads, ReservedOn, ReserveOne, Selected;
    var done := Selected(s.cluster) - left;
    RoundOnEven(s.data.ledger, Selected(s.cluster), done, k, n, id);
    assert Selected(s.cluster) - (left - {n}) == done + {n};
    ReserveRoundIs(InReserve(s, o, request, id, left), o, n);
  }

  // ----- the steps outside the loops -----

  lemma InvokeIs(s: System, o: OpId, request: Request)
    requires o !in s.ops
    ensures Next(s, Invoke(o, request)) == With(s, o, request, Start)
  {
  }

  lemma AdmitIs(s: System, o: OpId, id: SessionId, contextLength: nat)
    requires Admits(s.cluster, contextLength) && Selected(s.cluster) != {}
    ensures var request := Schedule(id, contextLength);
            Next(With(s, o, request, Start), Advance(o, 0)) == With(s, o, request, Admitted)
  {
    hide Admits, Selected, SelectNodes;
    SelectedNonEmpty(s.cluster);
  }

  lemma TakeLedgerIs(s: System, o: OpId, id: SessionId, contextLength: nat)
    requires s.ledgerLock == Free
    ensures var request := Schedule(id, contextLength);
            Next(With(s, o, request, Admitted), Advance(o, 0)) == InReserve(s, o, request, id, Selected(s.cluster))
  {
    hide Selected, SelectNodes;
    var all := Selected(s.cluster);
    assert all - all == {} && Allocations(all).Keys == all;
    ReservedOnNothing(s.data.ledger, id);
  }

  lemma LoopEndIs(s: System, o: OpId, id: SessionId, contextLength: nat)
    requires s.ledgerLock == Free
    ensures var request := Schedule(id, contextLength);
            Next(InReserve(s, o, request, id, {}), Advance(o, 0)) == AfterReserve(s, o, request, id)
  {
    hide Selected, ReservedOn, Perform;
    assert Selected(s.cluster) - {} == Selected(s.cluster);
    ReserveEndIs(InReserve(s, o, Schedule(id, contextLength), id, {}), o, 0);
  }

  lemma TakeSessionsIs(s: System, o: OpId, request: Request)
    requires s.sessionsLock == Free && request.Schedule?
    ensures Next(With(s, o, request, Reserved), Advance(o, 0))
            == With(s, o, request, Storing).(sessionsLock := Lock(Some(o), {}))
  {
  }

  lemma StoreIs(s: System, o: OpId, id: SessionId, contextLength: nat)
    requires s.sessionsLock == Free
    ensures var request, session := Schedule(id, contextLength), NewSession(s.cluster, id);
            var storing := With(s, o, request, Storing).(sessionsLock := Lock(Some(o), {}));
            Next(Next(storing, Advance(o, 0)), Advance(o, 0))
            == With(s, o, request, Returned(Scheduled(session))).(
                 data := s.data.(sessions := s.data.sessions[id := session],
                                 leaked := s.data.leaked + if id in s.data.sessions then 1 else 0))
  {
    hide Selected, NewSession;
  }

  lemma LookUpIs(s: System, o: OpId, id: SessionId)
    requires s.sessionsLock == Free && id in s.data.sessions
    ensures var s1 := Next(Next(With(s, o, Release(id), Start), Advance(o, 0)), Advance(o, 0));
            s1 == With(s, o, Release(id), Removed(s.data.sessions[id].resources)).(
                    sessionsLock := Lock(Some(o), {}), data := s.data.(sessions := s.data.sessions - {id}))
  {
  }

  lemma BeginReleasingIs(s: System, o: OpId, id: SessionId)
    requires s.ledgerLock == Free
    ensures var removed := With(s, o, Release(id), Removed(Allocations(Selected(s.cluster)))).(
                             sessionsLock := Lock(Some(o), {}),
                             data := s.data.(sessions := s.data.sessions - {id}));
            Next(removed, Advance(o, 0)) == InRelease(s, o, id, Selected(s.cluster))
  {
    hide Selected, SelectNodes;
    var all := Selected(s.cluster);
    assert all - all == {} && Allocations(all).Keys == all;
    ReservedOnNothing(s.data.ledger, id);
  }

  lemma ReleasingEndIs(s: System, o: OpId, id: SessionId)
    requires s.ledgerLock == Free
    ensures Next(InRelease(s, o, id, {}), Advance(o, 0))
            == With(AfterRelease(s, o, id), o, Release(id), Released).(sessionsLock := Lock(Some(o), {}))
  {
    hide Selected, ReleasedOn, Perform;
    assert Selected(s.cluster) - {} == Selected(s.cluster);
    ReleaseEndIs(InRelease(s, o, id, {}), o, 0);
  }

  lemma ReleasedIs(s: System, o: OpId, id: SessionId)
    requires s.sessionsLock == Free
    ensures var released := With(AfterRelease(s, o, id), o, Release(id), Released).(sessionsLock := Lock(Some(o), {}));
            Next(released, Advance(o, 0)) == AfterRelease(s, o, id)
  {
    hide Selected, ReleasedOn;
  }

  // ----- whole calls -----

  lemma BeginScheduleAlone(c: Cluster, actions: seq<Action>, o: OpId, id: SessionId, contextLength: nat)
    returns (more: seq<Action>)
    requires Run(c, actions).cluster == c && o !in Run(c, actions).ops && Run(c, actions).ledgerLock == Free
    requires Admits(c, contextLength) && Selected(c) != {}
    ensures Run(c, more) == InReserve(Run(c, actions), o, Schedule(id, contextLength), id, Selected(c))
  {
    hide Run, Next, InReserve, With, Admits, Selected;
    var s, begin, go := Run(c, actions), Invoke(o, Schedule(id, contextLength)), Advance(o, 0);
    more := actions + [begin] + [go] + [go];
    RunOne(c, actions, begin);
    RunOne(c, actions + [begin], go);
    RunOne(c, actions + [begin] + [go], go);
    InvokeIs(s, o, Schedule(id, contextLength));
    AdmitIs(s, o, id, contextLength);
    TakeLedgerIs(s, o, id, contextLength);
  }

  lemma EndScheduleAlone(c: Cluster, actions: seq<Action>, s: System, o: OpId, id: SessionId, contextLength: nat)
    returns (more: seq<Action>)
    requires s.cluster == c && s.ledgerLock == Free && s.sessionsLock == Free
    requires Run(c, actions) == InReserve(s, o, Schedule(id, contextLength), id, {})
    ensures Run(c, more) == AfterSchedule(s, o, id, contextLength)
  {
    hide Run, Next, InReserve, Selected, ReservedOn, NewSession;
    var request, go := Schedule(id, contextLength), Advance(o, 0);
    more := actions + [go] + [go] + [go] + [go];
    RunOne(c, actions, go);
    RunOne(c, actions + [go], go);
    RunOne(c, actions + [go] + [go], go);
    RunOne(c, actions + [go] + [go] + [go], go);
    LoopEndIs(s, o, id, contextLength);
    var s1 := AfterReserve(s, o, request, id);
    assert s1 == With(s1, o, request, Reserved);
    TakeSessionsIs(s1, o, request);
    StoreIs(s1, o, id, contextLength);
  }

  /** A schedule that nobody interferes with, below the load limit. */
  lemma ScheduleAlone(c: Cluster, actions: seq<Action>, o: OpId, id: SessionId, contextLength: nat, k: int)
    returns (more: seq<Action>)
    requires var s := Run(c, actions);
             && s.cluster == c && s.ledgerLock == Free && s.sessionsLock == Free && o !in s.ops
             && Loads(s.data.ledger, Selected(c), k, {}) && k <= 2
    requires Admits(c, contextLength) && Selected(c) != {}
    ensures Run(c, more) == AfterSchedule(Run(c, actions), o, id, contextLength)
  {
    hide Run, Loads, ReservedOn, Selected, Admits;
    var s, request := Run(c, actions), Schedule(id, contextLength);
    more := BeginScheduleAlone(c, actions, o, id, contextLength);
    more := ReserveLoopAlone(c, more, s, o, request, id, k, Selected(c));
    more := EndScheduleAlone(c, more, s, o, id, contextLength);
  }

  ghost function InRelease(s: System, o: OpId, id: SessionId, left: set<NodeId>): System {
    With(s, o, Release(id), Releasing(Allocations(Selected(s.cluster)), left)).(
      sessionsLock := Lock(Some(o), {}),
      ledgerLock := Lock(Some(o), {}),
      data := s.data.(sessions := s.data.sessions - {id},
                      ledger := ReleasedOn(s.data.ledger, Selected(s.cluster) - left, id)))
  }

  lemma ReleaseRoundAlone(s: System, o: OpId, id: SessionId, left: set<NodeId>, n: NodeId)
    requires n in left && left <= Selected(s.cluster)
    ensures Next(InRelease(s, o, id, left), Advance(o, n)) == InRelease(s, o, id, left - {n})
  {
    hide Perform, ReleasedOn, ReleaseOne, Selected;
    var done := Selected(s.cluster) - left;
    ReleasedOnMore(s.data.ledger, done, n, id);
    assert Selected(s.cluster) - (left - {n}) == done + {n};
    ReleaseRoundIs(InRelease(s, o, id, left), o, n);
  }

  lemma {:induction false} ReleaseLoopAlone(c: Cluster, actions: seq<Action>, s: System, o: OpId, id: SessionId,
                                            left: set<NodeId>)
    returns (more: seq<Action>)
    requires s.cluster == c && left <= Selected(c) && Run(c, actions) == InRelease(s, o, id, left)
    ensures Run(c, more) == InRelease(s, o, id, {})
    decreases left
  {
    hide Next, Run, InRelease, Selected;
    if left == {} {
      more := actions;
    } else {
      var n :| n in left;
      ReleaseRoundAlone(s, o, id, left, n);
      RunOne(c, actions, Advance(o, n));
      more := ReleaseLoopAlone(c, actions + [Advance(o, n)], s, o, id, left - {n});
    }
  }

  lemma BeginReleaseAlone(c: Cluster, actions: seq<Action>, o: OpId, id: SessionId) returns (more: seq<Action>)
    requires var s := Run(c, actions);
             && s.cluster == c && o !in s.ops && s.ledgerLock == Free && s.sessionsLock == Free
             && id in s.data.sessions && s.data.sessions[id].resources == Allocations(Selected(c))
    ensures Run(c, more) == InRelease(Run(c, actions), o, id, Selected(c))
  {
    hide Run, Next, InRelease, With, Selected;
    var s, begin, go := Run(c, actions), Invoke(o, Release(id)), Advance(o, 0);
    more := actions + [begin] + [go] + [go] + [go];
    RunOne(c, actions, begin);
    RunOne(c, actions + [begin], go);
    RunOne(c, actions + [begin] + [go], go);
    RunOne(c, actions + [begin] + [go] + [go], go);
    InvokeIs(s, o, Release(id));
    LookUpIs(s, o, id);
    BeginReleasingIs(s, o, id);
  }

  lemma EndReleaseAlone(c: Cluster, actions: seq<Action>, s: System, o: OpId, id: SessionId) returns (more: seq<Action>)
    requires s.cluster == c && s.ledgerLock == Free && s.sessionsLock == Free
    requires Run(c, actions) == InRelease(s, o, id, {})
    ensures Run(c, more) == AfterRelease(s, o, id)
  {
    hide Run, Next, InRelease, AfterRelease, With;
    var go := Advance(o, 0);
    more := actions + [go] + [go];
    RunOne(c, actions, go);
    RunOne(c, actions + [go], go);
    ReleasingEndIs(s, o, id);
    ReleasedIs(s, o, id);
  }

  /** A release of a stored session that nobody interferes with. */
  lemma ReleaseAlone(c: Cluster, actions: seq<Action>, o: OpId, id: SessionId) returns (more: seq<Action>)
    requires var s := Run(c, actions);
             && s.cluster == c && o !in s.ops && s.ledgerLock == Free && s.sessionsLock == Free
             && id in s.data.sessions && s.data.sessions[id].resources == Allocations(Selected(c))
    ensures Run(c, more) == AfterRelease(Run(c, actions), o, id)
  {
    hide Run, ReleasedOn, Selected, InRelease, AfterRelease;
    var s := Run(c, actions);
    more := BeginReleaseAlone(c, actions, o, id);
    more := ReleaseLoopAlone(c, more, s, o, id, Selected(c));
    more := EndReleaseAlone(c, more, s, o, id);
  }

  // ----- the run -----

  lemma ReservedAt(l: Ledger, nodes: set<NodeId>, id: SessionId, n: NodeId)
    requires n in nodes
    ensures n in ReservedOn(l, nodes, id)
    ensures ReservedOn(l, nodes, id)[n] == Allocation(Plus(Held(l, n).amount, UNIT), Held(l, n).active + [id])
  {
  }

  lemma ReleasedAt(l: Ledger, nodes: set<NodeId>, id: SessionId, n: NodeId)
    requires n in nodes && n in l
    ensures n in ReleasedOn(l, nodes, id)
    ensures ReleasedOn(l, nodes, id)[n] == Allocation(Minus(l[n].amount, UNIT), Others(l[n].active, id))
  {
  }

  lemma OthersDropLast(active: seq<SessionId>, id: SessionId)
    ensures Others(active + [id], id) == Others(active, id)
  {
    assert (active + [id])[..|active|] == active;
  }

  /** What reserving an id twice and releasing it once leaves on a node that was free. */
  lemma TwiceAndBack(nodes: set<NodeId>, id: SessionId, n: NodeId)
    requires n in nodes
    ensures var l := ReleasedOn(ReservedOn(ReservedOn(map[], nodes, id), nodes, id), nodes, id);
            n in l && l[n] == Allocation(UNIT, [])
  {
    hide ReservedOn, ReleasedOn;
    var once := ReservedOn(map[], nodes, id);
    var twice := ReservedOn(once, nodes, id);
    ReservedAt(map[], nodes, id, n);
    ReservedAt(once, nodes, id, n);
    ReleasedAt(twice, nodes, id, n);
    OthersDropLast([] + [id], id);
    OthersDropLast([], id);
  }

  /**
   Schedule a session, schedule it again under the same id, release it: every call succeeds,
   no session is stored and none is listed as active, and every chosen node still carries one
   unit, which by `LeakedNeverFalls` no later call gives back.
   */
  lemma ReusedIdLosesAUnit(c: Cluster, id: SessionId, contextLength: nat) returns (actions: seq<Action>)
    requires ValidCluster(c) && Admits(c, contextLength) && Selected(c) != {}
    ensures var s := Run(c, actions);
            && Quiet(s) && s.data.sessions == map[] && s.data.leaked == 1
            && s.ops == map[0 := Op(Schedule(id, contextLength), Returned(Scheduled(NewSession(c, id)))),
                            1 := Op(Schedule(id, contextLength), Returned(Scheduled(NewSession(c, id)))),
                            2 := Op(Release(id), Returned(Done))]
            && forall n :: n in Selected(c) ==> Held(s.data.ledger, n) == Allocation(UNIT, [])
  {
    hide Run, Selected, ReservedOn, ReleasedOn, Admits;
    var s0 := Initial(c);
    EmptyRun(c);
    actions := ScheduleAlone(c, [], 0, id, contextLength, 0);
    var s1 := AfterSchedule(s0, 0, id, contextLength);
    FirstLoads(Selected(c), id);
    actions := ScheduleAlone(c, actions, 1, id, contextLength, 1);
    var s2 := AfterSchedule(s1, 1, id, contextLength);
    actions := ReleaseAlone(c, actions, 2, id);
    forall n | n in Selected(c) ensures Held(Run(c, actions).data.ledger, n) == Allocation(UNIT, []) {
      TwiceAndBack(Selected(c), id, n);
    }
  }

  lemma EmptyRun(c: Cluster)
    ensures Run(c, []) == Initial(c) && Loads(map[], Selected(c), 0, {})
  {
  }

  lemma FirstLoads(nodes: set<NodeId>, id: SessionId)
    ensures Loads(ReservedOn(map[], nodes, id), nodes, 1, {})
  {
    ReservedLoads(map[], nodes, 0, id);
  }
}
