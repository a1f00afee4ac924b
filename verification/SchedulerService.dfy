/**
 The scheduler in its own form: sessions and node allocations updated in place, one call
 at a time. `SchedulerLocks` treats overlapping calls.
 */
module SchedulerService {
  import opened Wrappers
  import opened ClusterTypes
  import opened Selections
  import opened SchedulerModel

  class Scheduler {
    const cluster: Cluster
    var sessions: map<SessionId, Session>
    var nodeAllocations: Ledger
    ghost var leaked: nat // stored sessions that a reused id has replaced

    /** Every chosen node carries one unit for each session stored or leaked, at most three. */
    ghost predicate Valid()
      reads this
    {
      && ValidCluster(cluster)
      && (forall id :: id in sessions ==> sessions[id].resources == Allocations(Selected(cluster)))
      && Load() <= 3
      && Loads(nodeAllocations, Selected(cluster), Load(), {})
    }

    ghost function Load(): nat
      reads this
    {
      |sessions| + leaked
    }

    constructor (cluster: Cluster)
      requires ValidCluster(cluster)
      ensures Valid() && this.cluster == cluster && sessions == map[] && nodeAllocations == map[] && leaked == 0
    {
      this.cluster := cluster;
      sessions, nodeAllocations, leaked := map[], map[], 0;
    }

    /**
     Reserves on every node or, although there is nothing to undo a partial reservation, on
     none: an even ledger accepts exactly while its load `k` is below three.
     */
    method ReserveResources(id: SessionId, allocations: map<NodeId, Amount>, ghost k: nat)
      returns (r: Result<(), Error>)
      requires allocations != map[] && allocations == Allocations(allocations.Keys)
      requires Loads(nodeAllocations, allocations.Keys, k, {}) && k <= 3
      modifies this`nodeAllocations
      ensures r.Success? <==> k <= 2
      ensures r.Success? ==> nodeAllocations == ReservedOn(old(nodeAllocations), allocations.Keys, id)
      ensures r.Failure? ==> nodeAllocations == old(nodeAllocations)
      ensures r.Failure? ==> r.error.InsufficientResources? && r.error.node in allocations
    {
      ghost var before := nodeAllocations;
      ghost var order: seq<NodeId>;
      var refusedBy;
      order, refusedBy := ReserveEach(id, allocations);
      ReserveAllOnEven(before, allocations.Keys, order, k, id);
      r := match refusedBy
        case None => Success(())
        case Some(n) => Failure(InsufficientResources(n));
    }

    /** The loop itself, in whatever order the map yields its keys. */
    method ReserveEach(id: SessionId, allocations: map<NodeId, Amount>)
      returns (ghost order: seq<NodeId>, refusedBy: Option<NodeId>)
      requires allocations == Allocations(allocations.Keys)
      modifies this`nodeAllocations
      ensures (nodeAllocations, refusedBy.None?) == ReserveAll(old(nodeAllocations), order, id)
      ensures SetOf(order) <= allocations.Keys && Distinct(order)
      ensures refusedBy.None? ==> SetOf(order) == allocations.Keys
      ensures refusedBy.Some? ==> order != [] && refusedBy.value in allocations
    {
      hide ReserveOne, ReserveAll, SetOf, Distinct;
      ReserveAllOfNothing(nodeAllocations, id);
      var left := allocations.Keys;
      order := [];
      while left != {}
        invariant left <= allocations.Keys && SetOf(order) == allocations.Keys - left && Distinct(order)
        invariant (nodeAllocations, true) == ReserveAll(old(nodeAllocations), order, id)
        decreases |left|
      {
        var n :| n in left;
        OrderGrows(old(nodeAllocations), order, n, id);
        assert SetOf(order + [n]) == allocations.Keys - (left - {n});
        order := order + [n];
        var ok := ReserveOnNode(n, allocations[n], id);
        if !ok {
          return order, Some(n);
        }
        left := left - {n};
      }
      return order, None;
    }

    /** One round of the loop: `entry(n).or_insert_with(..)`, the limit check, the update. */
    method ReserveOnNode(n: NodeId, a: Amount, id: SessionId) returns (ok: bool)
      modifies this`nodeAllocations
      ensures (nodeAllocations, ok) == ReserveOne(old(nodeAllocations), n, a, id)
    {
      if n !in nodeAllocations {
        nodeAllocations := nodeAllocations[n := Nothing];
      }
      var entry := nodeAllocations[n];
      assert nodeAllocations == old(nodeAllocations)[n := Held(old(nodeAllocations), n)];
      if entry.amount.cpu + a.cpu > CPU_LIMIT {
        return false;
      }
      var updated := Allocation(Plus(entry.amount, a), entry.active + [id]);
      nodeAllocations := nodeAllocations[n := updated];
      assert nodeAllocations == old(nodeAllocations)[n := updated];
      return true;
    }

    method Schedule(id: SessionId, contextLength: nat) returns (r: Result<Session, Error>)
      requires Valid()
      modifies this
      ensures Valid()
      ensures r.Success? <==> Admits(cluster, contextLength) && Selected(cluster) != {} && old(Load()) <= 2
      ensures r.Success? ==> r.value == Session(id, SelectNodes(cluster), Allocations(Selected(cluster)))
      ensures !Admits(cluster, contextLength) ==> r == Failure(AdmissionRejected)
      ensures Admits(cluster, contextLength) && Selected(cluster) == {} ==> r == Failure(NoAvailableNodes)
      ensures Admits(cluster, contextLength) && Selected(cluster) != {} && old(Load()) == 3 ==>
                r.Failure? && r.error.InsufficientResources? && r.error.node in Selected(cluster)
      ensures r.Success? ==> sessions == old(sessions)[id := r.value]
                             && nodeAllocations == ReservedOn(old(nodeAllocations), Selected(cluster), id)
      ensures r.Failure? ==> sessions == old(sessions) && nodeAllocations == old(nodeAllocations)
                             && leaked == old(leaked)
      ensures Load() == old(Load()) + if r.Success? then 1 else 0
    {
      hide Loads, ReservedOn;
      if !Admits(cluster, contextLength) {
        return Failure(AdmissionRejected);
      }
      var selected := SelectNodes(cluster);
      if selected == [] {
        return Failure(NoAvailableNodes);
      }
      assert selected[0] in Selected(cluster);
      r := Book(id, selected);
    }

    /** The part of a schedule after the nodes are chosen: reserve, then store. */
    method Book(id: SessionId, selected: seq<NodeId>) returns (r: Result<Session, Error>)
      requires SetOf(selected) != {} && Loads(nodeAllocations, SetOf(selected), Load(), {}) && Load() <= 3
      modifies this
      ensures r.Success? <==> old(Load()) <= 2
      ensures r.Success? ==> r.value == Session(id, selected, Allocations(SetOf(selected)))
                             && sessions == old(sessions)[id := r.value]
      ensures r.Success? ==> nodeAllocations == ReservedOn(old(nodeAllocations), SetOf(selected), id)
      ensures r.Success? ==> Load() == old(Load()) + 1 && Loads(nodeAllocations, SetOf(selected), Load(), {})
      ensures r.Failure? ==> r.error.InsufficientResources? && r.error.node in SetOf(selected)
      ensures r.Failure? ==> sessions == old(sessions) && nodeAllocations == old(nodeAllocations)
                             && leaked == old(leaked)
    {
      hide Loads, ReservedOn, SetOf;
      var allocations := Allocations(SetOf(selected));
      assert allocations.Keys == SetOf(selected);
      var reserved := ReserveResources(id, allocations, Load());
      if reserved.Failure? {
        return Failure(reserved.error);
      }
      ReservedLoads(old(nodeAllocations), SetOf(selected), Load(), id);
      var session := Session(id, selected, allocations);
      Store(session);
      return Success(session);
    }

    method Store(session: Session)
      modifies this`sessions, this`leaked
      ensures sessions == old(sessions)[session.id := session] && Load() == old(Load()) + 1
    {
      ghost var keys := sessions.Keys;
      if session.id in sessions {
        leaked := leaked + 1;
      }
      sessions := sessions[session.id := session];
      assert sessions.Keys == keys + {session.id};
    }

    method ReleaseSession(id: SessionId) returns (r: Result<(), Error>)
      requires Valid()
      modifies this
      ensures Valid() && leaked == old(leaked)
      ensures r == if id in old(sessions) then Success(()) else Failure(SessionNotFound)
      ensures r.Success? ==> sessions == old(sessions) - {id}
                             && nodeAllocations == ReleasedOn(old(nodeAllocations), Selected(cluster), id)
      ensures r.Failure? ==> sessions == old(sessions) && nodeAllocations == old(nodeAllocations)
    {
      hide Loads, ReleasedOn, Selected;
      if id !in sessions {
        return Failure(SessionNotFound);
      }
      assert Load() >= 1 by {
        assert id in sessions.Keys;
      }
      ReleasedLoads(nodeAllocations, Selected(cluster), Load(), id);
      var session := Take(id);
      assert session.resources.Keys == Selected(cluster);
      ReleaseResources(id, session.resources);
      return Success(());
    }

    method Take(id: SessionId) returns (session: Session)
      requires id in sessions
      modifies this`sessions
      ensures session == old(sessions)[id] && sessions == old(sessions) - {id} && Load() == old(Load()) - 1
    {
      session := sessions[id];
      assert sessions.Keys == (sessions - {id}).Keys + {id};
      sessions := sessions - {id};
    }

    method ReleaseResources(id: SessionId, resources: map<NodeId, Amount>)
      requires resources == Allocations(resources.Keys)
      modifies this`nodeAllocations
      ensures nodeAllocations == ReleasedOn(old(nodeAllocations), resources.Keys, id)
    {
      var left := resources.Keys;
      ghost var done: set<NodeId> := {};
      ReservedOnNothing(nodeAllocations, id);
      while left != {}
        invariant done !! left && done + left == resources.Keys
        invariant nodeAllocations == ReleasedOn(old(nodeAllocations), done, id)
        decreases |left|
      {
        var n :| n in left;
        ReleasedOnMore(old(nodeAllocations), done, n, id);
        ReleaseOnNode(n, resources[n], id);
        left, done := left - {n}, done + {n};
      }
      assert done == resources.Keys;
    }

    method ReleaseOnNode(n: NodeId, a: Amount, id: SessionId)
      modifies this`nodeAllocations
      ensures nodeAllocations == ReleaseOne(old(nodeAllocations), n, a, id)
    {
      if n in nodeAllocations {
        var entry := nodeAllocations[n];
        entry := entry.(amount := Minus(entry.amount, a));
        entry := entry.(active := Others(entry.active, id));
        nodeAllocations := nodeAllocations[n := entry];
      }
    }

    method SumAllocations() returns (total: Amount)
      ensures total == Total(nodeAllocations)
    {
      total := Amount(0, 0, 0);
      var left := nodeAllocations;
      while left != map[]
        invariant left.Keys <= nodeAllocations.Keys && forall n :: n in left ==> left[n] == nodeAllocations[n]
        invariant Plus(total, Total(left)) == Total(nodeAllocations)
        decreases |left|
      {
        var n :| n in left;
        TotalWithout(left, n);
        total := Plus(total, nodeAllocations[n].amount);
        left := left - {n};
      }
    }

    method GetStats() returns (active: nat, total: Amount)
      requires Valid()
      ensures active == |sessions| && total == Times(Load() * |Selected(cluster)|)
    {
      active := |sessions|;
      total := SumAllocations();
      TotalOfEven(nodeAllocations, Selected(cluster), Load());
    }
  }
}
