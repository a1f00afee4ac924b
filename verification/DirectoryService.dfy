/**
 The tensor directory in its own form: two maps updated in place. Each method is one
 service call running alone; `DirectoryLocks` shows that overlapping calls behave as
 if they did.
 */
module DirectoryService {
  import opened Wrappers
  import opened ClusterTypes
  import opened Selections
  import opened Sums
  import opened DirectoryModel
  import opened DirectoryIndex
  import opened DirectoryQueries

  datatype Error = NoSuchTensor | NoSuchSource

  lemma OneMoreDone(wanted: set<TensorId>, left: set<TensorId>, t: TensorId)
    requires t in left
    ensures |wanted - (left - {t})| == |wanted - left| + if t in wanted then 1 else 0
  {
    assert wanted - (left - {t}) == if t in wanted then (wanted - left) + {t} else wanted - left;
  }

  class TensorDirectory {
    var tensors: map<TensorId, Entry>
    var nodeTensors: map<NodeId, seq<TensorId>>

    ghost function State(): Directory
      reads this
    {
      Directory(tensors, nodeTensors)
    }

    /** The index covers the placements: what every method keeps. */
    ghost predicate Valid()
      reads this
    {
      WellFormed(State()) && Covers(State())
    }

    constructor ()
      ensures Valid() && State() == Empty
    {
      tensors, nodeTensors := map[], map[];
    }

    method RegisterTensor(id: TensorId, shape: seq<nat>, dtype: string, placement: Placement,
                          mutable: bool, owner: Option<SessionId>)
      requires Valid()
      modifies this
      ensures Valid() && State() == Apply(old(State()), Register(id, shape, dtype, placement, mutable, owner)).0
      ensures old(Agrees(State())) && id !in old(tensors) ==> Agrees(State())
    {
      ghost var call := Register(id, shape, dtype, placement, mutable, owner);
      ApplyKeepsCovers(State(), call);
      if Agrees(State()) {
        ApplyKeepsAgreesIff(State(), call);
      }
      tensors := tensors[id := Entry(id, shape, dtype, [placement], 1, mutable, owner)];
      PushToIndex(placement.nodeId, id);
    }

    /** `node_tensors.entry(n).or_insert_with(Vec::new).push(id)` */
    method PushToIndex(n: NodeId, id: TensorId)
      modifies this`nodeTensors
      ensures nodeTensors == old(nodeTensors)[n := old(Listed(State(), n)) + [id]]
    {
      if n !in nodeTensors {
        nodeTensors := nodeTensors[n := []];
      }
      nodeTensors := nodeTensors[n := nodeTensors[n] + [id]];
    }

    method AddPlacement(id: TensorId, placement: Placement) returns (r: Result<(), Error>)
      requires Valid()
      modifies this
      ensures Valid() && State() == Apply(old(State()), Add(id, placement)).0
      ensures r == if id in old(tensors) then Success(()) else Failure(NoSuchTensor)
      ensures old(Agrees(State())) ==> Agrees(State())
    {
      hide WellFormed, Covers, Agrees;
      ApplyKeepsCovers(State(), Add(id, placement));
      if Agrees(State()) {
        ApplyKeepsAgreesIff(State(), Add(id, placement));
      }
      if id !in tensors {
        return Failure(NoSuchTensor);
      }
      var entry := tensors[id];
      entry := entry.(placements := entry.placements + [placement]);
      entry := entry.(version := entry.version + 1);
      tensors := tensors[id := entry];
      PushToIndex(placement.nodeId, id);
      return Success(());
    }

    method RemovePlacement(id: TensorId, node: NodeId) returns (r: Result<(), Error>)
      requires Valid()
      modifies this
      ensures Valid() && State() == Apply(old(State()), Remove(id, node)).0
      ensures id in old(tensors) && id in tensors ==>
                Keeps(old(tensors)[id].placements, tensors[id].placements, (p: Placement) => p.nodeId != node)
      ensures r == if id in old(tensors) then Success(()) else Failure(NoSuchTensor)
      ensures old(Agrees(State())) ==> Agrees(State())
    {
      hide WellFormed, Covers, Agrees, OffNode, Without, Keeps;
      ApplyKeepsCovers(State(), Remove(id, node));
      if Agrees(State()) {
        ApplyKeepsAgreesIff(State(), Remove(id, node));
      }
      if id !in tensors {
        return Failure(NoSuchTensor);
      }
      OffNodeKeeps(tensors[id].placements, node);
      var entry := tensors[id].(placements := OffNode(tensors[id].placements, node));
      if entry.placements == [] {
        tensors := tensors - {id};
      } else {
        tensors := tensors[id := entry.(version := entry.version + 1)];
      }
      assert tensors == MapPart(old(State()), Remove(id, node)).tensors;
      if node in nodeTensors {
        nodeTensors := nodeTensors[node := Without(nodeTensors[node], id)];
        if nodeTensors[node] == [] {
          nodeTensors := nodeTensors - {node};
          assert nodeTensors == old(nodeTensors) - {node};
        }
      }
      assert State() == IndexPart(MapPart(old(State()), Remove(id, node)), Remove(id, node));
      return Success(());
    }

    method EvictFromNode(node: NodeId) returns (evicted: seq<TensorId>)
      requires Valid()
      modifies this
      ensures Valid() && (State(), Response.Evicted(evicted)) == Apply(old(State()), Evict(node))
      ensures forall t :: t in evicted <==>
                t in old(tensors) && forall p :: p in old(tensors)[t].placements ==> p.nodeId == node
      ensures forall t :: t in tensors ==>
                t in old(tensors)
                && Keeps(old(tensors)[t].placements, tensors[t].placements, (p: Placement) => p.nodeId != node)
      ensures old(Agrees(State())) ==> Agrees(State())
    {
      hide Keeps;
      ApplyKeepsCovers(State(), Evict(node));
      EvictIsExact(State(), node);
      if Agrees(State()) {
        ApplyKeepsAgreesIff(State(), Evict(node));
      }
      var ids := if node in nodeTensors then nodeTensors[node] else [];
      nodeTensors := nodeTensors - {node};
      evicted := EvictListed(node, ids);
    }

    /** The loop of an eviction: `ids` is the list that was taken out of the index. */
    method EvictListed(node: NodeId, ids: seq<TensorId>) returns (evicted: seq<TensorId>)
      modifies this`tensors
      ensures (tensors, evicted) == EvictAll(old(tensors), node, ids)
    {
      evicted := [];
      for k := 0 to |ids|
        invariant EvictAll(old(tensors), node, ids[..k]) == (tensors, evicted)
      {
        assert ids[..k + 1][..k] == ids[..k];
        var t := ids[k];
        ghost var before := tensors;
        if t in tensors {
          var entry := tensors[t];
          entry := entry.(placements := OffNode(entry.placements, node));
          entry := entry.(version := entry.version + 1);
          tensors := tensors[t := entry];
          if entry.placements == [] {
            tensors := tensors - {t};
            assert tensors == before - {t};
            evicted := evicted + [t];
          }
        }
        assert tensors == EvictOne(before, node, t).0;
      }
      assert ids[..|ids|] == ids;
    }

    method GetTensorsOnNode(node: NodeId) returns (entries: seq<Entry>)
      ensures Apply(State(), OnNode(node)) == (State(), Entries(entries))
    {
      entries := [];
      if node in nodeTensors {
        var ids := nodeTensors[node];
        for k := 0 to |ids|
          invariant entries == Lookup(tensors, ids[..k])
        {
          assert ids[..k + 1][..k] == ids[..k];
          if ids[k] in tensors {
            entries := entries + [tensors[ids[k]]];
          }
        }
        assert ids[..|ids|] == ids;
      }
    }

    method CountPlacements() returns (total: nat)
      ensures total == Sum(Lengths(NodeLists(tensors)))
    {
      total := 0;
      hide NodeLists, Lengths;
      var left := tensors;
      while left != map[]
        invariant left.Keys <= tensors.Keys && forall t :: t in left ==> left[t] == tensors[t]
        invariant total + Sum(Lengths(NodeLists(left))) == Sum(Lengths(NodeLists(tensors)))
        decreases |left|
      {
        var t :| t in left;
        PlacementsWithout(left, t);
        total := total + |tensors[t].placements|;
        left := left - {t};
      }
      NoPlacements();
    }

    method CountMutable() returns (count: nat)
      ensures count == |set t | t in tensors && tensors[t].mutable|
    {
      count := 0;
      var left := tensors.Keys;
      ghost var mutables := set t | t in tensors && tensors[t].mutable;
      assert mutables - left == {};
      while left != {}
        invariant left <= tensors.Keys
        invariant count == |mutables - left|
        decreases |left|
      {
        var t :| t in left;
        OneMoreDone(mutables, left, t);
        if tensors[t].mutable {
          count := count + 1;
        }
        left := left - {t};
      }
      assert mutables - {} == mutables;
    }

    method GetStats() returns (stats: Stats)
      ensures Apply(State(), Call.GetStats) == (State(), StatsAre(stats))
    {
      var placements := CountPlacements();
      var mutableCount := CountMutable();
      stats := Stats(|tensors|, placements, mutableCount, |nodeTensors|);
    }

    /** A check under the read lock, then an addition: two calls, not one. */
    method TransferTensor(id: TensorId, from: NodeId, to: NodeId, length: nat) returns (r: Result<(), Error>)
      requires Valid()
      modifies this
      ensures Valid()
      ensures match Apply(old(State()), Check(id, from, to, length)).1
              case Checked(p) => r == Success(()) && State() == Apply(old(State()), Add(id, p)).0
              case NotOnSource => r == Failure(NoSuchSource) && State() == old(State())
              case _ => r == Failure(NoSuchTensor) && State() == old(State())
    {
      if id !in tensors {
        return Failure(NoSuchTensor);
      }
      var source := FirstOn(tensors[id].placements, from);
      if source.None? {
        return Failure(NoSuchSource);
      }
      r := AddPlacement(id, Placement(to, source.value.device, 0, length, Replica));
    }
  }
}
