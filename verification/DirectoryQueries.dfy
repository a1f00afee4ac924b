/** What the read-only calls report, and what a version number tells. */
module DirectoryQueries {
  import opened Wrappers
  import opened ClusterTypes
  import opened Sums
  import opened DirectoryModel
  import opened DirectoryIndex

  lemma {:induction false} LookupCounts(tensors: map<TensorId, Entry>, ids: seq<TensorId>, e: Entry)
    requires forall t :: t in tensors ==> tensors[t].tensorId == t
    ensures multiset(Lookup(tensors, ids))[e] ==
            if e.tensorId in tensors && tensors[e.tensorId] == e then multiset(ids)[e.tensorId] else 0
  {
    if ids != [] {
      LookupCounts(tensors, ids[..|ids| - 1], e);
      assert ids == ids[..|ids| - 1] + [ids[|ids| - 1]];
    }
  }

  /**
   Listing a node returns every tensor once for each placement it has there, which is
   what a scan of all entries would find.
   */
  lemma OnNodeIsAFullScan(h: seq<Event>, n: NodeId, e: Entry)
    requires RegistersFreshIds(h)
    ensures var d := Replay(h);
            multiset(Apply(d, OnNode(n)).1.entries)[e] ==
            if e.tensorId in d.tensors && d.tensors[e.tensorId] == e then multiset(Nodes(e.placements))[n] else 0
  {
    HistoryKeepsAgrees(h);
    HistoryKeepsCovers(h);
    var d := Replay(h);
    LookupCounts(d.tensors, Listed(d, n), e);
    assert Placed(d, e.tensorId, n) == Indexed(d, e.tensorId, n);
  }

  /** With re-registrations the list can only be longer: no placement is missed. */
  lemma OnNodeMissesNothing(h: seq<Event>, n: NodeId, t: TensorId)
    ensures var d := Replay(h);
            t in d.tensors ==>
              multiset(Apply(d, OnNode(n)).1.entries)[d.tensors[t]] >= multiset(Nodes(d.tensors[t].placements))[n]
  {
    HistoryKeepsCovers(h);
    var d := Replay(h);
    if t in d.tensors {
      LookupCounts(d.tensors, Listed(d, n), d.tensors[t]);
      assert Placed(d, t, n) <= Indexed(d, t, n);
    }
  }

  /** The nodes that hold at least one placement. */
  ghost predicate HoldsSomething(d: Directory, n: NodeId) {
    exists t :: t in d.tensors && n in Nodes(d.tensors[t].placements)
  }

  lemma NodesHoldSomething(d: Directory, n: NodeId)
    requires WellFormed(d) && Agrees(d)
    ensures n in d.index.Keys <==> HoldsSomething(d, n)
  {
    if n in d.index {
      var t := d.index[n][0];
      assert Indexed(d, t, n) > 0;
      assert Placed(d, t, n) == Indexed(d, t, n);
    }
    if t :| t in d.tensors && n in Nodes(d.tensors[t].placements) {
      assert Placed(d, t, n) == Indexed(d, t, n);
    }
  }

  lemma PlacementsWithout(left: map<TensorId, Entry>, t: TensorId)
    requires t in left
    ensures Sum(Lengths(NodeLists(left))) == |left[t].placements| + Sum(Lengths(NodeLists(left - {t})))
  {
    SumWithout(Lengths(NodeLists(left)), t);
    assert Lengths(NodeLists(left)) - {t} == Lengths(NodeLists(left - {t}));
  }

  lemma NoPlacements()
    ensures Sum(Lengths(NodeLists(map[]))) == 0
  {
    assert Lengths(NodeLists(map[])) == map[];
  }

  lemma PlacementsDoubleCount(d: Directory)
    requires Agrees(d)
    ensures Sum(Lengths(NodeLists(d.tensors))) == Sum(Lengths(d.index))
  {
    var lists := NodeLists(d.tensors);
    forall t, n
      ensures (if t in lists then multiset(lists[t])[n] else 0) == (if n in d.index then multiset(d.index[n])[t] else 0)
    {
      assert Placed(d, t, n) == Indexed(d, t, n);
    }
    DoubleCounting(lists, d.index);
  }

  /**
   The statistics of a directory without re-registrations: placements counted over the
   map equal index entries counted over the nodes, and the indexed nodes are exactly
   the ones that hold a placement.
   */
  lemma StatsDoubleCount(h: seq<Event>, stats: Stats)
    requires RegistersFreshIds(h) && Apply(Replay(h), GetStats).1 == StatsAre(stats)
    ensures stats.totalPlacements == Sum(Lengths(Replay(h).index))
    ensures stats.nodeCount == |set n | n in Replay(h).index.Keys && HoldsSomething(Replay(h), n)|
    ensures forall n :: HoldsSomething(Replay(h), n) ==> n in Replay(h).index.Keys
  {
    hide Replay, Apply, Agrees, WellFormed, Covers;
    HistoryKeepsAgrees(h);
    HistoryKeepsCovers(h);
    var d := Replay(h);
    StatsAreIndexed(d, stats);
    forall n ensures n in d.index.Keys <==> HoldsSomething(d, n) {
      NodesHoldSomething(d, n);
    }
    assert (set n | n in d.index.Keys && HoldsSomething(d, n)) == d.index.Keys;
  }

  lemma StatsAreIndexed(d: Directory, stats: Stats)
    requires Agrees(d) && Apply(d, GetStats).1 == StatsAre(stats)
    ensures stats.totalPlacements == Sum(Lengths(d.index)) && stats.nodeCount == |d.index.Keys|
  {
    hide Agrees;
    PlacementsDoubleCount(d);
  }

  // ----- versions -----

  lemma EvictRaisesVersion(d: Directory, n: NodeId, t: TensorId)
    requires WellFormed(d) && Covers(d)
    requires t in d.tensors && t in Apply(d, Evict(n)).0.tensors
    ensures var (e, e') := (d.tensors[t], Apply(d, Evict(n)).0.tensors[t]);
            e' == e || e.version < e'.version
  {
    EvictAllIs(d.tensors, n, Listed(d, n));
    assert EvictedTo(d.tensors, Apply(d, Evict(n)).0.tensors, n, Listed(d, n), t);
  }

  /** A call that neither drops nor re-registers `t` leaves its entry alone or raises its version. */
  lemma StepRaisesVersion(d: Directory, c: Call, t: TensorId)
    requires WellFormed(d) && Covers(d)
    requires t in d.tensors && t in Apply(d, c).0.tensors && !(c.Register? && c.id == t)
    ensures var (e, e') := (d.tensors[t], Apply(d, c).0.tensors[t]);
            e' == e || e.version < e'.version
  {
    if c.Evict? {
      EvictRaisesVersion(d, c.node, t);
    } else if TwoPart(d, c) {
      PartsAreSeparate(d, c);
      assert Apply(d, c).0.tensors == MapPart(d, c).tensors;
    } else {
      assert Apply(d, c).0 == d;
    }
  }

  /**
   While a tensor stays registered, its version never falls, and two moments with the
   same version have the same entry, hence the same placements.
   */
  lemma {:induction false} VersionNamesPlacements(h: seq<Event>, i: nat, j: nat, t: TensorId)
    requires i <= j <= |h|
    requires forall k :: i <= k <= j ==> t in Replay(h[..k]).tensors
    requires forall k :: i <= k < j ==> !(h[k].call.Register? && h[k].call.id == t)
    ensures var (e, e') := (Replay(h[..i]).tensors[t], Replay(h[..j]).tensors[t]);
            e.version <= e'.version && (e.version == e'.version ==> e == e')
    decreases j
  {
    hide Replay, Apply, WellFormed, Covers;
    if i < j {
      VersionNamesPlacements(h, i, j - 1, t);
      ReplayNext(h, j - 1);
      HistoryKeepsCovers(h[..j - 1]);
      StepRaisesVersion(Replay(h[..j - 1]), h[j - 1].call, t);
    }
  }

  /**
   Registering an id twice is enough to break exact agreement: the first node still
   lists the tensor although it holds no placement of it any more.
   */
  lemma ReRegistrationLeavesAStaleId()
    ensures var p1 := Placement(1, "cpu:0", 0, 8, Primary);
            var p2 := Placement(2, "cpu:0", 0, 8, Primary);
            var h := [Event(0, Register("t", [], "f32", p1, false, None), Acknowledged),
                      Event(1, Register("t", [], "f32", p2, false, None), Acknowledged)];
            var d := Replay(h);
            Placed(d, "t", 1) == 0 && Indexed(d, "t", 1) == 1 && !Agrees(d)
  {
    var p1 := Placement(1, "cpu:0", 0, 8, Primary);
    var p2 := Placement(2, "cpu:0", 0, 8, Primary);
    var e1 := Event(0, Register("t", [], "f32", p1, false, None), Acknowledged);
    var e2 := Event(1, Register("t", [], "f32", p2, false, None), Acknowledged);
    assert [e1, e2][..1] == [e1];
    var d1 := Apply(Empty, e1.call).0;
    assert Replay([e1]) == d1 by {
      assert [e1][..0] == [];
    }
    assert Listed(Empty, 1) + ["t"] == ["t"];
    var d := Replay([e1, e2]);
    assert d == Apply(d1, e2.call).0;
    assert d.index[1] == ["t"];
    assert Nodes(d.tensors["t"].placements) == [2];
    assert Placed(d, "t", 1) != Indexed(d, "t", 1);
  }

  // ----- calls against each other -----

  lemma {:induction false} WithoutAbsent(ids: seq<TensorId>, t: TensorId)
    requires t !in ids
    ensures Without(ids, t) == ids
  {
    if ids != [] {
      WithoutAbsent(ids[..|ids| - 1], t);
      assert ids == ids[..|ids| - 1] + [ids[|ids| - 1]];
    }
  }

  /** Removing a node right after adding the only placement on it undoes the addition, up to the version. */
  lemma RemoveUndoesAdd(d: Directory, id: TensorId, p: Placement)
    requires WellFormed(d) && id in d.tensors
    requires Placed(d, id, p.nodeId) == 0 && Indexed(d, id, p.nodeId) == 0
    ensures var d' := Apply(Apply(d, Add(id, p)).0, Remove(id, p.nodeId)).0;
            d' == Directory(d.tensors[id := d.tensors[id].(version := d.tensors[id].version + 2)], d.index)
  {
    hide OffNode, Without;
    var n, e := p.nodeId, d.tensors[id];
    PlacementUndone(e.placements, p);
    ListingUndone(Listed(d, n), id);
    var d1 := Apply(d, Add(id, p)).0;
    var added := e.(placements := e.placements + [p], version := e.version + 1);
    assert d1 == Directory(d.tensors[id := added], d.index[n := Listed(d, n) + [id]]);
    assert e.placements != [];
    assert Apply(d1, Remove(id, n)).0.index == d.index;
  }

  lemma PlacementUndone(ps: seq<Placement>, p: Placement)
    requires multiset(Nodes(ps))[p.nodeId] == 0
    ensures OffNode(ps + [p], p.nodeId) == ps
  {
    forall q | q in ps ensures q.nodeId != p.nodeId {
      ListedIsCounted(ps, p.nodeId);
    }
    OffNodeOfOff(ps, p.nodeId);
    assert (ps + [p])[..|ps|] == ps;
  }

  lemma ListingUndone(ids: seq<TensorId>, id: TensorId)
    requires multiset(ids)[id] == 0
    ensures Without(ids + [id], id) == ids
  {
    WithoutAbsent(ids, id);
    assert (ids + [id])[..|ids|] == ids;
  }

  /** The check of a transfer finds the first placement on the source and prepares a replica of it. */
  lemma {:induction false} FirstOnIs(ps: seq<Placement>, n: NodeId)
    ensures match FirstOn(ps, n)
            case None => forall p :: p in ps ==> p.nodeId != n
            case Some(p) => exists i :: 0 <= i < |ps| && ps[i] == p && p.nodeId == n && n !in Nodes(ps[..i])
  {
    if ps != [] && ps[0].nodeId != n {
      FirstOnIs(ps[1..], n);
      if FirstOn(ps, n).Some? {
        var p := FirstOn(ps, n).value;
        var i :| 0 <= i < |ps[1..]| && ps[1..][i] == p && n !in Nodes(ps[1..][..i]);
        assert Nodes(ps[..i + 1]) == [ps[0].nodeId] + Nodes(ps[1..][..i]);
        assert ps[i + 1] == p;
      }
    } else if ps != [] {
      assert ps[0].nodeId == n && Nodes(ps[..0]) == [];
    }
  }

  /**
   A transfer that succeeds leaves every placement of the tensor in place and adds one
   replica on the destination, on the device of the first placement on the source.
   */
  lemma TransferAddsAReplica(d: Directory, id: TensorId, from: NodeId, to: NodeId, length: nat, replica: Placement)
    requires Apply(d, Check(id, from, to, length)).1 == Checked(replica)
    ensures id in d.tensors
    ensures exists i :: 0 <= i < |d.tensors[id].placements|
                        && d.tensors[id].placements[i].nodeId == from
                        && from !in Nodes(d.tensors[id].placements[..i])
                        && replica == Placement(to, d.tensors[id].placements[i].device, 0, length, Replica)
    ensures var d' := Apply(d, Add(id, replica)).0;
            && d'.tensors[id].placements == d.tensors[id].placements + [replica]
            && Indexed(d', id, to) == Indexed(d, id, to) + 1
  {
    FirstOnIs(d.tensors[id].placements, from);
    TwoPartCounts(d, Add(id, replica), id, to);
    PartsAreSeparate(d, Add(id, replica));
  }
}
