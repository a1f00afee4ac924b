/**
 What every call keeps: the index covers the placements in every run, agrees with
 them exactly when no registered id is registered again, and the eviction loop
 drops precisely the tensors that lived on the evicted node alone.
 */
module DirectoryIndex {
  import opened Wrappers
  import opened ClusterTypes
  import opened Selections
  import opened DirectoryModel

  /** How many placements tensor `t` has on node `n`. */
  ghost function Placed(d: Directory, t: TensorId, n: NodeId): nat {
    if t in d.tensors then multiset(Nodes(d.tensors[t].placements))[n] else 0
  }

  /** How often the index lists `t` for node `n`. */
  ghost function Indexed(d: Directory, t: TensorId, n: NodeId): nat {
    multiset(Listed(d, n))[t]
  }

  ghost predicate WellFormed(d: Directory) {
    && (forall t :: t in d.tensors ==> d.tensors[t].tensorId == t && d.tensors[t].placements != [])
    && (forall n :: n in d.index ==> d.index[n] != [])
  }

  /** Holds in every run. */
  ghost predicate Covers(d: Directory) {
    forall t, n :: Placed(d, t, n) <= Indexed(d, t, n)
  }

  /** Holds in runs without re-registration. */
  ghost predicate Agrees(d: Directory) {
    forall t, n :: Placed(d, t, n) == Indexed(d, t, n)
  }

  // ----- lists -----

  lemma NodesAppend(ps: seq<Placement>, p: Placement)
    ensures multiset(Nodes(ps + [p])) == multiset(Nodes(ps))[p.nodeId := multiset(Nodes(ps))[p.nodeId] + 1]
  {
    assert Nodes(ps + [p]) == Nodes(ps) + [p.nodeId];
  }

  lemma {:induction false} OffNodeCounts(ps: seq<Placement>, n: NodeId)
    ensures multiset(Nodes(OffNode(ps, n))) == multiset(Nodes(ps))[n := 0]
  {
    if ps == [] {
      assert Nodes(ps) == [];
    } else {
      var front, last := ps[..|ps| - 1], ps[|ps| - 1];
      OffNodeCounts(front, n);
      NodesAppend(front, last);
      assert ps == front + [last];
      NodesAppend(OffNode(front, n), last);
    }
  }

  /** The placements off the node, in their order, and nothing else. */
  lemma {:induction false} OffNodeKeeps(ps: seq<Placement>, n: NodeId)
    ensures Keeps(ps, OffNode(ps, n), (p: Placement) => p.nodeId != n)
  {
    hide Keeps;
    if ps == [] {
      KeepsNothing((p: Placement) => p.nodeId != n);
    } else {
      OffNodeKeeps(ps[..|ps| - 1], n);
      KeepsOneMore(ps[..|ps| - 1], OffNode(ps[..|ps| - 1], n), (p: Placement) => p.nodeId != n, ps[|ps| - 1]);
      assert ps == ps[..|ps| - 1] + [ps[|ps| - 1]];
    }
  }

  /** The other ids of a list, in their order. */
  lemma {:induction false} WithoutKeeps(ids: seq<TensorId>, t: TensorId)
    ensures Keeps(ids, Without(ids, t), (x: TensorId) => x != t)
  {
    hide Keeps;
    if ids == [] {
      KeepsNothing((x: TensorId) => x != t);
    } else {
      WithoutKeeps(ids[..|ids| - 1], t);
      KeepsOneMore(ids[..|ids| - 1], Without(ids[..|ids| - 1], t), (x: TensorId) => x != t, ids[|ids| - 1]);
      assert ids == ids[..|ids| - 1] + [ids[|ids| - 1]];
    }
  }

  lemma {:induction false} WithoutCounts(ids: seq<TensorId>, t: TensorId)
    ensures multiset(Without(ids, t)) == multiset(ids)[t := 0]
  {
    if ids != [] {
      WithoutCounts(ids[..|ids| - 1], t);
      assert ids == ids[..|ids| - 1] + [ids[|ids| - 1]];
    }
  }

  lemma ListedIsCounted(ps: seq<Placement>, n: NodeId)
    ensures multiset(Nodes(ps))[n] > 0 <==> exists p :: p in ps && p.nodeId == n
  {
    if n in Nodes(ps) {
      var i :| 0 <= i < |Nodes(ps)| && Nodes(ps)[i] == n;
      assert ps[i] in ps;
    }
    if p :| p in ps && p.nodeId == n {
      var i :| 0 <= i < |ps| && ps[i] == p;
      assert Nodes(ps)[i] == n;
    }
  }

  lemma {:induction false} OffNodeElements(ps: seq<Placement>, n: NodeId)
    ensures forall p :: p in OffNode(ps, n) <==> p in ps && p.nodeId != n
  {
    if ps != [] {
      OffNodeElements(ps[..|ps| - 1], n);
      assert ps == ps[..|ps| - 1] + [ps[|ps| - 1]];
    }
  }

  lemma {:induction false} OffNodeOfOff(ps: seq<Placement>, n: NodeId)
    requires forall p :: p in ps ==> p.nodeId != n
    ensures OffNode(ps, n) == ps
  {
    if ps != [] {
      assert ps == ps[..|ps| - 1] + [ps[|ps| - 1]];
      OffNodeOfOff(ps[..|ps| - 1], n);
    }
  }

  // ----- eviction -----

  /** What the loop has done to tensor `t` after going through `ids`. */
  ghost predicate EvictedTo(before: map<TensorId, Entry>, after: map<TensorId, Entry>,
                            n: NodeId, ids: seq<TensorId>, t: TensorId) {
    if t !in before then t !in after
    else if t !in ids then t in after && after[t] == before[t]
    else
      var kept := OffNode(before[t].placements, n);
      if kept == [] then t !in after
      else t in after && after[t] == before[t].(placements := kept, version := before[t].version + multiset(ids)[t])
  }

  lemma {:induction false} EvictAllIs(before: map<TensorId, Entry>, n: NodeId, ids: seq<TensorId>)
    ensures var (after, evicted) := EvictAll(before, n, ids);
            && (forall t :: EvictedTo(before, after, n, ids, t))
            && (forall t :: t in evicted <==> t in ids && t in before && OffNode(before[t].placements, n) == [])
            && (forall i, j :: 0 <= i < j < |evicted| ==> evicted[i] != evicted[j])
  {
    hide OffNode;
    if ids != [] {
      var front, last := ids[..|ids| - 1], ids[|ids| - 1];
      assert ids == front + [last];
      EvictAllIs(before, n, front);
      var (mid, evictedSoFar) := EvictAll(before, n, front);
      assert EvictedTo(before, mid, n, front, last);
      var (after, evicted) := EvictAll(before, n, ids);
      if last in mid && last in front {
        OffNodeElements(before[last].placements, n);
        OffNodeOfOff(mid[last].placements, n);
      }
      forall t ensures EvictedTo(before, after, n, ids, t) {
        assert EvictedTo(before, mid, n, front, t);
      }
    }
  }

  /**
   Evicting a node returns, each once, exactly the tensors that had all their placements
   on it, whatever repeats or stale ids the index held; every other tensor keeps its
   placements off the node, in order.
   */
  lemma EvictIsExact(d: Directory, n: NodeId)
    requires WellFormed(d) && Covers(d)
    ensures var (d', r) := Apply(d, Evict(n));
            && r.Evicted?
            && (forall t :: t in r.ids <==>
                  t in d.tensors && forall p :: p in d.tensors[t].placements ==> p.nodeId == n)
            && (forall i, j :: 0 <= i < j < |r.ids| ==> r.ids[i] != r.ids[j])
            && (forall t :: t in d'.tensors <==> t in d.tensors && t !in r.ids)
            && (forall t :: t in d'.tensors ==>
                  d'.tensors[t] == d.tensors[t].(
                    placements := OffNode(d.tensors[t].placements, n),
                    version := d.tensors[t].version + Indexed(d, t, n)))
            && (forall t :: t in d'.tensors ==>
                  Keeps(d.tensors[t].placements, d'.tensors[t].placements, (p: Placement) => p.nodeId != n))
            && d'.index == d.index - {n}
  {
    hide Keeps;
    var ids := Listed(d, n);
    EvictAllIs(d.tensors, n, ids);
    var (d', r) := Apply(d, Evict(n));
    forall t | t in d.tensors
      ensures t !in ids ==> OffNode(d.tensors[t].placements, n) == d.tensors[t].placements
      ensures OffNode(d.tensors[t].placements, n) == [] <==> forall p :: p in d.tensors[t].placements ==> p.nodeId == n
    {
      var ps := d.tensors[t].placements;
      OffNodeElements(ps, n);
      ListedIsCounted(ps, n);
      assert Placed(d, t, n) <= Indexed(d, t, n);
      if t !in ids {
        OffNodeOfOff(ps, n);
      }
      if OffNode(ps, n) != [] {
        assert OffNode(ps, n)[0] in OffNode(ps, n);
      }
    }
    forall t
      ensures t in r.ids <==> t in d.tensors && forall p :: p in d.tensors[t].placements ==> p.nodeId == n
      ensures t in d'.tensors <==> t in d.tensors && t !in r.ids
      ensures t in d'.tensors ==> d'.tensors[t] == d.tensors[t].(
                                                  placements := OffNode(d.tensors[t].placements, n),
                                                  version := d.tensors[t].version + Indexed(d, t, n))
    {
      assert EvictedTo(d.tensors, d'.tensors, n, ids, t);
    }
    forall t | t in d'.tensors
      ensures Keeps(d.tensors[t].placements, d'.tensors[t].placements, (p: Placement) => p.nodeId != n)
    {
      OffNodeKeeps(d.tensors[t].placements, n);
    }
  }

  // ----- the invariants -----

  /** Register, add and remove that find their tensor. */
  ghost predicate TwoPart(d: Directory, c: Call) {
    c.Register? || ((c.Add? || c.Remove?) && c.id in d.tensors)
  }

  ghost function PlacedAfter(d: Directory, c: Call, t: TensorId, n: NodeId): nat
    requires TwoPart(d, c)
  {
    if c.Remove? then if t == c.id && n == c.node then 0 else Placed(d, t, n)
    else (if c.Register? && t == c.id then 0 else Placed(d, t, n))
         + if t == c.id && n == c.placement.nodeId then 1 else 0
  }

  ghost function IndexedAfter(d: Directory, c: Call, t: TensorId, n: NodeId): nat
    requires TwoPart(d, c)
  {
    if c.Remove? then if t == c.id && n == c.node then 0 else Indexed(d, t, n)
    else Indexed(d, t, n) + if t == c.id && n == c.placement.nodeId then 1 else 0
  }

  lemma MapPartCounts(d: Directory, c: Call, t: TensorId, n: NodeId)
    requires TwoPart(d, c)
    ensures Placed(MapPart(d, c), t, n) == PlacedAfter(d, c, t, n)
  {
    if t == c.id {
      if c.Remove? {
        var ps := d.tensors[t].placements;
        OffNodeCounts(ps, c.node);
        if OffNode(ps, c.node) == [] {
          assert Nodes([]) == [];
          assert multiset(Nodes(ps))[c.node := 0][n] == 0;
        }
      } else {
        var prior := if c.Add? then d.tensors[t].placements else [];
        assert Nodes([]) == [];
        NodesAppend(prior, c.placement);
        assert MapPart(d, c).tensors[t].placements == prior + [c.placement];
      }
    }
  }

  lemma IndexPartLists(d: Directory, c: Call, n: NodeId)
    requires c.Register? || c.Add? || c.Remove?
    ensures Listed(IndexPart(d, c), n) ==
            if c.Remove? then if n == c.node then Without(Listed(d, n), c.id) else Listed(d, n)
            else Listed(d, n) + if n == c.placement.nodeId then [c.id] else []
  {
  }

  lemma IndexPartCounts(d: Directory, c: Call, t: TensorId, n: NodeId)
    requires c.Register? || c.Add? || c.Remove?
    ensures Indexed(IndexPart(d, c), t, n) ==
            if c.Remove? then if t == c.id && n == c.node then 0 else Indexed(d, t, n)
            else Indexed(d, t, n) + if t == c.id && n == c.placement.nodeId then 1 else 0
  {
    IndexPartLists(d, c, n);
    if c.Remove? {
      WithoutCounts(Listed(d, n), c.id);
    }
  }

  lemma TwoPartCounts(d: Directory, c: Call, t: TensorId, n: NodeId)
    requires TwoPart(d, c)
    ensures Placed(Apply(d, c).0, t, n) == PlacedAfter(d, c, t, n)
    ensures Indexed(Apply(d, c).0, t, n) == IndexedAfter(d, c, t, n)
  {
    var m := MapPart(d, c);
    var d' := IndexPart(m, c);
    MapPartCounts(d, c, t, n);
    IndexPartCounts(m, c, t, n);
    PartsAreSeparate(d, c);
    assert Indexed(m, t, n) == Indexed(d, t, n);
    assert Placed(d', t, n) == Placed(m, t, n);
    assert Apply(d, c).0 == d';
  }

  lemma PartsAreSeparate(d: Directory, c: Call)
    requires TwoPart(d, c)
    ensures MapPart(d, c).index == d.index
    ensures IndexPart(MapPart(d, c), c).tensors == MapPart(d, c).tensors
  {
  }

  lemma TwoPartWellFormed(d: Directory, c: Call)
    requires WellFormed(d) && TwoPart(d, c)
    ensures WellFormed(Apply(d, c).0)
  {
    assert WellFormed(MapPart(d, c));
  }

  lemma EvictCounts(d: Directory, node: NodeId)
    requires WellFormed(d) && Covers(d)
    ensures var d' := Apply(d, Evict(node)).0;
            && WellFormed(d')
            && (forall t, n :: Indexed(d', t, n) == if n == node then 0 else Indexed(d, t, n))
            && (forall t, n :: Placed(d', t, n) == if n == node then 0 else Placed(d, t, n))
  {
    EvictIsExact(d, node);
    var (d', r) := Apply(d, Evict(node));
    forall t, n ensures Placed(d', t, n) == if n == node then 0 else Placed(d, t, n) {
      if t in d.tensors {
        OffNodeCounts(d.tensors[t].placements, node);
        ListedIsCounted(d.tensors[t].placements, n);
      }
    }
    forall t | t in d'.tensors ensures d'.tensors[t].tensorId == t && d'.tensors[t].placements != [] {
      OffNodeElements(d.tensors[t].placements, node);
    }
  }

  /** No call ever makes the index lose a placement. */
  lemma ApplyKeepsCovers(d: Directory, c: Call)
    requires WellFormed(d) && Covers(d)
    ensures WellFormed(Apply(d, c).0) && Covers(Apply(d, c).0)
  {
    if TwoPart(d, c) {
      TwoPartWellFormed(d, c);
      forall t, n ensures Placed(Apply(d, c).0, t, n) <= Indexed(Apply(d, c).0, t, n) {
        TwoPartCounts(d, c, t, n);
        assert Placed(d, t, n) <= Indexed(d, t, n);
      }
    } else if c.Evict? {
      EvictCounts(d, c.node);
    }
  }

  lemma AgreesCovers(d: Directory)
    requires Agrees(d)
    ensures Covers(d)
  {
    forall t, n ensures Placed(d, t, n) <= Indexed(d, t, n) {
      assert Placed(d, t, n) == Indexed(d, t, n);
    }
  }

  /**
   A call keeps exact agreement if and only if it does not register an id that is
   already there.
   */
  lemma ApplyKeepsAgreesIff(d: Directory, c: Call)
    requires WellFormed(d) && Agrees(d)
    ensures Agrees(Apply(d, c).0) <==> !(c.Register? && c.id in d.tensors)
  {
    hide Indexed, MapPart, IndexPart, EvictAll, WellFormed;
    AgreesCovers(d);
    var d' := Apply(d, c).0;
    if c.Register? && c.id in d.tensors {
      var n := ReRegisteringDiffers(d, c);
    } else if TwoPart(d, c) {
      forall t, n ensures Placed(d', t, n) == Indexed(d', t, n) {
        TwoPartCounts(d, c, t, n);
        assert Placed(d, t, n) == Indexed(d, t, n);
      }
    } else if c.Evict? {
      EvictCounts(d, c.node);
      forall t, n ensures Placed(d', t, n) == Indexed(d', t, n) {
        assert Placed(d, t, n) == Indexed(d, t, n);
      }
    }
  }

  /** Re-registering a tensor counts it once too often on the node of its first placement. */
  lemma ReRegisteringDiffers(d: Directory, c: Call) returns (n: NodeId)
    requires WellFormed(d) && Agrees(d) && c.Register? && c.id in d.tensors
    ensures Placed(Apply(d, c).0, c.id, n) != Indexed(Apply(d, c).0, c.id, n)
  {
    hide MapPart, IndexPart;
    var ps := d.tensors[c.id].placements;
    n := ps[0].nodeId;
    ListedIsCounted(ps, n);
    TwoPartCounts(d, c, c.id, n);
    assert Placed(d, c.id, n) == Indexed(d, c.id, n);
  }

  // ----- whole histories -----

  /** No event of the history registers an id that is present at that moment. */
  ghost predicate RegistersFreshIds(h: seq<Event>) {
    forall i :: 0 <= i < |h| && h[i].call.Register? ==> h[i].call.id !in Replay(h[..i]).tensors
  }

  lemma {:induction false} HistoryKeepsCovers(h: seq<Event>)
    ensures WellFormed(Replay(h)) && Covers(Replay(h))
  {
    if h != [] {
      HistoryKeepsCovers(h[..|h| - 1]);
      ApplyKeepsCovers(Replay(h[..|h| - 1]), h[|h| - 1].call);
    }
  }

  lemma {:induction false} HistoryKeepsAgrees(h: seq<Event>)
    requires RegistersFreshIds(h)
    ensures Agrees(Replay(h))
  {
    if h != [] {
      var front := h[..|h| - 1];
      assert forall i :: 0 <= i <= |front| ==> front[..i] == h[..i];
      HistoryKeepsAgrees(front);
      HistoryKeepsCovers(front);
      ApplyKeepsAgreesIff(Replay(front), h[|h| - 1].call);
    }
  }

  /** The index agrees after every call of a history if and only if every registered id was new. */
  lemma AgreesThroughoutIff(h: seq<Event>)
    ensures (forall i :: 0 <= i <= |h| ==> Agrees(Replay(h[..i]))) <==> RegistersFreshIds(h)
  {
    hide Agrees, Replay;
    if RegistersFreshIds(h) {
      forall i | 0 <= i <= |h| ensures Agrees(Replay(h[..i])) {
        assert forall j :: 0 <= j < i ==> h[..i][..j] == h[..j];
        HistoryKeepsAgrees(h[..i]);
      }
    }
    if forall i :: 0 <= i <= |h| ==> Agrees(Replay(h[..i])) {
      forall i | 0 <= i < |h| && h[i].call.Register? ensures h[i].call.id !in Replay(h[..i]).tensors {
        assert Agrees(Replay(h[..i])) && Agrees(Replay(h[..i + 1]));
        ReplayNext(h, i);
        HistoryKeepsCovers(h[..i]);
        ApplyKeepsAgreesIff(Replay(h[..i]), h[i].call);
      }
    }
  }

  lemma ReplayNext(h: seq<Event>, i: nat)
    requires i < |h|
    ensures Replay(h[..i + 1]) == Apply(Replay(h[..i]), h[i].call).0
  {
    assert h[..i + 1][..i] == h[..i];
  }
}
