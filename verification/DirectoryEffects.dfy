/**
 What each call of the directory leaves behind, field by field: the entry it writes, the
 index list it changes, its reply, and that everything else stays.
 */
module DirectoryEffects {
  import opened Wrappers
  import opened ClusterTypes
  import opened Selections
  import opened DirectoryModel
  import opened DirectoryIndex
  import opened DirectoryQueries
  import Sums

  /** Of the entries only that of `t` may differ, of the index lists only that of `n`. */
  ghost predicate OnlyChanges(d: Directory, d': Directory, t: TensorId, n: NodeId) {
    && (forall x :: x != t ==> (x in d'.tensors <==> x in d.tensors))
    && (forall x :: x in d.tensors && x != t ==> x in d'.tensors && d'.tensors[x] == d.tensors[x])
    && (forall x :: x != n ==> (x in d'.index <==> x in d.index))
    && (forall x :: x in d.index && x != n ==> x in d'.index && d'.index[x] == d.index[x])
  }

  /** The list of node `n` has `t` appended, and is new if the node had none. */
  ghost predicate ListsOneMore(d: Directory, d': Directory, t: TensorId, n: NodeId) {
    && n in d'.index
    && d'.index[n] == if n in d.index then d.index[n] + [t] else [t]
  }

  /** A registered tensor has the one placement and version one, whatever was stored under its id. */
  lemma RegisterStores(d: Directory, c: Call)
    requires c.Register?
    ensures var (d', r) := Apply(d, c);
            && r == Acknowledged && c.id in d'.tensors
            && var e := d'.tensors[c.id];
               && e.tensorId == c.id && e.shape == c.shape && e.dtype == c.dtype && e.placements == [c.placement]
               && e.version == 1 && e.mutable == c.mutable && e.owner == c.owner
               && OnlyChanges(d, d', c.id, c.placement.nodeId) && ListsOneMore(d, d', c.id, c.placement.nodeId)
  {
  }

  /** An added placement is the last one, and the version goes up by one. */
  lemma AddAppends(d: Directory, id: TensorId, p: Placement)
    ensures var (d', r) := Apply(d, Add(id, p));
            if id !in d.tensors then d' == d && r == TensorNotFound
            else
              && r == Acknowledged && id in d'.tensors
              && var e, e' := d.tensors[id], d'.tensors[id];
                 && e'.placements == e.placements + [p] && e'.version == e.version + 1
                 && e'.tensorId == e.tensorId && e'.shape == e.shape && e'.dtype == e.dtype
                 && e'.mutable == e.mutable && e'.owner == e.owner
                 && OnlyChanges(d, d', id, p.nodeId) && ListsOneMore(d, d', id, p.nodeId)
  {
  }

  /** What is left of an entry: its placements off the node, in order, with the version raised by one. */
  ghost predicate LosesNode(d: Directory, d': Directory, id: TensorId, n: NodeId)
    requires id in d.tensors
  {
    var e := d.tensors[id];
    if forall p :: p in e.placements ==> p.nodeId == n then id !in d'.tensors
    else
      && id in d'.tensors
      && var e' := d'.tensors[id];
         && Keeps(e.placements, e'.placements, (p: Placement) => p.nodeId != n) && e'.version == e.version + 1
         && e'.tensorId == e.tensorId && e'.shape == e.shape && e'.dtype == e.dtype
         && e'.mutable == e.mutable && e'.owner == e.owner
  }

  /** What is left of the node's list: the other ids, in order; no empty list is kept. */
  ghost predicate Unlists(d: Directory, d': Directory, id: TensorId, n: NodeId) {
    if n !in d.index || forall t :: t in d.index[n] ==> t == id then n !in d'.index
    else n in d'.index && Keeps(d.index[n], d'.index[n], (t: TensorId) => t != id)
  }

  lemma OffNodeIsEmptyIff(ps: seq<Placement>, n: NodeId)
    ensures OffNode(ps, n) == [] <==> forall p :: p in ps ==> p.nodeId == n
  {
    OffNodeElements(ps, n);
    if OffNode(ps, n) != [] {
      assert OffNode(ps, n)[0] in OffNode(ps, n);
    }
  }

  lemma WithoutIsEmptyIff(ids: seq<TensorId>, t: TensorId)
    ensures Without(ids, t) == [] <==> forall x :: x in ids ==> x == t
  {
    hide Without;
    WithoutCounts(ids, t);
    if x :| x in ids && x != t {
      assert multiset(Without(ids, t))[x] == multiset(ids)[x] > 0;
    }
    if Without(ids, t) != [] {
      var x := Without(ids, t)[0];
      assert x in multiset(Without(ids, t));
      assert multiset(ids)[t := 0][x] > 0;
      assert x in ids && x != t;
    }
  }

  /** Removing takes all placements on the node out, and the tensor with the last one. */
  lemma RemoveTakesOut(d: Directory, id: TensorId, n: NodeId)
    ensures var (d', r) := Apply(d, Remove(id, n));
            if id !in d.tensors then d' == d && r == TensorNotFound
            else
              && r == Acknowledged && OnlyChanges(d, d', id, n)
              && LosesNode(d, d', id, n) && Unlists(d, d', id, n)
  {
    hide OffNode, Without, Keeps;
    if id in d.tensors {
      OffNodeIsEmptyIff(d.tensors[id].placements, n);
      OffNodeKeeps(d.tensors[id].placements, n);
      WithoutIsEmptyIff(Listed(d, n), id);
      WithoutKeeps(Listed(d, n), id);
    }
  }

  // ----- the order of what is returned -----

  /** Position `k` is the first that lists a tensor with all its placements on the node. */
  predicate FirstToDrop(tensors: map<TensorId, Entry>, n: NodeId, ids: seq<TensorId>, k: int)
    requires 0 <= k < |ids|
  {
    ids[k] in tensors && ids[k] !in ids[..k] && forall p :: p in tensors[ids[k]].placements ==> p.nodeId == n
  }

  ghost predicate AreFirstToDrop(tensors: map<TensorId, Entry>, n: NodeId, ids: seq<TensorId>, at: seq<int>) {
    forall k :: 0 <= k < |ids| ==> (k in at <==> FirstToDrop(tensors, n, ids, k))
  }

  /** The evicted ids come in the order of the list, each at its first position. */
  lemma {:induction false} EvictAllInOrder(tensors: map<TensorId, Entry>, n: NodeId, ids: seq<TensorId>)
    returns (at: seq<int>)
    ensures IsSelection(ids, EvictAll(tensors, n, ids).1, at) && AreFirstToDrop(tensors, n, ids, at)
  {
    hide EvictAll, FirstToDrop, AreFirstToDrop, IsSelection;
    if ids == [] {
      at := [];
      EvictAllOfNothing(tensors, n);
    } else {
      var front, last := ids[..|ids| - 1], |ids| - 1;
      var before := EvictAllInOrder(tensors, n, front);
      assert ids == front + [ids[last]];
      LastEvicted(tensors, n, ids);
      SelectionOneMore(front, EvictAll(tensors, n, front).1, before, ids[last]);
      at := if FirstToDrop(tensors, n, ids, last) then before + [last] else before;
      FirstToDropOneMore(tensors, n, ids, before);
      assert EvictAll(tensors, n, front).1 + [] == EvictAll(tensors, n, front).1;
    }
  }

  lemma FirstToDropOneMore(tensors: map<TensorId, Entry>, n: NodeId, ids: seq<TensorId>, at: seq<int>)
    requires ids != [] && |ids| - 1 !in at && AreFirstToDrop(tensors, n, ids[..|ids| - 1], at)
    ensures var last := |ids| - 1;
            AreFirstToDrop(tensors, n, ids, if FirstToDrop(tensors, n, ids, last) then at + [last] else at)
  {
    hide FirstToDrop;
    forall k | 0 <= k < |ids| - 1
      ensures FirstToDrop(tensors, n, ids, k) <==> FirstToDrop(tensors, n, ids[..|ids| - 1], k)
    {
      EarlierToDrop(tensors, n, ids, k);
    }
  }

  lemma EvictAllOfNothing(tensors: map<TensorId, Entry>, n: NodeId)
    ensures IsSelection([], EvictAll(tensors, n, []).1, []) && AreFirstToDrop(tensors, n, [], [])
  {
  }

  lemma EarlierToDrop(tensors: map<TensorId, Entry>, n: NodeId, ids: seq<TensorId>, k: int)
    requires 0 <= k < |ids| - 1
    ensures FirstToDrop(tensors, n, ids, k) <==> FirstToDrop(tensors, n, ids[..|ids| - 1], k)
  {
    assert ids[..|ids| - 1][..k] == ids[..k];
  }

  lemma LastEvicted(tensors: map<TensorId, Entry>, n: NodeId, ids: seq<TensorId>)
    requires ids != []
    ensures var front, last := ids[..|ids| - 1], |ids| - 1;
            EvictAll(tensors, n, ids).1
            == EvictAll(tensors, n, front).1 + if FirstToDrop(tensors, n, ids, last) then [ids[last]] else []
  {
    hide OffNode;
    var front, t := ids[..|ids| - 1], ids[|ids| - 1];
    EvictAllIs(tensors, n, front);
    var mid := EvictAll(tensors, n, front).0;
    assert EvictedTo(tensors, mid, n, front, t);
    if t in tensors {
      OffNodeIsEmptyIff(tensors[t].placements, n);
      if t in front && t in mid {
        OffNodeElements(tensors[t].placements, n);
        OffNodeOfOff(mid[t].placements, n);
      }
    }
  }

  /** An eviction returns its tensors in the order in which the node's list first names them. */
  lemma EvictedInOrder(d: Directory, n: NodeId) returns (at: seq<int>)
    ensures var ids, r := if n in d.index then d.index[n] else [], Apply(d, Evict(n)).1;
            r.Evicted? && IsSelection(ids, r.ids, at) && AreFirstToDrop(d.tensors, n, ids, at)
  {
    at := EvictAllInOrder(d.tensors, n, Listed(d, n));
  }

  /** The entries are those of the ids at the positions `at`, which are the registered ones. */
  ghost predicate AreFound(tensors: map<TensorId, Entry>, ids: seq<TensorId>, entries: seq<Entry>, at: seq<int>) {
    && Increasing(at, |ids|) && |at| == |entries|
    && (forall k :: 0 <= k < |ids| ==> (k in at <==> ids[k] in tensors))
    && forall j :: 0 <= j < |at| ==> ids[at[j]] in tensors && entries[j] == tensors[ids[at[j]]]
  }

  lemma FoundOneMore(tensors: map<TensorId, Entry>, ids: seq<TensorId>, entries: seq<Entry>, at: seq<int>, t: TensorId)
    requires AreFound(tensors, ids, entries, at)
    ensures if t in tensors then AreFound(tensors, ids + [t], entries + [tensors[t]], at + [|ids|])
            else AreFound(tensors, ids + [t], entries, at)
  {
    hide Increasing;
    IncreasingOneMore(at, |ids|);
    InRange(at, |ids|);
  }

  /** The entries found are those of the listed ids that are registered, in the order of the list. */
  lemma {:induction false} LookupInOrder(tensors: map<TensorId, Entry>, ids: seq<TensorId>) returns (at: seq<int>)
    ensures AreFound(tensors, ids, Lookup(tensors, ids), at)
  {
    hide AreFound;
    if ids == [] {
      at := [];
      NothingFound(tensors);
    } else {
      var front, last := ids[..|ids| - 1], |ids| - 1;
      var before := LookupInOrder(tensors, front);
      FoundOneMore(tensors, front, Lookup(tensors, front), before, ids[last]);
      assert ids == front + [ids[last]];
      at := if ids[last] in tensors then before + [last] else before;
    }
  }

  lemma NothingFound(tensors: map<TensorId, Entry>)
    ensures AreFound(tensors, [], [], [])
  {
  }

  /** The calls that only read: their replies, and that they change nothing. */
  lemma OnNodeReplies(d: Directory, n: NodeId) returns (at: seq<int>)
    ensures var ids, (d', r) := if n in d.index then d.index[n] else [], Apply(d, OnNode(n));
            d' == d && r.Entries? && AreFound(d.tensors, ids, r.entries, at)
  {
    hide AreFound;
    at := LookupInOrder(d.tensors, Listed(d, n));
  }

  lemma GetTensorReplies(d: Directory, id: TensorId)
    ensures Apply(d, GetTensor(id)).0 == d
    ensures Apply(d, GetTensor(id)).1 == TensorNotFound <==> id !in d.tensors
    ensures id in d.tensors ==> Apply(d, GetTensor(id)).1 == Found(d.tensors[id])
  {
  }

  /** A check is refused for want of the tensor or of a placement on the source, and changes nothing. */
  lemma CheckReplies(d: Directory, id: TensorId, from: NodeId, to: NodeId, length: nat)
    ensures var (d', r) := Apply(d, Check(id, from, to, length));
            && d' == d
            && (r == TensorNotFound <==> id !in d.tensors)
            && (r == NotOnSource <==> id in d.tensors && forall p :: p in d.tensors[id].placements ==> p.nodeId != from)
            && (r.TensorNotFound? || r.NotOnSource? || r.Checked?)
  {
    if id in d.tensors {
      FirstOnIs(d.tensors[id].placements, from);
    }
  }

  /** Sum of the numbers of placements of the listed tensors. */
  function PlacementsOf(tensors: map<TensorId, Entry>, ids: seq<TensorId>): nat
    requires forall t :: t in ids ==> t in tensors
  {
    if ids == [] then 0
    else
      var last := ids[|ids| - 1];
      PlacementsOf(tensors, ids[..|ids| - 1]) + |tensors[last].placements|
  }

  lemma {:induction false} PlacementsAreSummed(tensors: map<TensorId, Entry>, ids: seq<TensorId>)
    requires Distinct(ids) && forall t :: t in ids <==> t in tensors
    ensures Sums.Sum(Sums.Lengths(NodeLists(tensors))) == PlacementsOf(tensors, ids)
  {
    hide Sums.Lengths, NodeLists;
    if ids == [] {
      assert tensors == map[];
      NoPlacements();
    } else {
      var front, last := ids[..|ids| - 1], ids[|ids| - 1];
      assert ids == front + [last] && last !in front;
      PlacementsWithout(tensors, last);
      PlacementsAreSummed(tensors - {last}, front);
      SamePlacements(tensors - {last}, tensors, front);
    }
  }

  lemma {:induction false} SamePlacements(a: map<TensorId, Entry>, b: map<TensorId, Entry>, ids: seq<TensorId>)
    requires forall t :: t in ids ==> t in a && t in b && a[t] == b[t]
    ensures PlacementsOf(a, ids) == PlacementsOf(b, ids)
  {
    if ids != [] {
      SamePlacements(a, b, ids[..|ids| - 1]);
    }
  }

  /** The four statistics, against any lists of the tensors, of the mutable ones, and of the indexed nodes. */
  lemma StatsCount(d: Directory, ids: seq<TensorId>, mutables: seq<TensorId>, nodes: seq<NodeId>)
    requires Distinct(ids) && forall t :: t in ids <==> t in d.tensors
    requires Distinct(mutables) && forall t :: t in mutables <==> t in d.tensors && d.tensors[t].mutable
    requires Distinct(nodes) && forall n :: n in nodes <==> n in d.index
    ensures Apply(d, GetStats)
            == (d, StatsAre(Stats(|ids|, PlacementsOf(d.tensors, ids), |mutables|, |nodes|)))
  {
    hide Sums.Lengths, NodeLists, PlacementsOf, Distinct;
    PlacementsAreSummed(d.tensors, ids);
    DistinctSize(ids, d.tensors.Keys);
    DistinctSize(mutables, set t | t in d.tensors && d.tensors[t].mutable);
    DistinctSize(nodes, d.index.Keys);
  }
}
