/** Exactly which nodes a session is put on. */
module SchedulerSelection {
  import opened ClusterTypes
  import opened Selections
  import opened SchedulerModel

  /** Position `p` comes before position `q`: a higher score, or an equal one earlier in the iteration order. */
  predicate Better(ns: seq<Node>, p: int, q: int)
    requires 0 <= p < |ns| && 0 <= q < |ns|
  {
    ns[p].score > ns[q].score || (ns[p].score == ns[q].score && p < q)
  }

  predicate InBounds(at: seq<int>, n: int) {
    forall i :: 0 <= i < |at| ==> 0 <= at[i] < n
  }

  /** The positions are in the order of preference. */
  ghost predicate Ranked(ns: seq<Node>, at: seq<int>)
    requires InBounds(at, |ns|)
  {
    forall i, j :: 0 <= i < j < |at| ==> Better(ns, at[i], at[j])
  }

  /** `sorted` lists the elements of `ns` at the positions `at`. */
  ghost predicate ListsAt(ns: seq<Node>, sorted: seq<Node>, at: seq<int>)
    requires InBounds(at, |ns|)
  {
    |sorted| == |at| && forall i :: 0 <= i < |at| ==> sorted[i] == ns[at[i]]
  }

  lemma {:induction false} InsertAt(ns: seq<Node>, sorted: seq<Node>, at: seq<int>, n: int) returns (at': seq<int>)
    requires 0 <= n < |ns| && InBounds(at, n) && Ranked(ns, at) && ListsAt(ns, sorted, at)
    ensures InBounds(at', n + 1) && Ranked(ns, at') && ListsAt(ns, Insert(sorted, ns[n]), at')
    ensures forall k :: k in at' <==> k in at || k == n
  {
    hide Ranked, Better, ListsAt;
    SameLast(ns, sorted, at);
    if sorted == [] || sorted[|sorted| - 1].score >= ns[n].score {
      at' := at + [n];
      LastIsWorst(ns, at, n);
      ListsOneMore(ns, sorted, at, n);
    } else {
      var last := |at| - 1;
      RankedFront(ns, at);
      ListsFront(ns, sorted, at);
      var front := InsertAt(ns, sorted[..last], at[..last], n);
      at' := front + [at[last]];
      assert at == at[..last] + [at[last]];
      BetterThanLast(ns, at, front, n);
      RankedOneMore(ns, front, at[last]);
      ListsOneMore(ns, Insert(sorted[..last], ns[n]), front, at[last]);
    }
  }

  lemma SameLast(ns: seq<Node>, sorted: seq<Node>, at: seq<int>)
    requires InBounds(at, |ns|) && ListsAt(ns, sorted, at)
    ensures |sorted| == |at| && (at != [] ==> sorted[|at| - 1] == ns[at[|at| - 1]])
  {
  }

  lemma ListsFront(ns: seq<Node>, sorted: seq<Node>, at: seq<int>)
    requires at != [] && InBounds(at, |ns|) && ListsAt(ns, sorted, at)
    ensures ListsAt(ns, sorted[..|at| - 1], at[..|at| - 1])
  {
  }

  lemma ListsOneMore(ns: seq<Node>, sorted: seq<Node>, at: seq<int>, n: int)
    requires InBounds(at, |ns|) && ListsAt(ns, sorted, at) && 0 <= n < |ns|
    ensures ListsAt(ns, sorted + [ns[n]], at + [n])
  {
  }

  /** Everything in front of the last position is better, the newcomer included. */
  lemma BetterThanLast(ns: seq<Node>, at: seq<int>, front: seq<int>, n: int)
    requires at != [] && 0 <= n < |ns| && InBounds(at, |ns|) && InBounds(front, |ns|) && Ranked(ns, at)
    requires ns[at[|at| - 1]].score < ns[n].score
    requires forall k :: k in front <==> k in at[..|at| - 1] || k == n
    ensures forall k :: k in front ==> 0 <= k < |ns| && Better(ns, k, at[|at| - 1])
  {
    hide Ranked;
    forall k | k in front ensures 0 <= k < |ns| && Better(ns, k, at[|at| - 1]) {
      if k != n {
        RankedLast(ns, at, k);
      }
    }
  }

  lemma RankedFront(ns: seq<Node>, at: seq<int>)
    requires at != [] && InBounds(at, |ns|) && Ranked(ns, at)
    ensures Ranked(ns, at[..|at| - 1])
  {
  }

  lemma RankedLast(ns: seq<Node>, at: seq<int>, k: int)
    requires at != [] && InBounds(at, |ns|) && Ranked(ns, at) && k in at[..|at| - 1]
    ensures 0 <= k < |ns| && Better(ns, k, at[|at| - 1])
  {
    var i :| 0 <= i < |at| - 1 && at[i] == k;
  }

  lemma RankedOneMore(ns: seq<Node>, at: seq<int>, n: int)
    requires InBounds(at, |ns|) && Ranked(ns, at) && 0 <= n < |ns|
    requires forall k :: k in at ==> 0 <= k < |ns| && Better(ns, k, n)
    ensures Ranked(ns, at + [n])
  {
  }

  lemma LastIsWorst(ns: seq<Node>, at: seq<int>, n: int)
    requires 0 <= n < |ns| && InBounds(at, n) && Ranked(ns, at)
    requires at != [] ==> ns[at[|at| - 1]].score >= ns[n].score
    ensures Ranked(ns, at + [n])
  {
    forall k | k in at ensures 0 <= k < |ns| && Better(ns, k, n) {
      var i :| 0 <= i < |at| && at[i] == k;
      assert i < |at| - 1 ==> Better(ns, at[i], at[|at| - 1]);
    }
    RankedOneMore(ns, at, n);
  }

  /** The sorted list takes all positions in the order of preference. */
  lemma {:induction false} SortIsRanked(ns: seq<Node>, k: nat) returns (at: seq<int>)
    requires k <= |ns|
    ensures InBounds(at, k) && Ranked(ns, at) && ListsAt(ns, SortByScore(ns[..k]), at)
    ensures forall p :: p in at <==> 0 <= p < k
  {
    if k == 0 {
      at := [];
    } else {
      var before := SortIsRanked(ns, k - 1);
      assert ns[..k][..k - 1] == ns[..k - 1];
      at := InsertAt(ns, SortByScore(ns[..k - 1]), before, k - 1);
    }
  }

  ghost predicate IsHealthyAt(c: Cluster, k: int) {
    0 <= k < |c.nodes| && c.nodes[k].status == Healthy
  }

  /** The positions of `kept`, which lists `ns` at `at`, as positions of `ns`. */
  function Through(at: seq<int>, order: seq<int>): seq<int>
    requires InBounds(order, |at|)
  {
    seq(|order|, i requires 0 <= i < |order| => at[order[i]])
  }

  lemma RankedThrough(ns: seq<Node>, kept: seq<Node>, at: seq<int>, order: seq<int>)
    requires IsSelection(ns, kept, at) && InBounds(order, |kept|) && Ranked(kept, order)
    ensures InBounds(Through(at, order), |ns|) && Ranked(ns, Through(at, order))
  {
    hide Better;
    InRange(at, |ns|);
    forall i, j | 0 <= i < j < |order| ensures Better(ns, at[order[i]], at[order[j]]) {
      SameOrder(ns, kept, at, order[i], order[j]);
    }
  }

  lemma ListedThrough(ns: seq<Node>, kept: seq<Node>, at: seq<int>, order: seq<int>, sorted: seq<Node>)
    requires IsSelection(ns, kept, at) && InBounds(order, |kept|) && ListsAt(kept, sorted, order)
    ensures InBounds(Through(at, order), |ns|) && ListsAt(ns, sorted, Through(at, order))
  {
    InRange(at, |ns|);
  }

  lemma SameThrough(at: seq<int>, order: seq<int>)
    requires InBounds(order, |at|) && forall p :: 0 <= p < |at| ==> p in order
    ensures forall k :: k in Through(at, order) <==> k in at
  {
    forall k | k in at ensures k in Through(at, order) {
      var p :| 0 <= p < |at| && at[p] == k;
      assert p in order;
      var i :| 0 <= i < |order| && order[i] == p;
      assert Through(at, order)[i] == k;
    }
  }

  lemma HealthyAt(c: Cluster) returns (at: seq<int>)
    ensures IsSelection(c.nodes, Filter(c.nodes, IsHealthy), at) && |at| == |Filter(c.nodes, IsHealthy)|
    ensures forall k :: k in at <==> IsHealthyAt(c, k)
  {
    FilterKeeps(c.nodes, IsHealthy);
    at :| IsSelection(c.nodes, Filter(c.nodes, IsHealthy), at) && AreKept(c.nodes, at, IsHealthy);
    InRange(at, |c.nodes|);
  }

  /** The Healthy positions of the cluster in the order of preference. */
  lemma HealthyRanked(c: Cluster) returns (at: seq<int>)
    ensures InBounds(at, |c.nodes|) && Ranked(c.nodes, at)
    ensures ListsAt(c.nodes, SortByScore(Filter(c.nodes, IsHealthy)), at)
    ensures forall k :: k in at <==> IsHealthyAt(c, k)
  {
    hide IsSelection, Ranked, ListsAt, IsHealthyAt, Through;
    var healthy := Filter(c.nodes, IsHealthy);
    var kept := HealthyAt(c);
    var order := SortIsRanked(healthy, |healthy|);
    assert healthy[..|healthy|] == healthy;
    RankedThrough(c.nodes, healthy, kept, order);
    ListedThrough(c.nodes, healthy, kept, order, SortByScore(healthy));
    SameThrough(kept, order);
    at := Through(kept, order);
  }

  lemma SameOrder(ns: seq<Node>, kept: seq<Node>, at: seq<int>, p: int, q: int)
    requires IsSelection(ns, kept, at) && 0 <= p < |kept| && 0 <= q < |kept| && Better(kept, p, q)
    ensures Better(ns, at[p], at[q])
  {
  }

  /**
   The selection, completely: positions of Healthy nodes in descending order of score, equal
   scores in iteration order, and every Healthy node left out comes after three chosen ones.
   */
  lemma SelectionIs(c: Cluster) returns (at: seq<int>)
    ensures |at| == |SelectNodes(c)| && InBounds(at, |c.nodes|)
    ensures forall i :: 0 <= i < |at| ==>
              c.nodes[at[i]].status == Healthy && SelectNodes(c)[i] == c.nodes[at[i]].id
    ensures forall i, j :: 0 <= i < j < |at| ==> Better(c.nodes, at[i], at[j])
    ensures forall k :: 0 <= k < |c.nodes| && c.nodes[k].status == Healthy && k !in at ==>
              |at| == 3 && forall i :: 0 <= i < 3 ==> Better(c.nodes, at[i], k)
  {
    hide Better, Ranked, ListsAt, IsHealthyAt, SelectNodes;
    var all := HealthyRanked(c);
    at := if |all| <= 3 then all else all[..3];
    ChosenAt(c, all, at);
    HealthyIs(c);
    RankedMeans(c.nodes, all);
    forall k | 0 <= k < |c.nodes| && c.nodes[k].status == Healthy && k !in at
      ensures |at| == 3 && forall i :: 0 <= i < 3 ==> Better(c.nodes, at[i], k)
    {
      var j :| 0 <= j < |all| && all[j] == k;
      MissingIsLater(all, at, j);
    }
  }

  lemma HealthyIs(c: Cluster)
    ensures forall k :: IsHealthyAt(c, k) <==> 0 <= k < |c.nodes| && c.nodes[k].status == Healthy
  {
  }

  lemma RankedMeans(ns: seq<Node>, at: seq<int>)
    requires InBounds(at, |ns|) && Ranked(ns, at)
    ensures forall i, j :: 0 <= i < j < |at| ==> Better(ns, at[i], at[j])
  {
  }

  lemma ChosenAt(c: Cluster, all: seq<int>, at: seq<int>)
    requires InBounds(all, |c.nodes|) && ListsAt(c.nodes, SortByScore(Filter(c.nodes, IsHealthy)), all)
    requires forall k :: k in all ==> IsHealthyAt(c, k)
    requires at == if |all| <= 3 then all else all[..3]
    ensures |at| == |SelectNodes(c)| && InBounds(at, |c.nodes|)
    ensures forall i :: 0 <= i < |at| ==>
              c.nodes[at[i]].status == Healthy && SelectNodes(c)[i] == c.nodes[at[i]].id
  {
    hide SortByScore, Filter;
    forall i | 0 <= i < |at| ensures IsHealthyAt(c, at[i]) {
      assert all[i] in all;
    }
  }

  lemma MissingIsLater(all: seq<int>, at: seq<int>, j: int)
    requires at <= all && 0 <= j < |all| && all[j] !in at
    ensures j >= |at|
  {
  }

  /** As many nodes are chosen as are Healthy, but no more than three. */
  lemma SelectionCount(c: Cluster)
    ensures var healthy := set k | 0 <= k < |c.nodes| && c.nodes[k].status == Healthy;
            |SelectNodes(c)| == if |healthy| < 3 then |healthy| else 3
  {
    hide Better;
    var all := HealthyRanked(c);
    var healthy := set k | 0 <= k < |c.nodes| && c.nodes[k].status == Healthy;
    RankedAreDistinct(c.nodes, all);
    assert forall k :: k in all <==> k in healthy by {
      assert forall k :: k in healthy <==> IsHealthyAt(c, k);
    }
    DistinctSize(all, healthy);
  }

  lemma RankedAreDistinct(ns: seq<Node>, at: seq<int>)
    requires InBounds(at, |ns|) && Ranked(ns, at)
    ensures Distinct(at)
  {
    forall i, j | 0 <= i < j < |at| ensures at[i] != at[j] {
      assert Better(ns, at[i], at[j]);
    }
  }
}
