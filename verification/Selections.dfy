/** Parts of a sequence in their order, as `retain` and `filter` leave them. */
module Selections {

  /** `at` are increasing positions, all below `n`. */
  ghost predicate Increasing(at: seq<int>, n: int) {
    && (forall i, j :: 0 <= i < j < |at| ==> at[i] < at[j])
    && (forall j :: 0 <= j < |at| ==> 0 <= at[j] < n)
  }

  /** `after` lists the elements of `before` at the increasing positions `at`. */
  ghost predicate IsSelection<T>(before: seq<T>, after: seq<T>, at: seq<int>) {
    Increasing(at, |before|) && |at| == |after| && forall j :: 0 <= j < |at| ==> after[j] == before[at[j]]
  }

  /** The positions are exactly those whose element `keep` accepts. */
  ghost predicate AreKept<T(!new)>(before: seq<T>, at: seq<int>, keep: T -> bool) {
    forall k :: 0 <= k < |before| ==> (k in at <==> keep(before[k]))
  }

  /** `after` lists, in their order, exactly the elements of `before` that `keep` accepts. */
  ghost predicate Keeps<T(!new)>(before: seq<T>, after: seq<T>, keep: T -> bool) {
    exists at :: IsSelection(before, after, at) && AreKept(before, at, keep)
  }

  lemma KeepsNothing<T(!new)>(keep: T -> bool)
    ensures Keeps([], [], keep)
  {
    assert IsSelection<T>([], [], []) && AreKept([], [], keep);
  }

  lemma IncreasingOneMore(at: seq<int>, n: int)
    requires Increasing(at, n) && n >= 0
    ensures Increasing(at, n + 1) && Increasing(at + [n], n + 1)
  {
  }

  lemma KeepsOneMore<T(!new)>(before: seq<T>, after: seq<T>, keep: T -> bool, x: T)
    requires Keeps(before, after, keep)
    ensures Keeps(before + [x], if keep(x) then after + [x] else after, keep)
  {
    hide Increasing;
    var at :| IsSelection(before, after, at) && AreKept(before, at, keep);
    IncreasingOneMore(at, |before|);
    InRange(at, |before|);
    if keep(x) {
      assert IsSelection(before + [x], after + [x], at + [|before|]);
      assert AreKept(before + [x], at + [|before|], keep);
    } else {
      assert IsSelection(before + [x], after, at);
      assert AreKept(before + [x], at, keep);
    }
  }

  lemma InRange(at: seq<int>, n: int)
    requires Increasing(at, n)
    ensures forall j :: 0 <= j < |at| ==> 0 <= at[j] < n
    ensures n !in at
  {
  }

  /** One more element, taken or not. */
  lemma SelectionOneMore<T>(before: seq<T>, after: seq<T>, at: seq<int>, x: T)
    requires IsSelection(before, after, at)
    ensures IsSelection(before + [x], after, at)
    ensures IsSelection(before + [x], after + [x], at + [|before|])
    ensures |before| !in at
  {
    IncreasingOneMore(at, |before|);
    InRange(at, |before|);
  }

  ghost predicate Distinct<T(!new)>(xs: seq<T>) {
    forall i, j :: 0 <= i < j < |xs| ==> xs[i] != xs[j]
  }

  /** A list of the elements of a set, each once, is as long as the set is large. */
  lemma {:induction false} DistinctSize<T(!new)>(xs: seq<T>, s: set<T>)
    requires Distinct(xs) && forall x :: x in xs <==> x in s
    ensures |s| == |xs|
  {
    if xs == [] {
      assert s == {};
    } else {
      var front, last := xs[..|xs| - 1], xs[|xs| - 1];
      assert xs == front + [last] && last !in front;
      DistinctSize(front, s - {last});
    }
  }
}
