/** Sums of natural numbers over the values of a map, in no particular order. */
module Sums {

  ghost function Sum<K(!new)>(m: map<K, nat>): nat {
    if m == map[] then 0
    else
      var k :| k in m;
      m[k] + Sum(m - {k})
  }

  lemma {:induction false} SumWithout<K(!new)>(m: map<K, nat>, x: K)
    requires x in m
    ensures Sum(m) == m[x] + Sum(m - {x})
    decreases |m|
  {
    var k :| k in m && Sum(m) == m[k] + Sum(m - {k});
    if k != x {
      SumWithout(m - {k}, x);
      SumWithout(m - {x}, k);
      assert (m - {k}) - {x} == (m - {x}) - {k};
    }
  }

  /** The sum of differences is the difference of the sums. */
  lemma {:induction false} SumOfDifferences<K(!new)>(keys: set<K>, a: map<K, nat>, b: map<K, nat>, d: map<K, nat>)
    requires a.Keys == b.Keys == d.Keys == keys
    requires forall k :: k in keys ==> a[k] == b[k] + d[k]
    ensures Sum(a) == Sum(b) + Sum(d)
    decreases keys
  {
    if k :| k in keys {
      SumWithout(a, k);
      SumWithout(b, k);
      SumWithout(d, k);
      SumOfDifferences(keys - {k}, a - {k}, b - {k}, d - {k});
    }
  }

  ghost function Lengths<K(!new), V>(m: map<K, seq<V>>): map<K, nat> {
    map k | k in m :: |m[k]|
  }

  /** Flattening a map of lists into pairs: one pair for each list position. */
  lemma {:induction false} Pairs<K(!new), V(!new)>(m: map<K, seq<V>>) returns (ps: multiset<(K, V)>)
    ensures |ps| == Sum(Lengths(m))
    ensures forall k, v :: ps[(k, v)] == if k in m then multiset(m[k])[v] else 0
    decreases |m|
  {
    if m == map[] {
      ps := multiset{};
      assert Lengths(m) == map[];
    } else {
      var k :| k in m;
      var rest := Pairs(m - {k});
      var here := Tagged(k, m[k]);
      ps := rest + here;
      assert Lengths(m) - {k} == Lengths(m - {k});
      SumWithout(Lengths(m), k);
    }
  }

  lemma {:induction false} Tagged<K(!new), V(!new)>(k: K, vs: seq<V>) returns (ps: multiset<(K, V)>)
    ensures |ps| == |vs|
    ensures forall k', v :: ps[(k', v)] == if k' == k then multiset(vs)[v] else 0
  {
    if vs == [] {
      ps := multiset{};
    } else {
      var last := |vs| - 1;
      var front := Tagged(k, vs[..last]);
      ps := front + multiset{(k, vs[last])};
      assert vs == vs[..last] + [vs[last]];
    }
  }

  lemma {:induction false} FlippedSize<K(!new), V(!new)>(a: multiset<(K, V)>, b: multiset<(V, K)>)
    requires forall k, v :: a[(k, v)] == b[(v, k)]
    ensures |a| == |b|
    decreases |a|
  {
    if x :| x in a {
      var y := (x.1, x.0);
      assert a[(x.0, x.1)] == b[y];
      FlippedSize(a - multiset{x}, b - multiset{y});
    } else {
      forall y ensures b[y] == 0 {
        assert a[(y.1, y.0)] == b[(y.0, y.1)];
      }
      assert b == multiset{};
    }
  }

  /**
   Double counting: two maps of lists that list each other's keys equally often have
   the same total length.
   */
  lemma DoubleCounting<K(!new), V(!new)>(m: map<K, seq<V>>, m': map<V, seq<K>>)
    requires forall k, v :: (if k in m then multiset(m[k])[v] else 0) == (if v in m' then multiset(m'[v])[k] else 0)
    ensures Sum(Lengths(m)) == Sum(Lengths(m'))
  {
    var a := Pairs(m);
    var b := Pairs(m');
    FlippedSize(a, b);
  }
}
