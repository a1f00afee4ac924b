/** What the services share about nodes. */
module ClusterTypes {
  import opened Selections

  type NodeId = nat
  type SessionId = nat

  datatype Status = Healthy | Suspect | Unavailable | Draining | Maintenance

  /** `score` stands for the floating-point score the scheduler gives the node; only its order matters. */
  datatype Node = Node(id: NodeId, status: Status, gpus: seq<string>, score: real)

  predicate IsHealthy(n: Node) { n.status == Healthy }

  ghost predicate DistinctIds(ns: seq<Node>) {
    forall i, j :: 0 <= i < j < |ns| ==> ns[i].id != ns[j].id
  }

  function Filter(ns: seq<Node>, keep: Node -> bool): seq<Node> {
    if ns == [] then []
    else
      var rest := Filter(ns[..|ns| - 1], keep);
      if keep(ns[|ns| - 1]) then rest + [ns[|ns| - 1]] else rest
  }

  lemma {:induction false} FilterIs(ns: seq<Node>, keep: Node -> bool)
    ensures forall n :: n in Filter(ns, keep) <==> n in ns && keep(n)
    ensures DistinctIds(ns) ==> DistinctIds(Filter(ns, keep))
    ensures |Filter(ns, keep)| <= |ns|
  {
    if ns != [] {
      var front, last := ns[..|ns| - 1], ns[|ns| - 1];
      FilterIs(front, keep);
      assert ns == front + [last];
      if DistinctIds(ns) {
        assert forall n :: n in front ==> n.id != last.id;
      }
    }
  }

  /** A filter keeps the order. */
  lemma {:induction false} FilterKeeps(ns: seq<Node>, keep: Node -> bool)
    ensures Keeps(ns, Filter(ns, keep), keep)
  {
    hide Keeps;
    if ns == [] {
      KeepsNothing(keep);
    } else {
      var front, last := ns[..|ns| - 1], ns[|ns| - 1];
      FilterKeeps(front, keep);
      KeepsOneMore(front, Filter(front, keep), keep, last);
      assert ns == front + [last];
    }
  }
}
