/**
 The scheduler's cluster, its choice of nodes, and its ledger of reserved resources. The
 cluster never changes after construction, so the chosen nodes are a constant of the run.
 */
module SchedulerModel {
  import opened Wrappers
  import opened ClusterTypes
  import opened Selections

  /** `nodes` lists the node map in its iteration order. */
  datatype Cluster = Cluster(nodes: seq<Node>, hostMemory: nat, deviceMemory: nat)

  ghost predicate ValidCluster(c: Cluster) {
    DistinctIds(c.nodes)
  }

  /** CPU in percent, memories in GiB: every amount the scheduler handles is a whole number of these. */
  datatype Amount = Amount(cpu: int, ram: int, vram: int)

  datatype Allocation = Allocation(amount: Amount, active: seq<SessionId>)

  type Ledger = map<NodeId, Allocation>

  datatype Session = Session(id: SessionId, nodes: seq<NodeId>, resources: map<NodeId, Amount>)

  datatype Error = AdmissionRejected | NoAvailableNodes | InsufficientResources(node: NodeId) | SessionNotFound

  /** What a session reserves on each of its nodes: 30 percent of the CPU, 4 GiB and 2 GiB. */
  const UNIT := Amount(30, 4, 2)
  const CPU_LIMIT := 100
  const MAX_NODES := 3

  function Times(k: int): Amount {
    Amount(30 * k, 4 * k, 2 * k)
  }

  function Plus(a: Amount, b: Amount): Amount {
    Amount(a.cpu + b.cpu, a.ram + b.ram, a.vram + b.vram)
  }

  function Minus(a: Amount, b: Amount): Amount {
    Amount(a.cpu - b.cpu, a.ram - b.ram, a.vram - b.vram)
  }

  const Nothing: Allocation := Allocation(Amount(0, 0, 0), [])

  /** What the ledger holds for a node; a node without an entry holds nothing. */
  function Held(l: Ledger, n: NodeId): Allocation {
    if n in l then l[n] else Nothing
  }

  // ----- admission and selection -----

  predicate Admits(c: Cluster, contextLength: nat) {
    c.hostMemory > contextLength * 1024 && c.deviceMemory > contextLength * 512
  }

  /** Inserts behind every node that scores at least as high, so equal scores keep their order. */
  function Insert(sorted: seq<Node>, x: Node): seq<Node> {
    if sorted == [] || sorted[|sorted| - 1].score >= x.score then sorted + [x]
    else Insert(sorted[..|sorted| - 1], x) + [sorted[|sorted| - 1]]
  }

  /** A stable sort by descending score. */
  function SortByScore(ns: seq<Node>): seq<Node> {
    if ns == [] then [] else Insert(SortByScore(ns[..|ns| - 1]), ns[|ns| - 1])
  }

  function Ids(ns: seq<Node>): seq<NodeId> {
    seq(|ns|, i requires 0 <= i < |ns| => ns[i].id)
  }

  function Top(ns: seq<Node>): seq<Node> {
    if |ns| <= MAX_NODES then ns else ns[..MAX_NODES]
  }

  function SelectNodes(c: Cluster): seq<NodeId> {
    Ids(Top(SortByScore(Filter(c.nodes, IsHealthy))))
  }

  function Selected(c: Cluster): set<NodeId> {
    SetOf(SelectNodes(c))
  }

  function SetOf(ids: seq<NodeId>): set<NodeId> {
    set n | n in ids
  }

  function Allocations(nodes: set<NodeId>): map<NodeId, Amount> {
    map n | n in nodes :: UNIT
  }

  // ----- what selection promises -----

  ghost predicate Descending(ns: seq<Node>) {
    forall i, j :: 0 <= i < j < |ns| ==> ns[i].score >= ns[j].score
  }

  function WithScore(ns: seq<Node>, v: real): seq<Node> {
    if ns == [] then []
    else
      var rest := WithScore(ns[..|ns| - 1], v);
      if ns[|ns| - 1].score == v then rest + [ns[|ns| - 1]] else rest
  }

  lemma {:induction false} WithScoreConcat(a: seq<Node>, b: seq<Node>, v: real)
    ensures WithScore(a + b, v) == WithScore(a, v) + WithScore(b, v)
  {
    if b == [] {
      assert a + b == a;
    } else {
      WithScoreConcat(a, b[..|b| - 1], v);
      assert (a + b)[..|a + b| - 1] == a + b[..|b| - 1];
    }
  }

  lemma {:induction false} InsertAdds(sorted: seq<Node>, x: Node)
    ensures multiset(Insert(sorted, x)) == multiset(sorted) + multiset{x}
  {
    if sorted != [] && sorted[|sorted| - 1].score < x.score {
      InsertAdds(sorted[..|sorted| - 1], x);
      assert sorted == sorted[..|sorted| - 1] + [sorted[|sorted| - 1]];
    }
  }

  lemma {:induction false} InsertSorts(sorted: seq<Node>, x: Node)
    requires Descending(sorted)
    ensures Descending(Insert(sorted, x))
  {
    if sorted != [] && sorted[|sorted| - 1].score < x.score {
      var front, last := sorted[..|sorted| - 1], sorted[|sorted| - 1];
      InsertSorts(front, x);
      InsertIsAbove(front, x, last.score);
      LastIsLeast(Insert(front, x), last);
    } else {
      LastIsLeast(sorted, x);
    }
  }

  lemma InsertIsAbove(front: seq<Node>, x: Node, v: real)
    requires x.score >= v && forall y :: y in front ==> y.score >= v
    ensures forall y :: y in Insert(front, x) ==> y.score >= v
  {
    InsertAdds(front, x);
    forall y | y in Insert(front, x) ensures y.score >= v {
      assert y in multiset(Insert(front, x));
    }
  }

  lemma LastIsLeast(front: seq<Node>, last: Node)
    requires Descending(front) && forall y :: y in front ==> y.score >= last.score
    ensures Descending(front + [last])
  {
  }

  lemma WithScoreOne(x: Node, v: real)
    ensures WithScore([x], v) == if x.score == v then [x] else []
  {
    assert [x][..0] == [];
  }

  lemma {:induction false} InsertIsStable(sorted: seq<Node>, x: Node, v: real)
    ensures WithScore(Insert(sorted, x), v) == WithScore(sorted + [x], v)
  {
    hide WithScore;
    if sorted != [] && sorted[|sorted| - 1].score < x.score {
      var front, last := sorted[..|sorted| - 1], sorted[|sorted| - 1];
      InsertIsStable(front, x, v);
      assert sorted == front + [last] && Insert(sorted, x) == Insert(front, x) + [last];
      WithScoreConcat(Insert(front, x), [last], v);
      WithScoreConcat(front, [x], v);
      WithScoreConcat(front, [last], v);
      WithScoreConcat(sorted, [x], v);
      WithScoreOne(x, v);
      WithScoreOne(last, v);
    }
  }

  lemma {:induction false} SortSorts(ns: seq<Node>)
    ensures Descending(SortByScore(ns)) && multiset(SortByScore(ns)) == multiset(ns)
  {
    hide Descending, Insert;
    if ns == [] {
      NothingDescends();
    } else {
      SortSorts(ns[..|ns| - 1]);
      InsertSorts(SortByScore(ns[..|ns| - 1]), ns[|ns| - 1]);
      InsertAdds(SortByScore(ns[..|ns| - 1]), ns[|ns| - 1]);
      assert ns == ns[..|ns| - 1] + [ns[|ns| - 1]];
    }
  }

  lemma NothingDescends()
    ensures Descending([])
  {
  }

  /** Nodes of equal score stay in iteration order. */
  lemma {:induction false} SortIsStable(ns: seq<Node>, v: real)
    ensures WithScore(SortByScore(ns), v) == WithScore(ns, v)
  {
    if ns != [] {
      var front, last := ns[..|ns| - 1], ns[|ns| - 1];
      SortIsStable(front, v);
      assert ns == front + [last];
      InsertIsStable(SortByScore(front), last, v);
      WithScoreConcat(SortByScore(front), [last], v);
      WithScoreConcat(front, [last], v);
    }
  }

  lemma DistinctPermutation(a: seq<Node>, b: seq<Node>)
    requires multiset(a) == multiset(b) && DistinctIds(a)
    ensures DistinctIds(b)
  {
    forall i, j | 0 <= i < j < |b| ensures b[i].id != b[j].id {
      OnceOnly(a, b[i]);
      assert b == b[..i] + [b[i]] + b[i + 1..j] + [b[j]] + b[j + 1..];
      assert b[i] in multiset(b) && b[j] in multiset(b);
      var p :| 0 <= p < |a| && a[p] == b[i];
      var q :| 0 <= q < |a| && a[q] == b[j];
    }
  }

  lemma OnceOnly(a: seq<Node>, x: Node)
    requires DistinctIds(a)
    ensures multiset(a)[x] <= 1
  {
    if x in a {
      var i :| 0 <= i < |a| && a[i] == x;
      assert a == a[..i] + [x] + a[i + 1..];
      assert x !in a[..i] && x !in a[i + 1..];
    }
  }

  lemma SortedHealthy(c: Cluster) returns (sorted: seq<Node>)
    requires ValidCluster(c)
    ensures SelectNodes(c) == Ids(Top(sorted)) && Descending(sorted) && DistinctIds(sorted)
    ensures forall x :: x in sorted <==> x in c.nodes && x.status == Healthy
  {
    var healthy := Filter(c.nodes, IsHealthy);
    sorted := SortByScore(healthy);
    FilterIs(c.nodes, IsHealthy);
    SortSorts(healthy);
    DistinctPermutation(healthy, sorted);
    assert forall x :: x in sorted <==> x in multiset(healthy);
  }

  /** At most three nodes are chosen, all different, and none only when no node is Healthy. */
  lemma SelectionSize(c: Cluster)
    requires ValidCluster(c)
    ensures |SelectNodes(c)| <= MAX_NODES && |Selected(c)| == |SelectNodes(c)|
    ensures Selected(c) == {} <==> forall x :: x in c.nodes ==> x.status != Healthy
  {
    var sorted := SortedHealthy(c);
    var ids := Ids(Top(sorted));
    DistinctSize(ids, SetOf(ids));
    if sorted == [] {
      assert Selected(c) == {};
    } else {
      assert sorted[0] in sorted && ids[0] in Selected(c);
    }
  }

  /** Every chosen node is Healthy, and no Healthy node that was passed over scores higher. */
  lemma SelectionIsTheBest(c: Cluster, x: Node, y: Node)
    requires ValidCluster(c) && x in c.nodes && x.id in Selected(c)
    requires y in c.nodes && y.status == Healthy && y.id !in Selected(c)
    ensures x.status == Healthy && x.score >= y.score
  {
    var sorted := SortedHealthy(c);
    var ids := Ids(Top(sorted));
    assert forall k :: 0 <= k < |ids| ==> ids[k] == sorted[k].id && ids[k] in Selected(c);
    var i :| 0 <= i < |ids| && ids[i] == x.id;
    assert sorted[i] in sorted;
    assert sorted[i] == x;
    var j :| 0 <= j < |sorted| && sorted[j] == y;
  }

  // ----- one node of the ledger -----

  /** One round of the reservation loop. On refusal the entry made for the node stays. */
  function ReserveOne(l: Ledger, n: NodeId, a: Amount, s: SessionId): (Ledger, bool) {
    var held := Held(l, n);
    if held.amount.cpu + a.cpu > CPU_LIMIT then (l[n := held], false)
    else (l[n := Allocation(Plus(held.amount, a), held.active + [s])], true)
  }

  /** `active_sessions.retain(|s| s != session_id)` */
  function Others(active: seq<SessionId>, s: SessionId): seq<SessionId> {
    if active == [] then []
    else
      var rest := Others(active[..|active| - 1], s);
      if active[|active| - 1] != s then rest + [active[|active| - 1]] else rest
  }

  /** One round of the release loop. */
  function ReleaseOne(l: Ledger, n: NodeId, a: Amount, s: SessionId): Ledger {
    if n !in l then l
    else l[n := Allocation(Minus(l[n].amount, a), Others(l[n].active, s))]
  }

  // ----- the even ledger -----

  /** Every chosen node carries `k` units, those in `more` one unit more, and no other node has an entry. */
  ghost predicate Loads(l: Ledger, nodes: set<NodeId>, k: int, more: set<NodeId>) {
    && l.Keys <= nodes
    && forall n :: n in nodes ==> Held(l, n).amount == Times(if n in more then k + 1 else k)
  }

  lemma ReserveRound(l: Ledger, nodes: set<NodeId>, k: int, more: set<NodeId>, n: NodeId, id: SessionId)
    requires Loads(l, nodes, k, more) && n in nodes - more && 0 <= k <= 3
    ensures k <= 2 ==> ReserveOne(l, n, UNIT, id).1 && Loads(ReserveOne(l, n, UNIT, id).0, nodes, k, more + {n})
    ensures k == 3 ==> ReserveOne(l, n, UNIT, id) == (l, false)
  {
    assert Held(l, n).amount == Times(k);
    if k == 3 {
      assert n in l;
      assert l[n := l[n]] == l;
    }
  }

  lemma ReleaseRound(l: Ledger, nodes: set<NodeId>, k: int, more: set<NodeId>, n: NodeId, id: SessionId)
    requires Loads(l, nodes, k, more) && n in nodes * more && 0 <= k
    ensures Loads(ReleaseOne(l, n, UNIT, id), nodes, k, more - {n})
  {
  }

  /** The ledger after reserving a unit for session `id` on each of `nodes`. */
  function ReservedOn(l: Ledger, nodes: set<NodeId>, id: SessionId): Ledger {
    map n | n in l.Keys + nodes ::
      if n in nodes then Allocation(Plus(Held(l, n).amount, UNIT), Held(l, n).active + [id]) else l[n]
  }

  /** The ledger after releasing a unit of session `id` on each of `nodes`. */
  function ReleasedOn(l: Ledger, nodes: set<NodeId>, id: SessionId): Ledger {
    map n | n in l :: if n in nodes then Allocation(Minus(l[n].amount, UNIT), Others(l[n].active, id)) else l[n]
  }

  lemma ReservedOnNothing(l: Ledger, id: SessionId)
    ensures ReservedOn(l, {}, id) == l && ReleasedOn(l, {}, id) == l
  {
  }

  lemma ReservedOnMore(l: Ledger, nodes: set<NodeId>, n: NodeId, id: SessionId)
    requires n !in nodes
    ensures Held(ReservedOn(l, nodes, id), n) == Held(l, n)
    ensures ReserveOne(ReservedOn(l, nodes, id), n, UNIT, id).1 ==>
              ReserveOne(ReservedOn(l, nodes, id), n, UNIT, id).0 == ReservedOn(l, nodes + {n}, id)
  {
  }

  lemma ReleasedOnMore(l: Ledger, nodes: set<NodeId>, n: NodeId, id: SessionId)
    requires n !in nodes
    ensures ReleaseOne(ReleasedOn(l, nodes, id), n, UNIT, id) == ReleasedOn(l, nodes + {n}, id)
  {
  }

  /** At the load limit a node already has its entry, so a refusal leaves the ledger untouched. */
  lemma RefusalChangesNothing(l: Ledger, n: NodeId, id: SessionId)
    requires Held(l, n).amount == Times(3)
    ensures ReserveOne(l, n, UNIT, id) == (l, false)
  {
    assert n in l;
    assert l[n := l[n]] == l;
  }

  /** One round of a reservation loop that has done the nodes in `done` of an even ledger. */
  lemma RoundOnEven(l: Ledger, nodes: set<NodeId>, done: set<NodeId>, k: int, n: NodeId, id: SessionId)
    requires Loads(l, nodes, k, {}) && n in nodes - done && k <= 3 && (done != {} ==> k <= 2)
    ensures k <= 2 ==> ReserveOne(ReservedOn(l, done, id), n, UNIT, id) == (ReservedOn(l, done + {n}, id), true)
    ensures k == 3 ==> done == {} && ReserveOne(ReservedOn(l, done, id), n, UNIT, id) == (l, false)
  {
    ReservedOnMore(l, done, n, id);
    ReservedOnNothing(l, id);
    assert Held(l, n).amount == Times(k);
    if k == 3 {
      RefusalChangesNothing(l, n, id);
    }
  }

  /** The reservation loop in the order the node map happens to give; it stops at the first refusal. */
  function ReserveAll(l: Ledger, order: seq<NodeId>, id: SessionId): (Ledger, bool) {
    if order == [] then (l, true)
    else
      var (before, ok) := ReserveAll(l, order[..|order| - 1], id);
      if ok then ReserveOne(before, order[|order| - 1], UNIT, id) else (before, false)
  }

  lemma ReserveAllOfNothing(l: Ledger, id: SessionId)
    ensures ReserveAll(l, [], id) == (l, true) && SetOf([]) == {} && Distinct<NodeId>([])
  {
  }

  lemma OrderGrows(l: Ledger, order: seq<NodeId>, n: NodeId, id: SessionId)
    requires Distinct(order) && n !in SetOf(order)
    ensures Distinct(order + [n]) && SetOf(order + [n]) == SetOf(order) + {n}
    ensures ReserveAll(l, order, id).1 ==>
              ReserveAll(l, order + [n], id) == ReserveOne(ReserveAll(l, order, id).0, n, UNIT, id)
  {
    assert forall x :: x in order ==> x in SetOf(order);
    assert (order + [n])[..|order|] == order;
  }

  lemma FullNode(l: Ledger, nodes: set<NodeId>, n: NodeId)
    requires Loads(l, nodes, 3, {}) && n in nodes
    ensures Held(l, n).amount == Times(3)
  {
  }

  /** On an even ledger the order does not matter: all nodes or none. */
  lemma {:induction false} ReserveAllOnEven(l: Ledger, nodes: set<NodeId>, order: seq<NodeId>, k: int, id: SessionId)
    requires Loads(l, nodes, k, {}) && k <= 3 && SetOf(order) <= nodes && Distinct(order)
    ensures k <= 2 ==> ReserveAll(l, order, id) == (ReservedOn(l, SetOf(order), id), true)
    ensures k == 3 && order != [] ==> ReserveAll(l, order, id) == (l, false)
  {
    hide ReserveOne, ReservedOn, Loads;
    if order == [] {
      assert SetOf(order) == {};
      ReservedOnNothing(l, id);
    } else {
      var front, last := order[..|order| - 1], order[|order| - 1];
      assert order == front + [last] && last !in SetOf(front);
      OrderGrows(l, front, last, id);
      ReserveAllOnEven(l, nodes, front, k, id);
      if k <= 2 {
        RoundOnEven(l, nodes, SetOf(front), k, last, id);
      } else if front == [] {
        FullNode(l, nodes, last);
        RefusalChangesNothing(l, last, id);
      }
    }
  }

  lemma ReservedLoads(l: Ledger, nodes: set<NodeId>, k: int, id: SessionId)
    requires Loads(l, nodes, k, {})
    ensures Loads(ReservedOn(l, nodes, id), nodes, k + 1, {})
  {
  }

  lemma ReleasedLoads(l: Ledger, nodes: set<NodeId>, k: int, id: SessionId)
    requires Loads(l, nodes, k, {}) && k >= 1
    ensures l.Keys == nodes && Loads(ReleasedOn(l, nodes, id), nodes, k - 1, {})
  {
    forall n | n in nodes ensures n in l {
      assert Held(l, n).amount == Times(k);
    }
  }

  /** Releasing a node right after reserving it for a new session leaves its entry as it was. */
  lemma ReleaseUndoesReserve(l: Ledger, n: NodeId, id: SessionId)
    requires ReserveOne(l, n, UNIT, id).1 && id !in Held(l, n).active
    ensures Held(ReleaseOne(ReserveOne(l, n, UNIT, id).0, n, UNIT, id), n) == Held(l, n)
  {
    hide Others;
    var held := Held(l, n);
    OthersAbsent(held.active, id);
    OthersOfOneMore(held.active, id);
    var l' := ReserveOne(l, n, UNIT, id).0;
    assert l'[n] == Allocation(Plus(held.amount, UNIT), held.active + [id]);
    assert Minus(Plus(held.amount, UNIT), UNIT) == held.amount;
  }

  lemma OthersOfOneMore(active: seq<SessionId>, id: SessionId)
    ensures Others(active + [id], id) == Others(active, id)
  {
    assert (active + [id])[..|active|] == active;
  }

  lemma {:induction false} OthersAbsent(active: seq<SessionId>, id: SessionId)
    requires id !in active
    ensures Others(active, id) == active
  {
    if active != [] {
      OthersAbsent(active[..|active| - 1], id);
      assert active == active[..|active| - 1] + [active[|active| - 1]];
    }
  }

  lemma {:induction false} OthersAre(active: seq<SessionId>, id: SessionId)
    ensures forall x :: multiset(Others(active, id))[x] == if x == id then 0 else multiset(active)[x]
  {
    if active != [] {
      OthersAre(active[..|active| - 1], id);
      assert active == active[..|active| - 1] + [active[|active| - 1]];
    }
  }

  /** The other sessions stay in their order. */
  lemma {:induction false} OthersKeep(active: seq<SessionId>, id: SessionId)
    ensures Keeps(active, Others(active, id), (x: SessionId) => x != id)
  {
    hide Keeps;
    if active == [] {
      KeepsNothing((x: SessionId) => x != id);
    } else {
      var front, last := active[..|active| - 1], active[|active| - 1];
      OthersKeep(front, id);
      KeepsOneMore(front, Others(front, id), (x: SessionId) => x != id, last);
      assert active == front + [last];
    }
  }

  // ----- totals -----

  ghost function Total(l: Ledger): Amount {
    if l == map[] then Amount(0, 0, 0)
    else
      var n :| n in l;
      Plus(l[n].amount, Total(l - {n}))
  }

  lemma PlusCommutes(a: Amount, b: Amount, c: Amount)
    ensures Plus(a, Plus(b, c)) == Plus(b, Plus(a, c))
  {
  }

  lemma {:induction false} TotalWithout(l: Ledger, x: NodeId)
    requires x in l
    ensures Total(l) == Plus(l[x].amount, Total(l - {x}))
    decreases |l|
  {
    var n :| n in l && Total(l) == Plus(l[n].amount, Total(l - {n}));
    if n == x {
    } else {
      TotalWithout(l - {n}, x);
      TotalWithout(l - {x}, n);
      var rest := (l - {n}) - {x};
      assert rest == (l - {x}) - {n};
      assert Total(l - {n}) == Plus(l[x].amount, Total(rest));
      assert Total(l - {x}) == Plus(l[n].amount, Total(rest));
      PlusCommutes(l[n].amount, l[x].amount, Total(rest));
    }
  }

  lemma TimesStep(k: int, m: nat)
    ensures Plus(Times(k), Times(k * m)) == Times(k * (m + 1))
  {
    assert k * (m + 1) == k + k * m;
  }

  lemma {:induction false} TotalOfEqual(l: Ledger, k: int)
    requires forall n :: n in l ==> l[n].amount == Times(k)
    ensures Total(l) == Times(k * |l|)
    decreases |l|
  {
    if l != map[] {
      var n :| n in l;
      TotalWithout(l, n);
      TotalOfEqual(l - {n}, k);
      assert |l - {n}| == |l| - 1 by {
        assert (l - {n}).Keys == l.Keys - {n};
      }
      TimesStep(k, |l| - 1);
    }
  }

  lemma NothingTimes(m: nat, n: nat)
    ensures Times(0 * m) == Times(0 * n)
  {
  }

  /** An even ledger has an entry for every chosen node, or it is not loaded. */
  lemma EvenIsFull(l: Ledger, nodes: set<NodeId>, k: int)
    requires Loads(l, nodes, k, {})
    ensures k == 0 || (l.Keys == nodes && |l| == |nodes|)
    ensures forall n :: n in l ==> l[n].amount == Times(k)
  {
    assert forall n :: n in l ==> Held(l, n).amount == Times(k);
    if n :| n in nodes && n !in l {
      assert Held(l, n).amount == Times(k);
    } else {
      assert l.Keys == nodes;
    }
  }

  /** An even ledger adds up to its load times the number of chosen nodes. */
  lemma TotalOfEven(l: Ledger, nodes: set<NodeId>, k: int)
    requires Loads(l, nodes, k, {})
    ensures Total(l) == Times(k * |nodes|)
  {
    hide Total, Times, Loads;
    EvenIsFull(l, nodes, k);
    TotalOfEqual(l, k);
    if k == 0 {
      NothingTimes(|l|, |nodes|);
    }
  }
}
