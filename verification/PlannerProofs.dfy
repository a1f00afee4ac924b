/** What the plans of `Planner` guarantee. */
module PlannerProofs {
  import opened Wrappers
  import opened ClusterTypes
  import opened Float32
  import opened Integers
  import opened Planner

  function CeilDiv(a: nat, b: nat): nat
    requires b > 0
  {
    (a + b - 1) / b
  }

  // ----- the ceiling of a rounded quotient -----

  lemma CeilDivIs(a: nat, b: nat)
    requires a > 0 && b > 0
    ensures var q := CeilDiv(a, b) - 1; 0 <= q && q * b < a <= q * b + b
  {
  }

  lemma CeilDivOfNothing(b: nat)
    requires b > 0
    ensures CeilDiv(0, b) == 0
  {
  }

  lemma RealQuotient(a: nat, b: nat, x: real)
    requires b > 0 && x == a as real / b as real
    ensures x * b as real == a as real
  {
  }

  lemma LessByProduct(x: real, y: real, b: real)
    requires b > 0.0 && x * b < y * b
    ensures x < y
  {
  }

  lemma AtMostByProduct(x: real, y: real, b: real)
    requires b > 0.0 && x * b <= y * b
    ensures x <= y
  {
  }

  lemma RealProduct(q: nat, b: nat)
    ensures q as real * b as real == (q * b) as real
  {
  }

  lemma NextProduct(q: nat, b: nat)
    ensures (q + 1) * b == q * b + b
  {
  }

  lemma RealBounds(q: nat, a: nat, b: nat)
    requires q * b < a <= q * b + b
    ensures q as real * b as real < a as real <= (q + 1) as real * b as real
  {
    RealProduct(q, b);
    RealProduct(q + 1, b);
    NextProduct(q, b);
  }

  /** The quotient lies strictly between the whole numbers around it, or on the upper one. */
  lemma QuotientBounds(a: nat, b: nat, x: real)
    requires a > 0 && b > 0 && x == a as real / b as real
    ensures (CeilDiv(a, b) - 1) as real < x <= CeilDiv(a, b) as real
  {
    hide CeilDiv;
    var q := CeilDiv(a, b) - 1;
    CeilDivIs(a, b);
    RealQuotient(a, b, x);
    RealBounds(q, a, b);
    BetweenProducts(q as real, x, (q + 1) as real, b as real, a as real);
  }

  lemma BetweenProducts(lo: real, x: real, hi: real, b: real, a: real)
    requires b > 0.0 && x * b == a && lo * b < a <= hi * b
    ensures lo < x <= hi
  {
    LessByProduct(lo, x, b);
    AtMostByProduct(x, hi, b);
  }

  lemma ScaleDown(z: real, b: real, q: real, w: real)
    requires z * w == q && q * b < w && w > 0.0
    ensures z * b < 1.0
  {
    assert (z * b) * w == q * b;
    LessByProduct(z * b, 1.0, w);
  }

  /** One b-th is more than half the spacing of numbers below `q + 1` when `q * b` is below 2^24. */
  lemma StepExceedsSpacing(q: nat, b: nat, t: real)
    requires b > 0 && q * b < P24 && t * b as real >= 1.0
    ensures t > q as real / P24 as real
  {
    var z := q as real / P24 as real;
    RealProduct(q, b);
    ScaleDown(z, b as real, q as real, P24 as real);
    LessByProduct(z, t, b as real);
  }

  /** A power of two that fits under `x < q + 1` fits under `q`. */
  lemma PowerFits(x: real, e: int, q: nat)
    requires q >= 1 && q as real < x < (q + 1) as real && Pow2(e) <= x < Pow2(e + 1)
    ensures Pow2(e) <= q as real
  {
    assert Pow2(0) == 1.0;
    if e < 0 {
      Pow2Monotone(e + 1, 0);
    } else {
      Pow2IsInt(e);
      WholeFits(IntPow2(e), x, q);
    }
  }

  lemma WholeFits(p: int, x: real, q: int)
    requires p as real <= x < (q + 1) as real
    ensures p as real <= q as real
  {
    assert p < q + 1;
  }

  lemma RoundsAboveWhole(x: real, q: nat)
    requires q >= 1 && q as real < x < (q + 1) as real && x - q as real > q as real / P24 as real
    ensures Round(x) > q as real
  {
    Binade(x);
    PowerFits(x, Exponent(x), q);
    RoundNear(x);
    ScaleIsProduct(P23, Ulp(x));
  }

  lemma FractionAboveWhole(a: nat, b: nat, q: nat, x: real)
    requires a > 0 && b > 0 && x == a as real / b as real && q * b < a
    ensures (x - q as real) * b as real >= 1.0
  {
    RealQuotient(a, b, x);
    assert (x - q as real) * b as real == x * b as real - q as real * b as real;
    RealProduct(q, b);
  }

  /** Rounding never takes the quotient down onto the whole number below it. */
  lemma StaysAboveWhole(a: nat, b: nat, x: real)
    requires 0 < a <= P24 && b > 0 && x == a as real / b as real
    ensures (CeilDiv(a, b) - 1) as real < Round(x)
  {
    hide CeilDiv, Round;
    var q := CeilDiv(a, b) - 1;
    CeilDivIs(a, b);
    QuotientBounds(a, b, x);
    if q == 0 {
      RoundNonNegative(x);
    } else if x == (q + 1) as real {
      CeilAtMost(a, b);
      RoundExact(q + 1);
    } else {
      FractionAboveWhole(a, b, q, x);
      StepExceedsSpacing(q, b, x - q as real);
      RoundsAboveWhole(x, q);
    }
  }

  /**
   For up to 2^24 layers and nodes the single-precision ceiling is the exact one: the
   quotient is rounded neither onto the whole number below nor past the one above.
   */
  lemma LayersPerNodeIsExact(layers: nat, nodes: nat)
    requires layers <= P24 && 0 < nodes <= P24
    ensures LayersPerNode(layers, nodes) == CeilDiv(layers, nodes)
  {
    RoundExact(layers);
    RoundExact(nodes);
    if layers == 0 {
      assert (nodes - 1) / nodes == 0;
      assert 0.0 / nodes as real == 0.0;
    } else {
      var x := layers as real / nodes as real;
      var c := CeilDiv(layers, nodes);
      QuotientBounds(layers, nodes, x);
      StaysAboveWhole(layers, nodes, x);
      CeilAtMost(layers, nodes);
      RoundExact(c);
      RoundMonotone(x, c as real);
      assert Ceil(Round(x)) == c;
    }
  }

  lemma CeilAtMost(a: nat, b: nat)
    requires a > 0 && b > 0
    ensures CeilDiv(a, b) <= a
  {
    hide CeilDiv;
    CeilDivIs(a, b);
    ProductMonotone(1, b, CeilDiv(a, b) - 1);
  }

  // ----- the shape of the stages -----

  function Min(a: nat, b: nat): nat {
    if a < b then a else b
  }

  /** Where block `j` begins: `j * per`. */
  function Start(j: nat, per: nat): nat {
    if j == 0 then 0 else Start(j - 1, per) + per
  }

  lemma {:induction false} StartIsProduct(j: nat, per: nat)
    ensures Start(j, per) == j * per
  {
    if j > 0 {
      StartIsProduct(j - 1, per);
      assert j * per == (j - 1) * per + per;
    }
  }

  /** Stage `j` of a pipeline over `nodes`. */
  ghost predicate IsStage(s: Stage, nodes: seq<Node>, j: nat, per: u32, m: Model, a: Arithmetic) {
    && j < |nodes| && s.id == j && s.nodeId == nodes[j].id && s.device == SelectDevice(nodes[j])
    && s.layers == Range(Start(j, per), Min(Start(j + 1, per), m.layerCount))
    && s.weightBytes == a.weigh(|s.layers|, m.weightBytes, m.layerCount)
    && Start(j, per) < m.layerCount && Start(j, per) < Start(j + 1, per) < 0x1_0000_0000
  }

  /** The stages and the counter after `k` rounds of the loop. */
  ghost predicate Shape(nodes: seq<Node>, k: nat, per: u32, m: Model, a: Arithmetic, stages: seq<Stage>, current: nat) {
    && |stages| <= k <= |nodes|
    && (forall j :: 0 <= j < |stages| ==> IsStage(stages[j], nodes, j, per, m, a))
    && current == Min(Start(|stages|, per), m.layerCount)
    && (|stages| < k ==> EndLayer(current, per, m.layerCount) <= current)
  }

  lemma ShapeGrows(nodes: seq<Node>, k: nat, per: u32, m: Model, a: Arithmetic,
                   before: seq<Stage>, current: nat, s: Stage)
    requires Shape(nodes, k, per, m, a, before, current) && k < |nodes|
    requires current < EndLayer(current, per, m.layerCount)
    requires s.id == k && s.nodeId == nodes[k].id && s.device == SelectDevice(nodes[k])
    requires s.layers == Range(current, EndLayer(current, per, m.layerCount))
    requires s.weightBytes == a.weigh(|s.layers|, m.weightBytes, m.layerCount)
    ensures Shape(nodes, k + 1, per, m, a, before + [s], EndLayer(current, per, m.layerCount))
  {
    Unwrapped(current, per, m.layerCount);
    assert |before| == k;
    assert IsStage(s, nodes, k, per, m, a);
  }

  lemma StageStep(nodes: seq<Node>, k: nat, per: u32, m: Model, a: Arithmetic, before: seq<Stage>, current: nat)
    requires 0 < k <= |nodes| && (before, current) == StagesUpTo(nodes, k - 1, per, m, a)
    ensures EndLayer(current, per, m.layerCount) <= current ==> StagesUpTo(nodes, k, per, m, a) == (before, current)
    ensures current < EndLayer(current, per, m.layerCount) ==>
              var layers := Range(current, EndLayer(current, per, m.layerCount));
              StagesUpTo(nodes, k, per, m, a) ==
              (before + [Stage(k - 1, nodes[k - 1].id, SelectDevice(nodes[k - 1]), layers,
                               a.weigh(|layers|, m.weightBytes, m.layerCount))],
               EndLayer(current, per, m.layerCount))
  {
  }

  /** The nodes get consecutive blocks of `per` layers until the layers run out or the counter wraps. */
  lemma {:induction false} StageShape(nodes: seq<Node>, k: nat, per: u32, m: Model, a: Arithmetic)
    requires k <= |nodes|
    ensures Shape(nodes, k, per, m, a, StagesUpTo(nodes, k, per, m, a).0, StagesUpTo(nodes, k, per, m, a).1)
  {
    if k > 0 {
      StageShape(nodes, k - 1, per, m, a);
      var (before, current) := StagesUpTo(nodes, k - 1, per, m, a);
      StageStep(nodes, k, per, m, a, before, current);
      if current < EndLayer(current, per, m.layerCount) {
        ShapeGrows(nodes, k - 1, per, m, a, before, current, StagesUpTo(nodes, k, per, m, a).0[|before|]);
      }
    }
  }

  lemma Unwrapped(current: nat, per: u32, layerCount: u32)
    requires current <= layerCount && EndLayer(current, per, layerCount) > current
    ensures 0 < current + per < 0x1_0000_0000 && EndLayer(current, per, layerCount) == Min(current + per, layerCount)
  {
  }

  function Concat(stages: seq<Stage>): seq<nat> {
    if stages == [] then [] else Concat(stages[..|stages| - 1]) + stages[|stages| - 1].layers
  }

  lemma ConcatOne(stages: seq<Stage>, s: Stage)
    ensures Concat(stages + [s]) == Concat(stages) + s.layers
  {
    assert (stages + [s])[..|stages|] == stages;
  }

  lemma RangeSplit(a: nat, b: nat, c: nat)
    requires a <= b <= c
    ensures Range(a, b) + Range(b, c) == Range(a, c)
  {
  }

  /** The stages' layers, one after another, are the layers before the counter. */
  lemma {:induction false} StagesAreConsecutive(nodes: seq<Node>, k: nat, per: u32, m: Model, a: Arithmetic)
    requires k <= |nodes|
    ensures Concat(StagesUpTo(nodes, k, per, m, a).0) == Range(0, StagesUpTo(nodes, k, per, m, a).1)
  {
    if k > 0 {
      StagesAreConsecutive(nodes, k - 1, per, m, a);
      var (before, current) := StagesUpTo(nodes, k - 1, per, m, a);
      var end := EndLayer(current, per, m.layerCount);
      StageStep(nodes, k, per, m, a, before, current);
      if current < end {
        ConcatOne(before, StagesUpTo(nodes, k, per, m, a).0[|before|]);
        RangeSplit(0, current, end);
      }
    }
  }

  // ----- when the stages cover the model -----

  /** The blocks reach the last layer, and the 32-bit counter does not wrap before it. */
  predicate Covers(layers: u32, nodes: nat, per: u32) {
    layers == 0 || (per > 0 && CeilDiv(layers, per) <= nodes && CeilDiv(layers, per) * per < 0x1_0000_0000)
  }

  lemma ProductMonotone(a: nat, b: nat, c: nat)
    requires a <= b
    ensures a * c <= b * c
  {
  }

  lemma BlocksUntil(layers: nat, per: nat, blocks: nat)
    requires layers > 0 && per > 0
    ensures blocks * per >= layers <==> blocks >= CeilDiv(layers, per)
  {
    CeilDivIs(layers, per);
    var c := CeilDiv(layers, per);
    if blocks >= c {
      ProductMonotone(c, blocks, per);
      assert c * per == (c - 1) * per + per;
    } else {
      ProductMonotone(blocks, c - 1, per);
    }
  }

  lemma ReachedMeansCovers(n: nat, nodes: nat, per: u32, layers: u32)
    requires 0 < n <= nodes && 0 < Start(n, per) < 0x1_0000_0000 && Start(n, per) >= layers > 0
    ensures Covers(layers, nodes, per)
  {
    StartIsProduct(n, per);
    assert per > 0;
    BlocksUntil(layers, per, n);
    ProductMonotone(CeilDiv(layers, per), n, per);
  }

  lemma CoversMeansReached(n: nat, nodes: nat, per: u32, layers: u32)
    requires layers > 0 && Covers(layers, nodes, per) && n <= nodes
    requires n < nodes ==> EndLayer(Min(Start(n, per), layers), per, layers) <= Min(Start(n, per), layers)
    ensures Start(n, per) >= layers
  {
    StartIsProduct(n, per);
    StartIsProduct(n + 1, per);
    BlocksUntil(layers, per, n);
    if n < CeilDiv(layers, per) {
      ProductMonotone(n + 1, CeilDiv(layers, per), per);
    }
  }

  /** The loop reaches the last layer if and only if the blocks do, without wrapping. */
  lemma PipelineCoversIff(nodes: seq<Node>, per: u32, m: Model, a: Arithmetic)
    ensures StagesUpTo(nodes, |nodes|, per, m, a).1 == m.layerCount <==> Covers(m.layerCount, |nodes|, per)
  {
    var stages := StagesUpTo(nodes, |nodes|, per, m, a).0;
    StageShape(nodes, |nodes|, per, m, a);
    if Start(|stages|, per) >= m.layerCount > 0 {
      assert IsStage(stages[|stages| - 1], nodes, |stages| - 1, per, m, a);
      ReachedMeansCovers(|stages|, |nodes|, per, m.layerCount);
    } else if m.layerCount > 0 && Covers(m.layerCount, |nodes|, per) {
      CoversMeansReached(|stages|, |nodes|, per, m.layerCount);
    }
  }

  lemma ExactBlocksCover(layers: nat, nodes: nat, per: nat)
    requires 0 < layers <= P24 && 0 < nodes && per == CeilDiv(layers, nodes)
    ensures Covers(layers, nodes, per)
  {
    CeilDivIs(layers, nodes);
    CeilAtMost(layers, nodes);
    assert nodes * per == (per - 1) * nodes + nodes;
    BlocksUntil(layers, per, nodes);
    CeilDivIs(layers, per);
    var blocks := CeilDiv(layers, per);
    assert blocks * per == (blocks - 1) * per + per;
  }

  // ----- whole plans -----

  /** The nodes a strategy cuts the model over. */
  function Used(nodes: seq<Node>, strategy: Strategy): seq<Node> {
    var available := Filter(nodes, IsHealthy);
    var gpuNodes := Filter(available, HasGpu);
    if strategy == PipelineHybrid && gpuNodes != [] then gpuNodes else available
  }

  /** Whether a hybrid plan has a CPU-only node to give left-over layers to. */
  predicate HasTail(nodes: seq<Node>, strategy: Strategy) {
    var available := Filter(nodes, IsHealthy);
    strategy == PipelineHybrid && Filter(available, HasGpu) != [] && Filter(available, CpuOnly) != []
  }

  /** Stages are numbered by position, lie on different Healthy nodes and are not empty. */
  ghost predicate WellPlaced(stages: seq<Stage>, nodes: seq<Node>) {
    && (forall j :: 0 <= j < |stages| ==> stages[j].id == j && stages[j].layers != [])
    && (forall i, j :: 0 <= i < j < |stages| ==> stages[i].nodeId != stages[j].nodeId)
    && (forall j :: 0 <= j < |stages| ==> exists n :: n in nodes && n.id == stages[j].nodeId && n.status == Healthy)
  }

  lemma PipelineIsPlaced(ns: seq<Node>, nodes: seq<Node>, m: Model, a: Arithmetic)
    requires DistinctIds(ns) && forall n :: n in ns ==> n in nodes && n.status == Healthy
    ensures WellPlaced(PipelineStages(ns, m, a).0, nodes) && |PipelineStages(ns, m, a).0| <= |ns|
    ensures forall j :: 0 <= j < |PipelineStages(ns, m, a).0| ==> PipelineStages(ns, m, a).0[j].nodeId == ns[j].id
  {
    var per := a.perNode(m.layerCount, |ns|);
    var stages := PipelineStages(ns, m, a).0;
    StageShape(ns, |ns|, per, m, a);
    forall j | 0 <= j < |stages|
      ensures stages[j].id == j && stages[j].layers != [] && stages[j].nodeId == ns[j].id
      ensures exists n :: n in nodes && n.id == stages[j].nodeId && n.status == Healthy
    {
      assert IsStage(stages[j], ns, j, per, m, a);
      assert ns[j] in ns;
    }
  }

  lemma UsedIs(nodes: seq<Node>, strategy: Strategy)
    requires DistinctIds(nodes) && Filter(nodes, IsHealthy) != []
    ensures var ns := Used(nodes, strategy);
            0 < |ns| <= |nodes| && DistinctIds(ns) && forall n :: n in ns ==> n in nodes && n.status == Healthy
  {
    FilterIs(nodes, IsHealthy);
    FilterIs(Filter(nodes, IsHealthy), HasGpu);
  }

  ghost predicate SomeNodeIsHealthy(nodes: seq<Node>) {
    exists n :: n in nodes && n.status == Healthy
  }

  lemma HealthyIsUsed(nodes: seq<Node>)
    requires SomeNodeIsHealthy(nodes)
    ensures Filter(nodes, IsHealthy) != []
  {
    FilterIs(nodes, IsHealthy);
  }

  /** A plan exists if and only if some node is Healthy, whatever the model, the strategy and the estimates. */
  lemma PlanExistsIff(nodes: seq<Node>, m: Model, strategy: Strategy, a: Arithmetic)
    ensures Plan(nodes, m, strategy, a).Success? <==> exists n :: n in nodes && n.status == Healthy
    ensures Plan(nodes, m, strategy, a).Failure? ==> Plan(nodes, m, strategy, a).error == NoAvailableNodes
  {
    FilterIs(nodes, IsHealthy);
    var available := Filter(nodes, IsHealthy);
    if available != [] {
      assert available[0] in available;
    }
  }

  /** A plan is the pipeline over the nodes it uses, plus possibly a last CPU stage on another node. */
  lemma PlanIs(nodes: seq<Node>, m: Model, strategy: Strategy, a: Arithmetic)
    requires Plan(nodes, m, strategy, a).Success?
    ensures var ns, stages := Used(nodes, strategy), Plan(nodes, m, strategy, a).value;
            var (piped, current) := PipelineStages(ns, m, a);
            && ns != [] && |piped| <= |stages| <= |piped| + 1 && stages[..|piped|] == piped
            && (|stages| > |piped| <==> current < m.layerCount && HasTail(nodes, strategy))
            && (|stages| > |piped| ==>
                  var tail := stages[|piped|];
                  && tail.id == |piped| && tail.device == "cpu:0" && tail.layers == Range(current, m.layerCount)
                  && tail.weightBytes == a.weigh(|tail.layers|, m.weightBytes, m.layerCount)
                  && tail.nodeId == Filter(Filter(nodes, IsHealthy), CpuOnly)[0].id)
  {
  }

  lemma TailIsElsewhere(nodes: seq<Node>, strategy: Strategy, n: Node)
    requires DistinctIds(nodes) && HasTail(nodes, strategy) && n in Used(nodes, strategy)
    ensures var tail := Filter(Filter(nodes, IsHealthy), CpuOnly)[0];
            n.id != tail.id && tail in nodes && tail.status == Healthy
  {
    var available := Filter(nodes, IsHealthy);
    FilterIs(nodes, IsHealthy);
    FilterIs(available, CpuOnly);
    FilterIs(available, HasGpu);
    var tail := Filter(available, CpuOnly)[0];
    assert tail in Filter(available, CpuOnly);
    SameId(available, n, tail);
  }

  lemma SameId(ns: seq<Node>, a: Node, b: Node)
    requires DistinctIds(ns) && a in ns && b in ns && a != b
    ensures a.id != b.id
  {
    var i :| 0 <= i < |ns| && ns[i] == a;
    var j :| 0 <= j < |ns| && ns[j] == b;
  }

  /** In every plan the stages are well placed, whatever the estimates are. */
  lemma PlanIsPlaced(nodes: seq<Node>, m: Model, strategy: Strategy, a: Arithmetic, stages: seq<Stage>)
    requires DistinctIds(nodes) && Plan(nodes, m, strategy, a) == Success(stages)
    ensures WellPlaced(stages, nodes)
  {
    var ns := Used(nodes, strategy);
    var (piped, current) := PipelineStages(ns, m, a);
    PlanIs(nodes, m, strategy, a);
    UsedIs(nodes, strategy);
    PipelineIsPlaced(ns, nodes, m, a);
    forall j | 0 <= j < |piped| ensures stages[j] == piped[j] {
      assert stages[..|piped|][j] == stages[j];
    }
    if |stages| > |piped| {
      forall n | n in ns ensures n.id != stages[|piped|].nodeId {
        TailIsElsewhere(nodes, strategy, n);
      }
      TailIsElsewhere(nodes, strategy, ns[0]);
    }
  }

  /**
   The layers of the stages, one after another, are an initial run of the model's layers;
   they are all of them if and only if the blocks of the chosen nodes cover the model or a
   hybrid plan has a CPU-only node for the rest.
   */
  lemma PlanCoversIff(nodes: seq<Node>, m: Model, strategy: Strategy, a: Arithmetic, stages: seq<Stage>)
    requires Plan(nodes, m, strategy, a) == Success(stages)
    ensures |Concat(stages)| <= m.layerCount && Concat(stages) == Range(0, |Concat(stages)|)
    ensures Concat(stages) == Range(0, m.layerCount) <==>
              Covers(m.layerCount, |Used(nodes, strategy)|, a.perNode(m.layerCount, |Used(nodes, strategy)|))
              || HasTail(nodes, strategy)
  {
    var ns := Used(nodes, strategy);
    var per := a.perNode(m.layerCount, |ns|);
    var (piped, current) := PipelineStages(ns, m, a);
    PlanIs(nodes, m, strategy, a);
    StagesAreConsecutive(ns, |ns|, per, m, a);
    PipelineCoversIff(ns, per, m, a);
    if |stages| > |piped| {
      assert stages == piped + [stages[|piped|]];
      ConcatOne(piped, stages[|piped|]);
      RangeSplit(0, current, m.layerCount);
    } else {
      assert stages == piped;
    }
  }

  /** When the number of layers per node is the exact ceiling, nothing is left over and the CPU stage is not used. */
  lemma ExactEstimateCovers(nodes: seq<Node>, m: Model, strategy: Strategy, a: Arithmetic, stages: seq<Stage>)
    requires Plan(nodes, m, strategy, a) == Success(stages) && Used(nodes, strategy) != []
    requires a.perNode(m.layerCount, |Used(nodes, strategy)|) == CeilDiv(m.layerCount, |Used(nodes, strategy)|)
    requires m.layerCount <= P24 && |Used(nodes, strategy)| <= P24
    ensures Concat(stages) == Range(0, m.layerCount)
    ensures stages == PipelineStages(Used(nodes, strategy), m, a).0
  {
    var ns := Used(nodes, strategy);
    var per := a.perNode(m.layerCount, |ns|);
    PlanIs(nodes, m, strategy, a);
    if m.layerCount > 0 {
      ExactBlocksCover(m.layerCount, |ns|, per);
    }
    PlanCoversIff(nodes, m, strategy, a, stages);
    PipelineCoversIff(ns, per, m, a);
  }

  /**
   Up to 2^24 layers on up to 2^24 nodes every strategy covers the model exactly, and a
   hybrid plan never uses its CPU stage.
   */
  lemma SmallPlansCover(nodes: seq<Node>, m: Model, strategy: Strategy) returns (stages: seq<Stage>)
    requires DistinctIds(nodes) && SomeNodeIsHealthy(nodes)
    requires m.layerCount <= P24 && |nodes| <= P24
    ensures Plan(nodes, m, strategy, Single()) == Success(stages)
    ensures Concat(stages) == Range(0, m.layerCount)
    ensures stages == PipelineStages(Used(nodes, strategy), m, Single()).0
  {
    hide PipelineStages, Plan;
    PlanExistsIff(nodes, m, strategy, Single());
    stages := Plan(nodes, m, strategy, Single()).value;
    HealthyIsUsed(nodes);
    UsedIs(nodes, strategy);
    LayersPerNodeIsExact(m.layerCount, |Used(nodes, strategy)|);
    ExactEstimateCovers(nodes, m, strategy, Single(), stages);
  }

  // ----- balance -----

  function SumOf(sizes: seq<nat>): nat {
    if sizes == [] then 0 else SumOf(sizes[..|sizes| - 1]) + sizes[|sizes| - 1]
  }

  lemma {:induction false} SumBelow(sizes: seq<nat>, bound: nat)
    requires forall i :: 0 <= i < |sizes| ==> sizes[i] <= bound
    ensures SumOf(sizes) <= bound * |sizes|
  {
    if sizes != [] {
      SumBelow(sizes[..|sizes| - 1], bound);
      assert bound * |sizes| == bound * (|sizes| - 1) + bound;
    }
  }

  /** Any way of giving out the layers leaves some node with at least the ceiling of the average. */
  lemma NoSplitIsBetter(sizes: seq<nat>)
    requires sizes != []
    ensures exists i :: 0 <= i < |sizes| && sizes[i] >= CeilDiv(SumOf(sizes), |sizes|)
  {
    hide CeilDiv;
    var share := CeilDiv(SumOf(sizes), |sizes|);
    if SumOf(sizes) == 0 {
      CeilDivOfNothing(|sizes|);
      assert sizes[0] >= share;
    } else {
      CeilDivIs(SumOf(sizes), |sizes|);
      if forall i :: 0 <= i < |sizes| ==> sizes[i] <= share - 1 {
        SumBelow(sizes, share - 1);
      }
    }
  }

  /** When the number of layers per node is the exact ceiling, the first stage has that many and no stage has more. */
  lemma ExactEstimateBalances(nodes: seq<Node>, m: Model, strategy: Strategy, a: Arithmetic, stages: seq<Stage>)
    requires Plan(nodes, m, strategy, a) == Success(stages) && Used(nodes, strategy) != []
    requires a.perNode(m.layerCount, |Used(nodes, strategy)|) == CeilDiv(m.layerCount, |Used(nodes, strategy)|)
    requires 0 < m.layerCount <= P24 && |Used(nodes, strategy)| <= P24
    ensures stages != [] && |stages[0].layers| == CeilDiv(m.layerCount, |Used(nodes, strategy)|)
    ensures forall j :: 0 <= j < |stages| ==> |stages[j].layers| <= |stages[0].layers|
  {
    var ns := Used(nodes, strategy);
    var per := a.perNode(m.layerCount, |ns|);
    ExactEstimateCovers(nodes, m, strategy, a, stages);
    StageShape(ns, |ns|, per, m, a);
    CeilAtMost(m.layerCount, |ns|);
    FirstIsLargest(ns, per, m, a, stages);
  }

  /**
   The largest stage of a small plan is the first one and has exactly the ceiling of the
   average number of layers, which by `NoSplitIsBetter` no other split can undercut.
   */
  lemma PlansAreBalanced(nodes: seq<Node>, m: Model, strategy: Strategy) returns (stages: seq<Stage>)
    requires DistinctIds(nodes) && SomeNodeIsHealthy(nodes)
    requires 0 < m.layerCount <= P24 && |nodes| <= P24
    ensures Plan(nodes, m, strategy, Single()) == Success(stages)
    ensures Used(nodes, strategy) != [] && stages != []
    ensures |stages[0].layers| == CeilDiv(m.layerCount, |Used(nodes, strategy)|)
    ensures forall j :: 0 <= j < |stages| ==> |stages[j].layers| <= |stages[0].layers|
  {
    hide PipelineStages, Plan;
    stages := SmallPlansCover(nodes, m, strategy);
    HealthyIsUsed(nodes);
    UsedIs(nodes, strategy);
    LayersPerNodeIsExact(m.layerCount, |Used(nodes, strategy)|);
    ExactEstimateBalances(nodes, m, strategy, Single(), stages);
  }

  lemma FirstIsLargest(ns: seq<Node>, per: u32, m: Model, a: Arithmetic, stages: seq<Stage>)
    requires forall j :: 0 <= j < |stages| ==> IsStage(stages[j], ns, j, per, m, a)
    requires per <= m.layerCount && stages != []
    ensures |stages[0].layers| == per
    ensures forall j :: 0 <= j < |stages| ==> |stages[j].layers| <= per
  {
    assert IsStage(stages[0], ns, 0, per, m, a);
    assert Start(1, per) == per;
    forall j | 0 <= j < |stages| ensures |stages[j].layers| <= per {
      assert IsStage(stages[j], ns, j, per, m, a);
      assert Start(j + 1, per) == Start(j, per) + per;
    }
  }

  // ----- weights -----

  function TotalWeight(stages: seq<Stage>): nat {
    if stages == [] then 0 else TotalWeight(stages[..|stages| - 1]) + stages[|stages| - 1].weightBytes
  }

  function TotalLayers(stages: seq<Stage>): nat {
    if stages == [] then 0 else TotalLayers(stages[..|stages| - 1]) + |stages[|stages| - 1].layers|
  }

  lemma {:induction false} LayersInConcat(stages: seq<Stage>)
    ensures |Concat(stages)| == TotalLayers(stages)
  {
    if stages != [] {
      LayersInConcat(stages[..|stages| - 1]);
    }
  }

  /** `w` is `share`, rounded three times with a relative error of 2^-24 each, and cut to a whole number. */
  ghost predicate WeightNear(w: nat, share: real) {
    share - 4.0 * share / P24 as real - 1.0 < w as real <= share + 4.0 * share / P24 as real
  }

  lemma {:induction false} WeightsAddUp(stages: seq<Stage>, perLayer: real)
    requires perLayer >= 0.0
    requires forall j :: 0 <= j < |stages| ==> WeightNear(stages[j].weightBytes, Scale(|stages[j].layers|, perLayer))
    ensures var share := Scale(TotalLayers(stages), perLayer);
            && TotalWeight(stages) as real <= share + 4.0 * share / P24 as real
            && (stages != [] ==> TotalWeight(stages) as real > share - 4.0 * share / P24 as real - |stages| as real)
  {
    if stages != [] {
      var front, last := stages[..|stages| - 1], stages[|stages| - 1];
      WeightsAddUp(front, perLayer);
      ScaleAdd(TotalLayers(front), |last.layers|, perLayer);
      assert WeightNear(last.weightBytes, Scale(|last.layers|, perLayer));
    }
  }

  lemma FactorOut(c: real, w: real, f: real)
    ensures (c * w) * (c * f) == (c * c) * (w * f)
  {
  }

  lemma ProductBetween(lo: real, x: real, hi: real, lo': real, y: real, hi': real)
    requires 0.0 <= lo <= x <= hi && 0.0 <= lo' <= y <= hi'
    ensures lo * lo' <= x * y <= hi * hi'
  {
    ProductAtMost(lo, x, lo', y);
    ProductAtMost(x, hi, y, hi');
  }

  lemma ProductAtMost(a: real, b: real, c: real, d: real)
    requires 0.0 <= a <= b && 0.0 <= c <= d
    ensures a * c <= b * d
  {
    var low, mid, high := a * c, b * c, b * d;
    assert low <= mid by { LeMul(a, b, c); }
    assert mid <= high by { LeMul(c, d, b); }
  }

  lemma LeMul(x: real, y: real, b: real)
    requires b >= 0.0 && x <= y
    ensures x * b <= y * b && b * x <= b * y
  {
  }

  /** The product of two rounded factors against the exact product. */
  lemma ProductRange(w: real, f: real, x: real, y: real)
    requires 0.0 <= w && 0.0 <= f && DOWN * w <= x <= UP * w && DOWN * f <= y <= UP * f
    ensures 0.0 <= w * f && 0.0 <= x * y && (DOWN * DOWN) * (w * f) <= x * y <= (UP * UP) * (w * f)
  {
    NonNegative(w, f);
    NonNegative(x, y);
    ProductBetween(DOWN * w, x, UP * w, DOWN * f, y, UP * f);
    FactorOut(DOWN, w, f);
    FactorOut(UP, w, f);
  }

  lemma RoundedNear(s: real, p: real)
    requires s >= 0.0 && p >= 0.0 && (DOWN * DOWN) * s <= p <= (UP * UP) * s
    ensures s - 4.0 * s / P24 as real <= Round(p) <= s + 4.0 * s / P24 as real
  {
    RoundRelative(p);
    ThreeRoundings(s, p, Round(p));
  }

  lemma NonNegative(a: real, b: real)
    requires a >= 0.0 && b >= 0.0
    ensures a * b >= 0.0
  {
  }

  lemma ThreeRoundings(s: real, p: real, r: real)
    requires s >= 0.0 && (DOWN * DOWN) * s <= p <= (UP * UP) * s
    requires p - p / P24 as real <= r <= p + p / P24 as real
    ensures s - 4.0 * s / P24 as real <= r <= s + 4.0 * s / P24 as real
  {
  }

  lemma ShareOf(layers: nat, total: real, totalLayers: nat)
    requires totalLayers > 0 && total >= 0.0
    ensures Scale(layers, total / totalLayers as real) == total * (layers as real / totalLayers as real)
  {
    var n := totalLayers as real;
    ScaleIsProduct(layers, total / n);
    SwapQuotient(layers as real, total, n);
  }

  lemma SwapQuotient(l: real, w: real, n: real)
    requires n > 0.0
    ensures l * (w / n) == w * (l / n)
  {
    var a, b := w / n, l / n;
    assert a * n == w && b * n == l;
    assert (l * a) * n == l * w;
    assert (w * b) * n == w * l;
  }

  lemma FractionAtMostOne(l: real, n: real)
    requires 0.0 <= l <= n && n > 0.0
    ensures 0.0 <= l / n <= 1.0
  {
  }

  lemma StageWeightIsNear(layers: nat, totalBytes: u64, totalLayers: nat)
    requires layers <= totalLayers && 0 < totalLayers <= P24
    ensures WeightNear(StageWeight(layers, totalBytes, totalLayers),
                       Scale(layers, totalBytes as real / totalLayers as real))
  {
    hide Round, FloatProduct;
    var w, f := totalBytes as real, layers as real / totalLayers as real;
    FractionAtMostOne(layers as real, totalLayers as real);
    RoundedFactor(w);
    RoundedFactor(f);
    RoundExact(layers);
    RoundExact(totalLayers);
    ShareOf(layers, w, totalLayers);
    NearByFactors(w, f, Round(w), FloatQuotient(layers, totalLayers), totalBytes);
  }

  lemma NearByFactors(w: real, f: real, x: real, y: real, totalBytes: u64)
    requires 0.0 <= w == totalBytes as real && 0.0 <= f <= 1.0
    requires 0.0 <= x && 0.0 <= y && DOWN * w <= x <= UP * w && DOWN * f <= y <= UP * f
    ensures WeightNear(ToU64(FloatProduct(x, y)), w * f)
  {
    hide Round, WeightNear, ToU64;
    ProductRange(w, f, x, y);
    LeMul(f, 1.0, w);
    RoundNonNegative(x * y);
    NearByProduct(w * f, x * y, totalBytes);
  }

  lemma NearByProduct(share: real, product: real, totalBytes: u64)
    requires 0.0 <= share <= totalBytes as real
    requires 0.0 <= product && 0.0 <= Round(product) && (DOWN * DOWN) * share <= product <= (UP * UP) * share
    ensures WeightNear(ToU64(Round(product)), share)
  {
    hide Round, WeightNear, ToU64;
    RoundedNear(share, product);
    Truncation(Round(product), share, totalBytes);
  }

  lemma Truncation(r: real, share: real, totalBytes: u64)
    requires 0.0 <= share <= totalBytes as real
    requires share - 4.0 * share / P24 as real <= r <= share + 4.0 * share / P24 as real
    requires r >= 0.0
    ensures WeightNear(ToU64(r), share)
  {
  }

  /**
   With k stages and W bytes the stage weights of a small plan sum to more than
   W (1 - 2^-22) - k and to at most W (1 + 2^-22).
   */
  lemma WeightsNearlyConserved(nodes: seq<Node>, m: Model, strategy: Strategy) returns (stages: seq<Stage>)
    requires DistinctIds(nodes) && SomeNodeIsHealthy(nodes)
    requires 0 < m.layerCount <= P24 && |nodes| <= P24
    ensures Plan(nodes, m, strategy, Single()) == Success(stages)
    ensures var w := m.weightBytes as real;
            w - 4.0 * w / P24 as real - |stages| as real < TotalWeight(stages) as real <= w + 4.0 * w / P24 as real
  {
    hide Plan, PipelineStages;
    var ns := Used(nodes, strategy);
    var perLayer := m.weightBytes as real / m.layerCount as real;
    stages := SmallPlansCover(nodes, m, strategy);
    LayersInConcat(stages);
    WeightsAreNear(ns, m, stages);
    WeightsAddUp(stages, perLayer);
    WholeModel(m.layerCount, m.weightBytes as real);
  }

  lemma WholeModel(layers: nat, w: real)
    requires layers > 0
    ensures Scale(layers, w / layers as real) == w
  {
    ScaleIsProduct(layers, w / layers as real);
  }

  lemma WeightsAreNear(ns: seq<Node>, m: Model, stages: seq<Stage>)
    requires 0 < m.layerCount <= P24 && stages == PipelineStages(ns, m, Single()).0
    ensures forall j :: 0 <= j < |stages| ==>
              WeightNear(stages[j].weightBytes, Scale(|stages[j].layers|, m.weightBytes as real / m.layerCount as real))
  {
    var per := Single().perNode(m.layerCount, |ns|);
    StageShape(ns, |ns|, per, m, Single());
    forall j | 0 <= j < |stages|
      ensures WeightNear(stages[j].weightBytes, Scale(|stages[j].layers|, m.weightBytes as real / m.layerCount as real))
    {
      assert IsStage(stages[j], ns, j, per, m, Single());
      StageWeightIsNear(|stages[j].layers|, m.weightBytes, m.layerCount);
    }
  }

  // ----- weights without rounding -----

  /** `w` is the whole part of the share `bytes * layers / total`. */
  predicate WholeShare(w: nat, layers: nat, bytes: nat, total: nat) {
    w * total <= bytes * layers < (w + 1) * total
  }

  lemma WholeShareIs(layers: nat, bytes: nat, total: nat)
    requires total > 0
    ensures WholeShare(bytes * layers / total, layers, bytes, total)
  {
  }

  lemma {:induction false} WholeSharesAddUp(stages: seq<Stage>, bytes: nat, total: nat)
    requires forall j :: 0 <= j < |stages| ==> WholeShare(stages[j].weightBytes, |stages[j].layers|, bytes, total)
    ensures TotalWeight(stages) * total <= bytes * TotalLayers(stages) <= (TotalWeight(stages) + |stages|) * total
    ensures stages != [] ==> bytes * TotalLayers(stages) < (TotalWeight(stages) + |stages|) * total
  {
    if stages != [] {
      var front, last := stages[..|stages| - 1], stages[|stages| - 1];
      WholeSharesAddUp(front, bytes, total);
      assert WholeShare(last.weightBytes, |last.layers|, bytes, total);
      Distribute(TotalWeight(front), last.weightBytes, total);
      Distribute(TotalWeight(front) + |front|, last.weightBytes + 1, total);
      Distribute(TotalLayers(front), |last.layers|, bytes);
    }
  }

  lemma Distribute(a: nat, b: nat, c: nat)
    ensures (a + b) * c == a * c + b * c && c * (a + b) == c * a + c * b
  {
  }

  lemma {:induction false} LayersFit(stages: seq<Stage>, j: nat)
    requires j < |stages|
    ensures |stages[j].layers| <= TotalLayers(stages)
  {
    if j < |stages| - 1 {
      LayersFit(stages[..|stages| - 1], j);
    }
  }

  /** In a plan, every stage is weighed by the number of its layers. */
  lemma StagesAreWeighed(nodes: seq<Node>, m: Model, strategy: Strategy, a: Arithmetic, stages: seq<Stage>, j: nat)
    requires Plan(nodes, m, strategy, a) == Success(stages) && j < |stages|
    ensures stages[j].weightBytes == a.weigh(|stages[j].layers|, m.weightBytes, m.layerCount)
  {
    var ns := Used(nodes, strategy);
    var per := a.perNode(m.layerCount, |ns|);
    var piped := PipelineStages(ns, m, a).0;
    PlanIs(nodes, m, strategy, a);
    StageShape(ns, |ns|, per, m, a);
    if j < |piped| {
      assert stages[..|piped|][j] == stages[j];
      assert IsStage(piped[j], ns, j, per, m, a);
    }
  }

  /**
   Without rounding, the weights of k > 0 stages that cover the model fall short of the total by
   less than k bytes.
   */
  lemma ExactWeightsNearlyConserved(nodes: seq<Node>, m: Model, strategy: Strategy, a: Arithmetic, stages: seq<Stage>)
    requires Plan(nodes, m, strategy, a) == Success(stages)
    requires m.layerCount > 0 && Concat(stages) == Range(0, m.layerCount)
    requires forall l: nat :: l <= m.layerCount ==>
               a.weigh(l, m.weightBytes, m.layerCount) == m.weightBytes * l / m.layerCount
    ensures TotalWeight(stages) <= m.weightBytes < TotalWeight(stages) + |stages|
  {
    hide Plan;
    LayersInConcat(stages);
    forall j | 0 <= j < |stages|
      ensures WholeShare(stages[j].weightBytes, |stages[j].layers|, m.weightBytes, m.layerCount)
    {
      LayersFit(stages, j);
      StagesAreWeighed(nodes, m, strategy, a, stages, j);
      WholeShareIs(|stages[j].layers|, m.weightBytes, m.layerCount);
    }
    TotalOfWholeShares(stages, m.weightBytes, m.layerCount);
  }

  lemma TotalOfWholeShares(stages: seq<Stage>, bytes: nat, total: nat)
    requires forall j :: 0 <= j < |stages| ==> WholeShare(stages[j].weightBytes, |stages[j].layers|, bytes, total)
    requires TotalLayers(stages) == total > 0
    ensures TotalWeight(stages) <= bytes < TotalWeight(stages) + |stages|
  {
    WholeSharesAddUp(stages, bytes, total);
    assert stages != [];
    CancelLess(bytes, TotalWeight(stages) + |stages|, total);
    CancelAtMost(TotalWeight(stages), bytes, total);
  }

  lemma CancelLess(x: nat, y: nat, c: nat)
    requires x * c < y * c
    ensures x < y
  {
    if y <= x {
      ProductMonotone(y, x, c);
    }
  }

  lemma CancelAtMost(x: nat, y: nat, c: nat)
    requires x * c <= y * c && c > 0
    ensures x <= y
  {
    if y < x {
      ProductMonotone(y + 1, x, c);
      assert false;
    }
  }

  // ----- beyond 2^24 layers -----

  lemma ExponentIs(x: real, e: int)
    requires x > 0.0 && Pow2(e) <= x < Pow2(e + 1)
    ensures Exponent(x) == e
  {
    if Exponent(x) < e {
      Pow2Monotone(Exponent(x) + 1, e);
    } else if Exponent(x) > e {
      Pow2Monotone(e + 1, Exponent(x));
    }
  }

  lemma FirstInexactInteger()
    ensures Round(16777217.0) == 16777216.0
  {
    var x := 16777217.0;
    Pow2Of24();
    Pow2Next(24);
    ExponentIs(x, 24);
    assert Ulp(x) == Pow2(1) == 2.0 by {
      assert Pow2(0) == 1.0;
    }
    ScaleIsProduct(P23, 2.0);
    BelowIs(x, 2.0, P23);
  }

  /**
   One layer more than 2^24 on a single node: the count is rounded down to 2^24, and the
   last layer is in no stage.
   */
  lemma LargeModelLosesALayer(n: Node, m: Model) returns (stages: seq<Stage>)
    requires n.status == Healthy && n.gpus == [] && m.layerCount == 16777217
    ensures Plan([n], m, Pipeline, Single()) == Success(stages)
    ensures Concat(stages) != Range(0, m.layerCount)
  {
    hide Plan, PipelineStages, Filter, LayersPerNode, Used;
    PlanExistsIff([n], m, Pipeline, Single());
    stages := Plan([n], m, Pipeline, Single()).value;
    LayersOnOneNode();
    OneNodeIsUsed(n);
    PlanCoversIff([n], m, Pipeline, Single(), stages);
    assert !Covers(16777217, 1, 16777216);
  }

  lemma LayersOnOneNode()
    ensures LayersPerNode(16777217, 1) == 16777216
  {
    FirstInexactInteger();
    RoundExact(1);
    RoundExact(16777216);
  }

  lemma OneNodeIsUsed(n: Node)
    requires n.status == Healthy
    ensures Used([n], Pipeline) == [n]
  {
    assert [n][..0] == [];
    assert Filter([n], IsHealthy) == [n];
  }
}
