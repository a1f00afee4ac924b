/** Every plan stage by stage: which node, which device, which layers. */
module PlannerPlans {
  import opened Wrappers
  import opened ClusterTypes
  import opened Float32
  import opened Integers
  import opened Selections
  import opened Planner
  import opened PlannerProofs

  // ----- the nodes a strategy cuts the model over -----

  ghost predicate SomeGpu(nodes: seq<Node>) {
    exists n :: n in nodes && n.status == Healthy && n.gpus != []
  }

  ghost predicate SomeCpuOnly(nodes: seq<Node>) {
    exists n :: n in nodes && n.status == Healthy && n.gpus == []
  }

  /** Healthy nodes; a hybrid plan takes only those with a GPU, if there are any. */
  ghost predicate TakesPart(nodes: seq<Node>, strategy: Strategy, n: Node) {
    n.status == Healthy && (strategy == PipelineHybrid && SomeGpu(nodes) ==> n.gpus != [])
  }

  /** `at` are the positions of those nodes. */
  ghost predicate PartsAt(nodes: seq<Node>, strategy: Strategy, at: seq<int>) {
    Increasing(at, |nodes|) && forall k :: 0 <= k < |nodes| ==> (k in at <==> TakesPart(nodes, strategy, nodes[k]))
  }

  lemma {:induction false} FilterTwice(ns: seq<Node>, f: Node -> bool, g: Node -> bool)
    ensures Keeps(ns, Filter(Filter(ns, f), g), (n: Node) => f(n) && g(n))
  {
    hide Keeps;
    if ns == [] {
      KeepsNothing((n: Node) => f(n) && g(n));
    } else {
      var front, last := ns[..|ns| - 1], ns[|ns| - 1];
      FilterTwice(front, f, g);
      KeepsOneMore(front, Filter(Filter(front, f), g), (n: Node) => f(n) && g(n), last);
      assert ns == front + [last];
      if f(last) {
        assert (Filter(front, f) + [last])[..|Filter(front, f)|] == Filter(front, f);
      }
    }
  }

  lemma FilterTwiceAt(ns: seq<Node>, f: Node -> bool, g: Node -> bool) returns (at: seq<int>)
    ensures IsSelection(ns, Filter(Filter(ns, f), g), at)
    ensures forall k :: 0 <= k < |ns| ==> (k in at <==> f(ns[k]) && g(ns[k]))
  {
    FilterTwice(ns, f, g);
    at :| IsSelection(ns, Filter(Filter(ns, f), g), at) && AreKept(ns, at, (n: Node) => f(n) && g(n));
  }

  lemma SomeGpuIff(nodes: seq<Node>)
    ensures Filter(Filter(nodes, IsHealthy), HasGpu) != [] <==> SomeGpu(nodes)
  {
    var available := Filter(nodes, IsHealthy);
    FilterIs(nodes, IsHealthy);
    FilterIs(available, HasGpu);
    if Filter(available, HasGpu) != [] {
      assert Filter(available, HasGpu)[0] in available;
    }
  }

  lemma UsedAt(nodes: seq<Node>, strategy: Strategy) returns (at: seq<int>)
    ensures PartsAt(nodes, strategy, at) && IsSelection(nodes, Used(nodes, strategy), at)
  {
    hide SomeGpu, IsSelection, Filter;
    SomeGpuIff(nodes);
    if strategy == PipelineHybrid && SomeGpu(nodes) {
      at := FilterTwiceAt(nodes, IsHealthy, HasGpu);
      forall k | 0 <= k < |nodes| ensures k in at <==> TakesPart(nodes, strategy, nodes[k]) {
        assert HasGpu(nodes[k]) <==> nodes[k].gpus != [];
      }
    } else {
      at := HealthyAt(nodes);
      forall k | 0 <= k < |nodes| ensures k in at <==> TakesPart(nodes, strategy, nodes[k]) {
        assert IsHealthy(nodes[k]) <==> nodes[k].status == Healthy;
      }
    }
    SelectionIncreases(nodes, Used(nodes, strategy), at);
  }

  lemma HealthyAt(nodes: seq<Node>) returns (at: seq<int>)
    ensures IsSelection(nodes, Filter(nodes, IsHealthy), at)
    ensures forall k :: 0 <= k < |nodes| ==> (k in at <==> IsHealthy(nodes[k]))
  {
    FilterKeeps(nodes, IsHealthy);
    at :| IsSelection(nodes, Filter(nodes, IsHealthy), at) && AreKept(nodes, at, IsHealthy);
  }

  lemma SelectionIncreases(ns: seq<Node>, kept: seq<Node>, at: seq<int>)
    requires IsSelection(ns, kept, at)
    ensures Increasing(at, |ns|)
  {
  }

  // ----- the stages -----

  /** The first GPU of the node, or its CPU. */
  predicate IsDevice(n: Node, device: string) {
    device == if n.gpus == [] then "cpu:0" else "cuda:" + n.gpus[0]
  }

  /** The layers from `from` up to `to`. */
  ghost predicate AreLayers(layers: seq<nat>, from: int, to: int) {
    |layers| == to - from && forall i :: 0 <= i < |layers| ==> layers[i] == from + i
  }

  /** Stage `j` is the `j`-th block of `per` layers, cut at the end of the model, on node `n`. */
  ghost predicate IsBlock(s: Stage, n: Node, j: int, per: int, m: Model, a: Arithmetic) {
    && s.id == j && s.nodeId == n.id && IsDevice(n, s.device)
    && AreLayers(s.layers, j * per, if (j + 1) * per < m.layerCount then (j + 1) * per else m.layerCount)
    && s.weightBytes == a.weigh(|s.layers|, m.weightBytes, m.layerCount)
  }

  lemma StageIsBlock(s: Stage, ns: seq<Node>, j: nat, per: u32, m: Model, a: Arithmetic)
    requires IsStage(s, ns, j, per, m, a)
    ensures IsBlock(s, ns[j], j, per, m, a) && s.layers != []
  {
    StartIsProduct(j, per);
    StartIsProduct(j + 1, per);
  }

  /** The first Healthy node without a GPU. */
  ghost predicate IsFirstCpuNode(nodes: seq<Node>, k: int) {
    && 0 <= k < |nodes| && nodes[k].status == Healthy && nodes[k].gpus == []
    && forall i :: 0 <= i < k ==> !(nodes[i].status == Healthy && nodes[i].gpus == [])
  }

  /** The stage of a hybrid plan for the layers that its GPU nodes leave. */
  ghost predicate IsRest(s: Stage, nodes: seq<Node>, k: int, from: int, m: Model, a: Arithmetic) {
    && (exists i :: IsFirstCpuNode(nodes, i) && s.nodeId == nodes[i].id)
    && s.id == k && s.device == "cpu:0" && AreLayers(s.layers, from, m.layerCount)
    && s.weightBytes == a.weigh(|s.layers|, m.weightBytes, m.layerCount)
  }

  /** Stages `0..k` are the blocks of the nodes at the first `k` positions. */
  ghost predicate AreBlocks(nodes: seq<Node>, at: seq<int>, k: int, per: int, m: Model, a: Arithmetic,
                            stages: seq<Stage>) {
    && k <= |at| && k <= |stages| && Increasing(at, |nodes|)
    && forall j :: 0 <= j < k ==> IsBlock(stages[j], nodes[at[j]], j, per, m, a) && stages[j].layers != []
  }

  /** After `k` blocks the loop has no nodes left, no layers left, or a counter that would wrap. */
  predicate EndsAfter(k: int, nodes: int, per: int, layers: int) {
    k == nodes || per == 0 || k * per >= layers || k * per + per >= 0x1_0000_0000
  }

  lemma ShapeEnds(ns: seq<Node>, per: u32, m: Model, a: Arithmetic, stages: seq<Stage>, current: nat)
    requires Shape(ns, |ns|, per, m, a, stages, current)
    ensures EndsAfter(|stages|, |ns|, per, m.layerCount)
    ensures current == if |stages| * per < m.layerCount then |stages| * per else m.layerCount
  {
    StartIsProduct(|stages|, per);
  }

  lemma FirstCpuNode(nodes: seq<Node>)
    ensures var cpu := Filter(Filter(nodes, IsHealthy), CpuOnly);
            && (cpu != [] ==> exists i :: IsFirstCpuNode(nodes, i) && nodes[i] == cpu[0])
            && (cpu != [] <==> SomeCpuOnly(nodes))
  {
    var cpu := Filter(Filter(nodes, IsHealthy), CpuOnly);
    var at := FilterTwiceAt(nodes, IsHealthy, CpuOnly);
    if cpu != [] {
      var i := at[0];
      assert i in at;
      forall k | 0 <= k < i ensures k !in at {
        FirstPosition(at, |nodes|, k);
      }
      assert IsFirstCpuNode(nodes, i);
      assert nodes[i] in nodes;
    } else {
      forall n | n in nodes && n.status == Healthy ensures n.gpus != [] {
        var k :| 0 <= k < |nodes| && nodes[k] == n;
        assert k !in at;
      }
    }
  }

  lemma FirstPosition(at: seq<int>, n: int, k: int)
    requires Increasing(at, n) && at != [] && k < at[0]
    ensures k !in at
  {
    forall j | 0 <= j < |at| ensures at[j] != k {
    }
  }

  /**
   Every plan, whatever the estimates: the nodes that take part get consecutive blocks, one
   stage each, in their order, until nodes or layers run out or the 32-bit counter would wrap;
   layers left over go to one more stage exactly if the plan is hybrid over GPU nodes and
   there is a Healthy node without a GPU, on the first such node.
   */
  lemma PlanStages(nodes: seq<Node>, m: Model, strategy: Strategy, a: Arithmetic)
    returns (stages: seq<Stage>, at: seq<int>, k: int)
    requires SomeNodeIsHealthy(nodes)
    ensures Plan(nodes, m, strategy, a) == Success(stages) && PartsAt(nodes, strategy, at) && at != []
    ensures AreBlocks(nodes, at, k, a.perNode(m.layerCount, |at|), m, a, stages)
    ensures 0 <= k && EndsAfter(k, |at|, a.perNode(m.layerCount, |at|), m.layerCount)
    ensures var done := k * a.perNode(m.layerCount, |at|);
            if done < m.layerCount && strategy == PipelineHybrid && SomeGpu(nodes) && SomeCpuOnly(nodes) then
              |stages| == k + 1 && IsRest(stages[k], nodes, k, done, m, a)
            else |stages| == k
  {
    hide Plan, PipelineStages, Used, IsBlock, EndsAfter, SomeGpu, IsFirstCpuNode;
    PlanExistsIff(nodes, m, strategy, a);
    stages := Plan(nodes, m, strategy, a).value;
    var ns := Used(nodes, strategy);
    at := UsedAt(nodes, strategy);
    var per := a.perNode(m.layerCount, |ns|);
    var piped, current := PipelineStages(ns, m, a).0, PipelineStages(ns, m, a).1;
    k := |piped|;
    PlanIs(nodes, m, strategy, a);
    PipelineShape(ns, m, a);
    ShapeEnds(ns, per, m, a, piped, current);
    forall j | 0 <= j < k ensures IsBlock(stages[j], nodes[at[j]], j, per, m, a) && stages[j].layers != [] {
      StageIsBlock(piped[j], ns, j, per, m, a);
      assert stages[..k][j] == stages[j];
    }
    RestIs(nodes, m, strategy, a, stages, k, current);
  }

  lemma PipelineShape(ns: seq<Node>, m: Model, a: Arithmetic)
    ensures Shape(ns, |ns|, a.perNode(m.layerCount, |ns|), m, a, PipelineStages(ns, m, a).0, PipelineStages(ns, m, a).1)
  {
    StageShape(ns, |ns|, a.perNode(m.layerCount, |ns|), m, a);
  }

  lemma RestIs(nodes: seq<Node>, m: Model, strategy: Strategy, a: Arithmetic, stages: seq<Stage>, k: int, current: nat)
    requires Plan(nodes, m, strategy, a) == Success(stages)
    requires k == |PipelineStages(Used(nodes, strategy), m, a).0|
    requires current == PipelineStages(Used(nodes, strategy), m, a).1
    ensures if current < m.layerCount && strategy == PipelineHybrid && SomeGpu(nodes) && SomeCpuOnly(nodes) then
              |stages| == k + 1 && IsRest(stages[k], nodes, k, current, m, a)
            else |stages| == k
  {
    hide Plan, PipelineStages, Used, SomeGpu, SomeCpuOnly, IsFirstCpuNode, Filter;
    PlanIs(nodes, m, strategy, a);
    SomeGpuIff(nodes);
    FirstCpuNode(nodes);
  }

  // ----- the two estimates, one rounding after another -----

  /** Layers per node: both numbers converted, divided, rounded up, and cut off at the largest 32-bit number. */
  lemma LayersPerNodeIs(layers: u32, nodes: nat, q: real)
    requires nodes > 0 && IsQuotient(layers, nodes, q)
    ensures var per := LayersPerNode(layers, nodes);
            if per < 0xFFFF_FFFF then per as real - 1.0 < q <= per as real else per == 0xFFFF_FFFF && q > 4294967294.0
  {
    hide IsQuotient, FloatQuotient;
    QuotientIff(layers, nodes, q);
  }

  /** Stage weight: the converted total times the converted fraction, cut to a whole number of 64 bits. */
  lemma StageWeightIs(layers: nat, totalBytes: u64, totalLayers: u32, w: real, q: real, p: real)
    requires totalLayers > 0 && IsRounded(w, totalBytes as real) && IsQuotient(layers, totalLayers, q)
    requires w >= 0.0 && q >= 0.0 && IsRounded(p, w * q)
    ensures var bytes := StageWeight(layers, totalBytes, totalLayers);
            if p < 18446744073709551616.0 then bytes as real <= p < bytes as real + 1.0
            else bytes == 0xFFFF_FFFF_FFFF_FFFF
  {
    hide IsQuotient, FloatQuotient, Round, IsRounded;
    QuotientIff(layers, totalLayers, q);
    RoundIff(totalBytes as real, w);
    ProductIff(w, q, p);
  }
}
