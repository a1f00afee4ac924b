/**
 The tensor directory as a value: a primary map from tensor ids to entries and
 an inverse index from nodes to the ids listed on them. Every service call is
 split at the point where its second lock is taken, so that the lock machine and
 the sequential class use the same pieces.
 */
module DirectoryModel {
  import opened Wrappers
  import opened ClusterTypes
  import opened Sums

  type TensorId = string

  datatype Role = Primary | Replica | WarmCopy

  datatype Placement = Placement(nodeId: NodeId, device: string, offset: nat, length: nat, role: Role)

  datatype Entry = Entry(
    tensorId: TensorId,
    shape: seq<nat>,
    dtype: string,
    placements: seq<Placement>,
    version: nat,
    mutable: bool,
    owner: Option<SessionId>)

  datatype Directory = Directory(tensors: map<TensorId, Entry>, index: map<NodeId, seq<TensorId>>)

  datatype Stats = Stats(totalTensors: nat, totalPlacements: nat, mutableCount: nat, nodeCount: nat)

  /** The calls that run inside one lock section. `Check` is the first half of a transfer. */
  datatype Call =
    | Register(id: TensorId, shape: seq<nat>, dtype: string, placement: Placement, mutable: bool,
               owner: Option<SessionId>)
    | Add(id: TensorId, placement: Placement)
    | Remove(id: TensorId, node: NodeId)
    | Evict(node: NodeId)
    | OnNode(node: NodeId)
    | GetTensor(id: TensorId)
    | GetStats
    | Check(id: TensorId, from: NodeId, to: NodeId, length: nat)

  datatype Response =
    | Acknowledged
    | TensorNotFound
    | NotOnSource
    | Evicted(ids: seq<TensorId>)
    | Entries(entries: seq<Entry>)
    | Found(entry: Entry)
    | StatsAre(stats: Stats)
    | Checked(placement: Placement)

  const Empty: Directory := Directory(map[], map[])

  // ----- list operations -----

  function Nodes(ps: seq<Placement>): seq<NodeId> {
    seq(|ps|, i requires 0 <= i < |ps| => ps[i].nodeId)
  }

  /** `placements.retain(|p| p.node_id != n)` */
  function OffNode(ps: seq<Placement>, n: NodeId): seq<Placement> {
    if ps == [] then []
    else
      var rest := OffNode(ps[..|ps| - 1], n);
      var last := ps[|ps| - 1];
      if last.nodeId != n then rest + [last] else rest
  }

  /** `tensor_list.retain(|t| t != tensor_id)` */
  function Without(ids: seq<TensorId>, t: TensorId): seq<TensorId> {
    if ids == [] then []
    else
      var rest := Without(ids[..|ids| - 1], t);
      var last := ids[|ids| - 1];
      if last != t then rest + [last] else rest
  }

  function Listed(d: Directory, n: NodeId): seq<TensorId> {
    if n in d.index then d.index[n] else []
  }

  // ----- the sections of the calls -----

  /** The first half of register, add and remove: what happens to the primary map. */
  function MapPart(d: Directory, c: Call): Directory
    requires c.Register? || ((c.Add? || c.Remove?) && c.id in d.tensors)
  {
    match c
    case Register(id, shape, dtype, p, mutable, owner) =>
      d.(tensors := d.tensors[id := Entry(id, shape, dtype, [p], 1, mutable, owner)])
    case Add(id, p) =>
      var e := d.tensors[id];
      d.(tensors := d.tensors[id := e.(placements := e.placements + [p], version := e.version + 1)])
    case Remove(id, n) =>
      var e := d.tensors[id];
      var kept := OffNode(e.placements, n);
      if kept == [] then d.(tensors := d.tensors - {id})
      else d.(tensors := d.tensors[id := e.(placements := kept, version := e.version + 1)])
  }

  /** The second half of register, add and remove: what happens to the index. */
  function IndexPart(d: Directory, c: Call): Directory
    requires c.Register? || c.Add? || c.Remove?
  {
    if c.Remove? then
      if c.node !in d.index then d
      else
        var kept := Without(d.index[c.node], c.id);
        if kept == [] then d.(index := d.index - {c.node})
        else d.(index := d.index[c.node := kept])
    else
      var n := c.placement.nodeId;
      d.(index := d.index[n := Listed(d, n) + [c.id]])
  }

  /** One round of the eviction loop for the listed id `t`. */
  function EvictOne(tensors: map<TensorId, Entry>, n: NodeId, t: TensorId): (map<TensorId, Entry>, bool) {
    if t !in tensors then (tensors, false)
    else
      var e := tensors[t];
      var kept := OffNode(e.placements, n);
      if kept == [] then (tensors - {t}, true)
      else (tensors[t := e.(placements := kept, version := e.version + 1)], false)
  }

  /** The eviction loop over the ids that were listed on the node. */
  function EvictAll(tensors: map<TensorId, Entry>, n: NodeId, ids: seq<TensorId>)
    : (map<TensorId, Entry>, seq<TensorId>) {
    if ids == [] then (tensors, [])
    else
      var t := ids[|ids| - 1];
      var (before, evicted) := EvictAll(tensors, n, ids[..|ids| - 1]);
      var (after, dropped) := EvictOne(before, n, t);
      (after, if dropped then evicted + [t] else evicted)
  }

  /** The entries of the ids in `ids` that are registered (`filter_map`). */
  function Lookup(tensors: map<TensorId, Entry>, ids: seq<TensorId>): seq<Entry> {
    if ids == [] then []
    else
      var rest := Lookup(tensors, ids[..|ids| - 1]);
      var t := ids[|ids| - 1];
      if t in tensors then rest + [tensors[t]] else rest
  }

  /** The first placement on node `n`, if any (`iter().find`). */
  function FirstOn(ps: seq<Placement>, n: NodeId): Option<Placement> {
    if ps == [] then None
    else if ps[0].nodeId == n then Some(ps[0])
    else FirstOn(ps[1..], n)
  }

  ghost function NodeLists(m: map<TensorId, Entry>): map<TensorId, seq<NodeId>> {
    map t | t in m :: Nodes(m[t].placements)
  }

  ghost function StatsOf(d: Directory): Stats {
    Stats(|d.tensors|, Sum(Lengths(NodeLists(d.tensors))), |set t | t in d.tensors && d.tensors[t].mutable|, |d.index|)
  }

  /** One whole call, as if nothing ran beside it. */
  ghost function Apply(d: Directory, c: Call): (Directory, Response) {
    match c
    case Register(_, _, _, _, _, _) => (IndexPart(MapPart(d, c), c), Acknowledged)
    case Add(id, _) => if id !in d.tensors then (d, TensorNotFound) else (IndexPart(MapPart(d, c), c), Acknowledged)
    case Remove(id, _) => if id !in d.tensors then (d, TensorNotFound) else (IndexPart(MapPart(d, c), c), Acknowledged)
    case Evict(n) =>
      var (tensors, evicted) := EvictAll(d.tensors, n, Listed(d, n));
      (Directory(tensors, d.index - {n}), Response.Evicted(evicted))
    case OnNode(n) => (d, Entries(Lookup(d.tensors, Listed(d, n))))
    case GetTensor(id) => (d, if id in d.tensors then Found(d.tensors[id]) else TensorNotFound)
    case GetStats => (d, StatsAre(StatsOf(d)))
    case Check(id, from, to, length) =>
      (d, if id !in d.tensors then TensorNotFound
          else match FirstOn(d.tensors[id].placements, from)
               case None => NotOnSource
               case Some(p) => Checked(Placement(to, p.device, 0, length, Replica)))
  }

  datatype Event = Event(op: nat, call: Call, response: Response)

  /** The directory after running the calls of a history one after another. */
  ghost function Replay(h: seq<Event>): Directory {
    if h == [] then Empty else Apply(Replay(h[..|h| - 1]), h[|h| - 1].call).0
  }
}
