/**
 The coordinator's list of nodes: registration, heartbeats, and the sweep that suspects and
 removes silent nodes. Times are milliseconds. Registration and the sweep read the clock
 before they wait for the lock, a heartbeat reads it while holding the lock.
 */
module FailureDetector {
  import opened Wrappers
  import opened ClusterTypes

  datatype ListedNode = ListedNode(status: Status, lastHeartbeat: int, resources: int)

  type Nodes = map<NodeId, ListedNode>

  datatype HeartbeatError = InvalidNodeId | NodeNotFound

  const SUSPECT_AFTER := 10 // seconds
  const REMOVE_AFTER := 30

  /** Whole seconds of a duration, cut towards zero. */
  function NumSeconds(ms: int): int {
    if ms >= 0 then ms / 1000 else -((-ms) / 1000)
  }

  /** The status a sweep gives a node, before removal. */
  function SweptStatus(n: ListedNode, now: int): Status {
    var silent := NumSeconds(now - n.lastHeartbeat);
    if silent > REMOVE_AFTER then Unavailable
    else if silent > SUSPECT_AFTER && n.status == Healthy then Suspect
    else n.status
  }

  predicate Removes(n: ListedNode, now: int) {
    NumSeconds(now - n.lastHeartbeat) > REMOVE_AFTER
  }

  function Swept(nodes: Nodes, now: int): Nodes {
    map id | id in nodes && !Removes(nodes[id], now) :: nodes[id].(status := SweptStatus(nodes[id], now))
  }

  function Registered(nodes: Nodes, id: NodeId, now: int, resources: int): Nodes {
    nodes[id := ListedNode(Healthy, now, resources)]
  }

  function Beaten(nodes: Nodes, id: NodeId, now: int, resources: int): Nodes {
    if id in nodes then nodes[id := ListedNode(Healthy, now, resources)] else nodes
  }

  // ----- the coordinator -----

  class ClusterState {
    var nodes: Nodes

    constructor ()
      ensures nodes == map[]
    {
      nodes := map[];
    }

    method RegisterNode(id: NodeId, now: int, resources: int)
      modifies this
      ensures nodes == Registered(old(nodes), id, now, resources)
    {
      nodes := nodes[id := ListedNode(Healthy, now, resources)];
    }

    /** `id` is what the path parses to. */
    method SendHeartbeat(id: Option<NodeId>, now: int, resources: int) returns (r: Result<(), HeartbeatError>)
      modifies this
      ensures nodes == if id.Some? then Beaten(old(nodes), id.value, now, resources) else old(nodes)
      ensures r == if id == None then Failure(InvalidNodeId)
                   else if id.value in old(nodes) then Success(()) else Failure(NodeNotFound)
    {
      if id == None {
        return Failure(InvalidNodeId);
      }
      if id.value !in nodes {
        return Failure(NodeNotFound);
      }
      nodes := nodes[id.value := nodes[id.value].(lastHeartbeat := now)];
      nodes := nodes[id.value := nodes[id.value].(resources := resources)];
      nodes := nodes[id.value := nodes[id.value].(status := Healthy)];
      return Success(());
    }

    /** One round of the monitor: mark every node, collect the silent ones, then remove those. */
    method Sweep(now: int)
      modifies this
      ensures nodes == Swept(old(nodes), now)
    {
      var nodesToRemove := MarkNodes(now);
      ghost var marked := nodes;
      for i := 0 to |nodesToRemove|
        invariant nodes == map id | id in marked && id !in nodesToRemove[..i] :: marked[id]
      {
        nodes := nodes - {nodesToRemove[i]};
        assert nodesToRemove[..i + 1] == nodesToRemove[..i] + [nodesToRemove[i]];
      }
      assert nodesToRemove[..|nodesToRemove|] == nodesToRemove;
    }

    method MarkNodes(now: int) returns (nodesToRemove: seq<NodeId>)
      modifies this
      ensures nodes == Marked(old(nodes), old(nodes).Keys, now)
      ensures forall id :: id in nodesToRemove <==> id in nodes && Removes(old(nodes)[id], now)
    {
      hide SweptStatus, Removes;
      nodesToRemove := [];
      var todo := nodes.Keys;
      while todo != {}
        invariant todo <= old(nodes).Keys && nodes == Marked(old(nodes), old(nodes).Keys - todo, now)
        invariant forall id :: id in nodesToRemove <==> id in old(nodes).Keys - todo && Removes(old(nodes)[id], now)
        decreases |todo|
      {
        var id :| id in todo;
        var silent := MarkNode(id, now);
        if silent {
          nodesToRemove := nodesToRemove + [id];
        }
        todo := todo - {id};
      }
    }

    method MarkNode(id: NodeId, now: int) returns (silent: bool)
      requires id in nodes
      modifies this
      ensures nodes == old(nodes)[id := old(nodes)[id].(status := SweptStatus(old(nodes)[id], now))]
      ensures silent == Removes(old(nodes)[id], now)
    {
      var seconds := NumSeconds(now - nodes[id].lastHeartbeat);
      if seconds > SUSPECT_AFTER && nodes[id].status == Healthy {
        nodes := nodes[id := nodes[id].(status := Suspect)];
      }
      if seconds > REMOVE_AFTER {
        nodes := nodes[id := nodes[id].(status := Unavailable)];
        return true;
      }
      return false;
    }
  }

  /** The list when the nodes in `done` have been marked. */
  function Marked(nodes: Nodes, done: set<NodeId>, now: int): Nodes {
    map id | id in nodes :: if id in done then nodes[id].(status := SweptStatus(nodes[id], now)) else nodes[id]
  }

  // ----- timed runs -----

  /** `readAt` is when the call reads the clock, `at` when it changes the list. */
  datatype Event =
    | Register(id: NodeId, readAt: int, at: int, resources: int)
    | Heartbeat(id: NodeId, at: int, resources: int)
    | Sweep(readAt: int, at: int)

  /** `swept` is the clock reading of the last sweep, `now` the time of the last change. */
  datatype State = State(nodes: Nodes, swept: int, now: int)

  /**
   Every wait for the lock takes at most `wait`, and a sweep is over at most `period` after the
   reading of the one before.
   */
  datatype Timing = Timing(period: nat, wait: nat)

  predicate Timely(s: State, e: Event, t: Timing) {
    && s.now <= e.at <= s.swept + t.period
    && (!e.Heartbeat? ==> e.readAt <= e.at <= e.readAt + t.wait)
    && (e.Sweep? ==> s.swept <= e.readAt)
  }

  function Next(s: State, e: Event): State {
    match e
    case Register(id, readAt, at, resources) => State(Registered(s.nodes, id, readAt, resources), s.swept, at)
    case Heartbeat(id, at, resources) => State(Beaten(s.nodes, id, at, resources), s.swept, at)
    case Sweep(readAt, at) => State(Swept(s.nodes, readAt), readAt, at)
  }

  function After(s: State, es: seq<Event>): State {
    if es == [] then s else Next(After(s, es[..|es| - 1]), es[|es| - 1])
  }

  predicate TimelyRun(s: State, es: seq<Event>, t: Timing) {
    es == [] || (TimelyRun(s, es[..|es| - 1], t) && Timely(After(s, es[..|es| - 1]), es[|es| - 1], t))
  }

  /** The monitor starts with a sweep of the empty list. */
  function Initial(start: int): State {
    State(map[], start, start)
  }

  // ----- how old a listed heartbeat can be -----

  function Max(a: int, b: int): int {
    if a < b then b else a
  }

  /** At the last sweep no listed node had been silent for 31 seconds, and no healthy one for 11. */
  ghost predicate Fresh(s: State, t: Timing) {
    && s.swept <= s.now
    && forall id :: id in s.nodes ==>
         && (s.nodes[id].status == Healthy || s.nodes[id].status == Suspect)
         && s.swept - s.nodes[id].lastHeartbeat < Max(31000, t.wait + 1)
         && (s.nodes[id].status == Healthy ==> s.swept - s.nodes[id].lastHeartbeat < Max(11000, t.wait + 1))
  }

  lemma StepKeepsFresh(s: State, e: Event, t: Timing)
    requires Fresh(s, t) && Timely(s, e, t)
    ensures Fresh(Next(s, e), t)
  {
  }

  lemma {:induction false} RunKeepsFresh(start: int, es: seq<Event>, t: Timing)
    requires TimelyRun(Initial(start), es, t)
    ensures Fresh(After(Initial(start), es), t)
  {
    if es != [] {
      RunKeepsFresh(start, es[..|es| - 1], t);
      StepKeepsFresh(After(Initial(start), es[..|es| - 1]), es[|es| - 1], t);
    }
  }

  /**
   At any moment before the next sweep is overdue, a listed node is healthy or suspect, and
   its last heartbeat is less than 31 seconds and one period old, 11 seconds and one period
   if it is healthy (a wait for the lock longer than that counts instead).
   */
  lemma ListedNodesAreFresh(start: int, es: seq<Event>, t: Timing, id: NodeId, moment: int)
    requires TimelyRun(Initial(start), es, t)
    requires id in After(Initial(start), es).nodes
    requires After(Initial(start), es).now <= moment <= After(Initial(start), es).swept + t.period
    ensures var n := After(Initial(start), es).nodes[id];
            && (n.status == Healthy || n.status == Suspect)
            && moment - n.lastHeartbeat < Max(31000, t.wait + 1) + t.period
            && (n.status == Healthy ==> moment - n.lastHeartbeat < Max(11000, t.wait + 1) + t.period)
  {
    RunKeepsFresh(start, es, t);
  }

  /** With sweeps every five seconds and locks that are free: 36 seconds, and 16 for a healthy node. */
  lemma ListedWithin36Seconds(start: int, es: seq<Event>, id: NodeId, moment: int)
    requires TimelyRun(Initial(start), es, Timing(5000, 0))
    requires id in After(Initial(start), es).nodes
    requires After(Initial(start), es).now <= moment <= After(Initial(start), es).swept + 5000
    ensures moment - After(Initial(start), es).nodes[id].lastHeartbeat < 36000
    ensures After(Initial(start), es).nodes[id].status == Healthy ==>
              moment - After(Initial(start), es).nodes[id].lastHeartbeat < 16000
  {
    ListedNodesAreFresh(start, es, Timing(5000, 0), id, moment);
  }

  // ----- a node that keeps sending is never removed -----

  /** The call sets the last heartbeat of the node. */
  predicate Beats(e: Event, id: NodeId) {
    !e.Sweep? && e.id == id
  }

  function BeatTime(e: Event): int
    requires !e.Sweep?
  {
    if e.Register? then e.readAt else e.at
  }

  /** From `last` to `until`, successive heartbeats of the node are less than 31 seconds apart. */
  predicate GapsBelow31Seconds(last: int, es: seq<Event>, id: NodeId, until: int) {
    if es == [] then until - last < 31000
    else
      var e := es[|es| - 1];
      if Beats(e, id) then until - BeatTime(e) < 31000 && GapsBelow31Seconds(last, es[..|es| - 1], id, BeatTime(e))
      else GapsBelow31Seconds(last, es[..|es| - 1], id, until)
  }

  function LastBeat(last: int, es: seq<Event>, id: NodeId): int {
    if es == [] then last
    else if Beats(es[|es| - 1], id) then BeatTime(es[|es| - 1])
    else LastBeat(last, es[..|es| - 1], id)
  }

  lemma {:induction false} LastGap(last: int, es: seq<Event>, id: NodeId, until: int)
    requires GapsBelow31Seconds(last, es, id, until)
    ensures until - LastBeat(last, es, id) < 31000
  {
    if es != [] && !Beats(es[|es| - 1], id) {
      LastGap(last, es[..|es| - 1], id, until);
    }
  }

  /** No second registration takes over the id. */
  predicate NotReregistered(es: seq<Event>, id: NodeId) {
    forall i :: 0 <= i < |es| ==> !(es[i].Register? && es[i].id == id)
  }

  /** While successive heartbeats stay less than 31 seconds apart the node stays listed, whenever the sweeps come. */
  lemma {:induction false} AliveNodeIsNeverRemoved(s: State, es: seq<Event>, t: Timing, id: NodeId, until: int)
    requires TimelyRun(s, es, t) && id in s.nodes && NotReregistered(es, id)
    requires After(s, es).now <= until && GapsBelow31Seconds(s.nodes[id].lastHeartbeat, es, id, until)
    ensures id in After(s, es).nodes
    ensures After(s, es).nodes[id].lastHeartbeat == LastBeat(s.nodes[id].lastHeartbeat, es, id)
  {
    if es != [] {
      var front, e := es[..|es| - 1], es[|es| - 1];
      AliveNodeIsNeverRemoved(s, front, t, id, if Beats(e, id) then BeatTime(e) else until);
      LastGap(s.nodes[id].lastHeartbeat, front, id, if Beats(e, id) then BeatTime(e) else until);
    }
  }

  /**
   A sweep removes a node exactly if it was silent for 31 whole seconds when the sweep read
   the clock, and turns it from Healthy to Suspect exactly if it was silent for 11.
   */
  lemma SweepRemovesIff(s: State, e: Event, id: NodeId)
    requires e.Sweep? && id in s.nodes
    ensures var n, silent := s.nodes[id], e.readAt - s.nodes[id].lastHeartbeat;
            && (id !in Next(s, e).nodes <==> silent >= 31000)
            && (silent < 31000 ==>
                  Next(s, e).nodes[id] ==
                    n.(status := if n.status == Healthy && silent >= 11000 then Suspect else n.status))
  {
  }

  lemma {:induction false} SilentNodeKeepsItsTime(s: State, es: seq<Event>, id: NodeId)
    requires forall i :: 0 <= i < |es| ==> !Beats(es[i], id)
    ensures id in After(s, es).nodes ==>
              id in s.nodes && After(s, es).nodes[id].lastHeartbeat == s.nodes[id].lastHeartbeat
  {
    if es != [] {
      SilentNodeKeepsItsTime(s, es[..|es| - 1], id);
    }
  }

  /** A node that is not listed is not listed again by heartbeats or sweeps, only by a registration of its id. */
  lemma {:induction false} UnlistedStaysUnlisted(s: State, es: seq<Event>, id: NodeId)
    requires id !in s.nodes
    ensures NotReregistered(es, id) ==> id !in After(s, es).nodes
  {
    if es != [] {
      UnlistedStaysUnlisted(s, es[..|es| - 1], id);
      assert NotReregistered(es, id) ==> NotReregistered(es[..|es| - 1], id);
    }
  }

  /**
   A node that falls silent is gone before 31 seconds and one period have passed, and nothing
   that comes later brings it back, heartbeats included: only a registration does.
   */
  lemma SilentNodeIsRemoved(start: int, before: seq<Event>, es: seq<Event>, later: seq<Event>, t: Timing, id: NodeId)
    requires TimelyRun(Initial(start), before, t) && TimelyRun(After(Initial(start), before), es, t)
    requires id in After(Initial(start), before).nodes
    requires forall i :: 0 <= i < |es| ==> !Beats(es[i], id)
    requires var s := After(Initial(start), before);
             After(s, es).now - s.nodes[id].lastHeartbeat >= Max(31000, t.wait + 1) + t.period
    ensures var gone := After(After(Initial(start), before), es);
            id !in gone.nodes && (NotReregistered(later, id) ==> id !in After(gone, later).nodes)
  {
    var s := After(Initial(start), before);
    RunKeepsFresh(start, before, t);
    FreshRun(s, es, t);
    SilentNodeKeepsItsTime(s, es, id);
    UnlistedStaysUnlisted(After(s, es), later, id);
  }

  lemma {:induction false} FreshRun(s: State, es: seq<Event>, t: Timing)
    requires Fresh(s, t) && TimelyRun(s, es, t) && s.now <= s.swept + t.period
    ensures Fresh(After(s, es), t)
    ensures After(s, es).now <= After(s, es).swept + t.period
  {
    if es != [] {
      FreshRun(s, es[..|es| - 1], t);
      StepKeepsFresh(After(s, es[..|es| - 1]), es[|es| - 1], t);
    }
  }
}
