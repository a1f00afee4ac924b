/** The coordinator's list after any run, from the calls and sweeps of the run alone. */
module FailureRuns {
  import opened ClusterTypes
  import opened FailureDetector

  // ----- one event -----

  /** A heartbeat refreshes a listed node and makes it Healthy, and does nothing for one that is not listed. */
  lemma HeartbeatIs(s: State, e: Event)
    requires e.Heartbeat?
    ensures var nodes, nodes' := s.nodes, Next(s, e).nodes;
            if e.id !in nodes then nodes' == nodes
            else
              && nodes'.Keys == nodes.Keys && (forall x :: x in nodes && x != e.id ==> nodes'[x] == nodes[x])
              && nodes'[e.id].status == Healthy && nodes'[e.id].lastHeartbeat == e.at
              && nodes'[e.id].resources == e.resources
  {
  }

  /** A registration lists its node as Healthy, with the clock reading made before the wait for the lock. */
  lemma RegistrationIs(s: State, e: Event)
    requires e.Register?
    ensures var nodes, nodes' := s.nodes, Next(s, e).nodes;
            && nodes'.Keys == nodes.Keys + {e.id} && (forall x :: x in nodes && x != e.id ==> nodes'[x] == nodes[x])
            && nodes'[e.id].status == Healthy && nodes'[e.id].lastHeartbeat == e.readAt
            && nodes'[e.id].resources == e.resources
  {
  }

  // ----- whole runs -----

  /** Sweep `k` comes after the last heartbeat of the node and reads the clock 11 seconds or more after it. */
  ghost predicate SuspectsAt(es: seq<Event>, k: int, id: NodeId) {
    && 0 <= k < |es| && es[k].Sweep? && (forall l :: k < l < |es| ==> !Beats(es[l], id))
    && es[k].readAt - LastBeat(0, es, id) >= 11000
  }

  ghost predicate Suspected(es: seq<Event>, id: NodeId) {
    exists k :: SuspectsAt(es, k, id)
  }

  /** The resources that the last heartbeat or registration of the node reported. */
  function LastResources(es: seq<Event>, id: NodeId): int {
    if es == [] then 0
    else if Beats(es[|es| - 1], id) then es[|es| - 1].resources
    else LastResources(es[..|es| - 1], id)
  }

  lemma SuspectedStep(es: seq<Event>, id: NodeId)
    requires es != []
    ensures var front, e := es[..|es| - 1], es[|es| - 1];
            Suspected(es, id) <==>
              !Beats(e, id) && (Suspected(front, id) || (e.Sweep? && e.readAt - LastBeat(0, front, id) >= 11000))
  {
    var front, last := es[..|es| - 1], |es| - 1;
    if !Beats(es[last], id) {
      forall k | 0 <= k < last ensures SuspectsAt(es, k, id) <==> SuspectsAt(front, k, id) {
        SuspectsEarlier(es, k, id);
      }
      assert SuspectsAt(es, last, id) <==> es[last].Sweep? && es[last].readAt - LastBeat(0, front, id) >= 11000;
    }
  }

  lemma SuspectsEarlier(es: seq<Event>, k: int, id: NodeId)
    requires 0 <= k < |es| - 1 && !Beats(es[|es| - 1], id)
    ensures SuspectsAt(es, k, id) <==> SuspectsAt(es[..|es| - 1], k, id)
  {
    var front := es[..|es| - 1];
    assert forall l :: 0 <= l < |front| ==> front[l] == es[l];
  }

  /**
   A listed node shows the time and resources of its last heartbeat or registration, and is
   Suspect if and only if a sweep since then read the clock 11 seconds or more after it.
   */
  lemma {:induction false} ListedNodeIs(start: int, es: seq<Event>, id: NodeId)
    requires id in After(Initial(start), es).nodes
    ensures var n := After(Initial(start), es).nodes[id];
            && n.lastHeartbeat == LastBeat(0, es, id) && n.resources == LastResources(es, id)
            && n.status == if Suspected(es, id) then Suspect else Healthy
  {
    hide Suspected;
    var front, e := es[..|es| - 1], es[|es| - 1];
    SuspectedStep(es, id);
    if id in After(Initial(start), front).nodes {
      ListedNodeIs(start, front, id);
    }
  }

  /** Registration `r` lists the node, and every sweep since came less than 31 seconds after its last heartbeat. */
  ghost predicate ListedSince(es: seq<Event>, r: nat, id: NodeId) {
    && r < |es| && es[r].Register? && es[r].id == id
    && forall k :: r < k < |es| && es[k].Sweep? ==> es[k].readAt - LastBeat(0, es[..k], id) < 31000
  }

  lemma ListedSinceStep(es: seq<Event>, r: nat, id: NodeId)
    requires es != []
    ensures var front, e := es[..|es| - 1], es[|es| - 1];
            ListedSince(es, r, id) <==>
              if r == |front| then e.Register? && e.id == id
              else ListedSince(front, r, id) && (e.Sweep? ==> e.readAt - LastBeat(0, front, id) < 31000)
  {
    var front, last := es[..|es| - 1], |es| - 1;
    assert forall k :: 0 <= k < last ==> front[k] == es[k] && front[..k] == es[..k];
    assert es[..last] == front;
  }

  /**
   A node is listed if and only if some registration of the run listed it and no sweep since
   read the clock 31 seconds or more after the node's last heartbeat before that sweep.
   */
  lemma {:induction false} ListedIff(start: int, es: seq<Event>, id: NodeId)
    ensures id in After(Initial(start), es).nodes <==> exists r: nat :: ListedSince(es, r, id)
  {
    hide ListedSince;
    if es == [] {
      NeverListed(id);
    } else {
      var front, e := es[..|es| - 1], es[|es| - 1];
      ListedIff(start, front, id);
      forall r: nat
        ensures ListedSince(es, r, id) <==>
                  if r == |front| then e.Register? && e.id == id
                  else ListedSince(front, r, id) && (e.Sweep? ==> e.readAt - LastBeat(0, front, id) < 31000)
      {
        ListedSinceStep(es, r, id);
      }
      NotListedAtEnd(front, id);
      if id in After(Initial(start), front).nodes {
        ListedNodeIs(start, front, id);
      }
      if e.Sweep? && id in After(Initial(start), front).nodes {
        SweepRemovesIff(After(Initial(start), front), e, id);
      }
      assert e.Register? && e.id == id ==> ListedSince(es, |front|, id);
    }
  }

  lemma NeverListed(id: NodeId)
    ensures forall r: nat :: !ListedSince([], r, id)
  {
  }

  lemma NotListedAtEnd(es: seq<Event>, id: NodeId)
    ensures !ListedSince(es, |es|, id)
  {
  }
}
