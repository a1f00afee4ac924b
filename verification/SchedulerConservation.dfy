/** The scheduler's counters as the sum of what each session id has reserved and not given back. */
module SchedulerConservation {
  import opened Wrappers
  import opened ClusterTypes
  import opened Sums
  import opened SchedulerModel
  import opened SchedulerLocks
  import opened SchedulerSessions

  // ----- all events, id by id -----

  /** How many reservations, or releases, were completed for each of the ids. */
  ghost function CountsOf(log: seq<Event>, ids: set<SessionId>, reserve: bool): map<SessionId, nat> {
    map id | id in ids :: CountOf(log, id, reserve)
  }

  /** The ids are all that occur in the log. */
  predicate Covers(ids: set<SessionId>, log: seq<Event>) {
    forall e :: e in log ==> e.id in ids
  }

  lemma {:induction false} NothingCounted(ids: set<SessionId>, reserve: bool)
    ensures Sum(CountsOf([], ids, reserve)) == 0
    decreases ids
  {
    if id :| id in ids {
      NothingCounted(ids - {id}, reserve);
      SumWithout(CountsOf([], ids, reserve), id);
      assert CountsOf([], ids, reserve) - {id} == CountsOf([], ids - {id}, reserve);
    }
  }

  /** Every event counts for one id. */
  lemma {:induction false} CountIsTheSum(log: seq<Event>, ids: set<SessionId>, reserve: bool)
    requires Covers(ids, log)
    ensures Count(log, reserve) == Sum(CountsOf(log, ids, reserve))
  {
    if log == [] {
      NothingCounted(ids, reserve);
    } else {
      var front, e := log[..|log| - 1], log[|log| - 1];
      CountIsTheSum(front, ids, reserve);
      SumWithout(CountsOf(log, ids, reserve), e.id);
      SumWithout(CountsOf(front, ids, reserve), e.id);
      assert CountsOf(log, ids, reserve) - {e.id} == CountsOf(front, ids, reserve) - {e.id};
    }
  }

  /** What the counters carry for a session: stored, in a call's hands, or stored over. */
  ghost function UnitsOf(c: Cluster, actions: seq<Action>, id: SessionId): nat {
    var s := Run(c, actions);
    |Owing(s.ops, id)| + Replaced(c, actions, id) + if id in s.data.sessions then 1 else 0
  }

  ghost function Units(c: Cluster, actions: seq<Action>, ids: set<SessionId>): map<SessionId, nat> {
    map id | id in ids :: UnitsOf(c, actions, id)
  }

  /**
   Conservation over all sessions: whenever no loop is under way, every selected node carries
   as many units as were reserved less those released, summed over the session ids, and that
   is one for each id that is stored, one for each call that has it in its hands, and one for
   each time it was stored over itself.
   */
  lemma CountersAreTheSessions(c: Cluster, actions: seq<Action>, ids: set<SessionId>, n: NodeId)
    requires ValidCluster(c) && n in Selected(c) && Settled(Run(c, actions)) && Covers(ids, Run(c, actions).log)
    ensures var s := Run(c, actions);
            var reserved, released := Sum(CountsOf(s.log, ids, true)), Sum(CountsOf(s.log, ids, false));
            && Held(s.data.ledger, n).amount == Times(reserved - released)
            && reserved - released == Sum(Units(c, actions, ids))
            && forall id :: id in ids ==>
                 CountOf(s.log, id, true) - CountOf(s.log, id, false) == UnitsOf(c, actions, id)
  {
    hide Run, Settled, Selected, Inv, Base, CountOf, Replaced, Owing;
    var log := Run(c, actions).log;
    RunKeepsInv(c, actions);
    LoadOfLog(c, actions, n);
    CountIsTheSum(log, ids, true);
    CountIsTheSum(log, ids, false);
    forall id ensures CountOf(log, id, true) == CountOf(log, id, false) + UnitsOf(c, actions, id) {
      RunBalances(c, actions, id);
    }
    SumOfDifferences(ids, CountsOf(log, ids, true), CountsOf(log, ids, false), Units(c, actions, ids));
  }

  lemma LoadOfLog(c: Cluster, actions: seq<Action>, n: NodeId)
    requires ValidCluster(c) && n in Selected(c) && Settled(Run(c, actions))
    ensures var s := Run(c, actions);
            Held(s.data.ledger, n).amount == Times(Count(s.log, true) - Count(s.log, false))
  {
    hide Run, Settled, Selected, Base, Count;
    RunKeepsInv(c, actions);
    SettledLoad(Run(c, actions), n);
  }

  // ----- one session and the others -----

  /** The events of all other sessions. */
  function OtherEvents(log: seq<Event>, id: SessionId): seq<Event> {
    if log == [] then []
    else
      var last, front := log[|log| - 1], OtherEvents(log[..|log| - 1], id);
      if last.id == id then front else front + [last]
  }

  lemma {:induction false} CountSplits(log: seq<Event>, id: SessionId, reserve: bool)
    ensures Count(log, reserve) == CountOf(log, id, reserve) + Count(OtherEvents(log, id), reserve)
  {
    if log != [] {
      CountSplits(log[..|log| - 1], id, reserve);
      CountOne(OtherEvents(log[..|log| - 1], id), log[|log| - 1], reserve);
    }
  }

  /** No loop is under way, and the session is neither stored nor in a call's hands. */
  ghost predicate Apart(s: System, id: SessionId) {
    Settled(s) && NotInHand(s, id) && id !in s.data.sessions
  }

  /** The session was stored over itself between the two moments. */
  ghost predicate ReusedBetween(c: Cluster, before: seq<Action>, after: seq<Action>, id: SessionId) {
    exists i :: |before| <= i < |after| && ReusesAt(c, after, i, id)
  }

  lemma GivesBackIff(c: Cluster, before: seq<Action>, after: seq<Action>, between: seq<Event>, id: SessionId)
    requires ValidCluster(c) && before <= after && Apart(Run(c, before), id) && Apart(Run(c, after), id)
    requires Run(c, after).log == Run(c, before).log + between
    ensures CountOf(between, id, true) == CountOf(between, id, false) <==> !ReusedBetween(c, before, after, id)
  {
    hide Run, Settled, NotInHand, CountOf, ReusesAt;
    SessionGivesBackIff(c, before, after, between, id);
  }

  lemma OnlyOthersMove(log: seq<Event>, id: SessionId)
    ensures var others := OtherEvents(log, id);
            Count(log, true) - Count(log, false) == Count(others, true) - Count(others, false)
            <==> CountOf(log, id, true) == CountOf(log, id, false)
  {
    CountSplits(log, id, true);
    CountSplits(log, id, false);
  }

  lemma MoveIs(a: int, b: int, move: int)
    ensures Times(b) == Plus(Times(a), Times(move)) <==> b - a == move
  {
  }

  /**
   A schedule and its later release restore the counters, whatever ran in between: the
   counters of a selected node have moved by what the other sessions reserved less what they
   released if and only if the session was not stored over itself meanwhile.
   */
  lemma SessionRestoresTheCountersIff(
      c: Cluster, before: seq<Action>, after: seq<Action>, between: seq<Event>, id: SessionId, n: NodeId)
    requires ValidCluster(c) && before <= after && Apart(Run(c, before), id) && Apart(Run(c, after), id)
    requires Run(c, after).log == Run(c, before).log + between && n in Selected(c)
    ensures var others := OtherEvents(between, id);
            Held(Run(c, after).data.ledger, n).amount
            == Plus(Held(Run(c, before).data.ledger, n).amount, Times(Count(others, true) - Count(others, false)))
            <==> !ReusedBetween(c, before, after, id)
  {
    hide Run, ValidCluster, Settled, NotInHand, Selected, Held, Base, Count, CountOf, OtherEvents, ReusedBetween,
      Times, Plus;
    LedgerIsConserved(c, before, after, between, n);
    GivesBackIff(c, before, after, between, id);
    OnlyOthersMove(between, id);
    MoveIs(Base(Run(c, before)), Base(Run(c, after)),
           Count(OtherEvents(between, id), true) - Count(OtherEvents(between, id), false));
  }
}
