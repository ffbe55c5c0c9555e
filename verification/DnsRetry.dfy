/** How the resolver retries its active queries (net/dns.lua): `pulse` moves a query that has
    waited long enough to the next server, `servfail` moves every query of a failed server.

    Servers are numbered from 1. Opening the socket to a server may fail, and that failure is
    handled by a nested `servfail`; `broken` is the set of servers for which it does.
 */
module DnsRetry {
  /** A query is known by its id and its question. */
  datatype Key = Key(id: nat, question: string)

  /** The number of entries of `resolver.delays`. */
  const DELAYS := 2

  datatype Query = Query(server: nat, delay: nat, retries: nat, retryAt: real)

  /** A query in progress: its server is one of the list, its delay one of the list, and it
      has not failed on as many servers as there are. */
  ghost predicate InProgress(q: Query, servers: nat) {
    1 <= q.server <= servers && 1 <= q.delay <= DELAYS && q.retries < servers
  }

  function NextServer(server: nat, servers: nat): nat {
    if server + 1 > servers then 1 else server + 1
  }

  /** Retries left, in the worst case: failures first, then rounds of delays, then servers of a round. */
  function Rank(q: Query, servers: nat): int {
    (servers - q.retries) * (DELAYS * servers) + (DELAYS - q.delay) * servers + (servers - q.server)
  }

  function AfterFailure(q: Query, servers: nat): Query {
    q.(server := NextServer(q.server, servers), retries := q.retries + 1)
  }

  function AfterTimeout(q: Query, servers: nat): Query {
    q.(server := NextServer(q.server, servers), delay := if q.server + 1 > servers then q.delay + 1 else q.delay)
  }

  /** The rank of a query in progress is bounded. */
  lemma RankBounded(q: Query, servers: nat)
    requires InProgress(q, servers)
    ensures 0 < Rank(q, servers) < (servers + 1) * (DELAYS * servers)
  {
  }

  /** Both kinds of retry lower the rank, until the query is dropped. */
  lemma RankDecreases(q: Query, servers: nat)
    requires InProgress(q, servers)
    ensures Rank(AfterFailure(q, servers), servers) < Rank(q, servers)
    ensures Rank(AfterTimeout(q, servers), servers) < Rank(q, servers)
    ensures AfterFailure(q, servers).retries < servers ==> InProgress(AfterFailure(q, servers), servers)
    ensures AfterTimeout(q, servers).delay <= DELAYS ==> InProgress(AfterTimeout(q, servers), servers)
  {
  }

  // ---- All active queries ----

  ghost predicate AllInProgress(active: map<Key, Query>, servers: nat) {
    forall k :: k in active ==> InProgress(active[k], servers)
  }

  /** The retries left of all active queries together. */
  ghost function Total(active: map<Key, Query>, servers: nat): (r: nat)
    requires AllInProgress(active, servers)
  {
    if active == map[] then 0 else
    var k :| k in active;
    RankBounded(active[k], servers);
    Rank(active[k], servers) + Total(active - {k}, servers)
  }

  lemma {:induction false} TotalRemove(active: map<Key, Query>, servers: nat, k: Key)
    requires AllInProgress(active, servers) && k in active
    ensures Total(active, servers) == Rank(active[k], servers) + Total(active - {k}, servers)
    decreases active
  {
    var k' :| k' in active && Total(active, servers) == Rank(active[k'], servers) + Total(active - {k'}, servers);
    if k' != k {
      TotalRemove(active - {k'}, servers, k);
      TotalRemove(active - {k}, servers, k');
      assert active - {k'} - {k} == active - {k} - {k'};
    }
  }

  lemma TotalUpdate(active: map<Key, Query>, servers: nat, k: Key, q: Query)
    requires AllInProgress(active, servers) && k in active && InProgress(q, servers)
    ensures Total(active[k := q], servers) == Total(active, servers) - Rank(active[k], servers) + Rank(q, servers)
  {
    TotalRemove(active, servers, k);
    TotalRemove(active[k := q], servers, k);
    assert active[k := q] - {k} == active - {k};
  }

  /** The active queries with one of them moved on, or dropped. */
  function Moved(active: map<Key, Query>, k: Key, q: Query, drop: bool): map<Key, Query> {
    if drop then active - {k} else active[k := q]
  }

  lemma FailureProgress(active: map<Key, Query>, servers: nat, k: Key)
    requires AllInProgress(active, servers) && k in active
    ensures var q := AfterFailure(active[k], servers);
      var active' := Moved(active, k, q, q.retries >= servers);
      AllInProgress(active', servers) && Total(active', servers) < Total(active, servers)
  {
    RankDecreases(active[k], servers);
    RankBounded(active[k], servers);
    var q := AfterFailure(active[k], servers);
    if q.retries >= servers {
      TotalRemove(active, servers, k);
    } else {
      TotalUpdate(active, servers, k, q);
    }
  }

  lemma TimeoutProgress(active: map<Key, Query>, servers: nat, k: Key, retryAt: real)
    requires AllInProgress(active, servers) && k in active
    ensures var q := AfterTimeout(active[k], servers).(retryAt := retryAt);
      var active' := Moved(active, k, q, q.delay > DELAYS);
      AllInProgress(active', servers) && Total(active', servers) < Total(active, servers)
  {
    RankDecreases(active[k], servers);
    RankBounded(active[k], servers);
    var q := AfterTimeout(active[k], servers).(retryAt := retryAt);
    if q.delay > DELAYS {
      TotalRemove(active, servers, k);
    } else {
      TotalUpdate(active, servers, k, q);
    }
  }

  /** No query is touched except by failing over, and every query of server `num` has been, but for those in `todo`. */
  ghost predicate Failing(before: map<Key, Query>, after: map<Key, Query>, todo: set<Key>, num: nat) {
    && after.Keys <= before.Keys
    && (forall k :: k in after ==>
          && after[k].delay == before[k].delay && after[k].retryAt == before[k].retryAt
          && (after[k] == before[k] || after[k].retries > before[k].retries)
          && (before[k].server == num && k !in todo ==> after[k].retries > before[k].retries))
  }

  /** Exactly the queries of server `num` have moved to the next server, or were dropped when they
      had failed on every server; those in `todo` are still as before. */
  ghost predicate FailedOver(before: map<Key, Query>, after: map<Key, Query>, todo: set<Key>, num: nat, servers: nat) {
    forall k ::
      if k !in before then k !in after
      else if k in todo || before[k].server != num then k in after && after[k] == before[k]
      else if before[k].retries + 1 >= servers then k !in after
      else k in after && after[k] == AfterFailure(before[k], servers)
  }

  /** Exactly the queries that were due have moved on with a new time, or were dropped after the last
      delay; those in `todo` are still as before. */
  ghost predicate TimedOut(before: map<Key, Query>, after: map<Key, Query>, todo: set<Key>, now: real, servers: nat) {
    forall k ::
      if k !in before then k !in after
      else if k in todo || now < before[k].retryAt then k in after && after[k] == before[k]
      else if AfterTimeout(before[k], servers).delay > DELAYS then k !in after
      else
        var q := AfterTimeout(before[k], servers);
        k in after && after[k] == q.(retryAt := now + DelayOf(q.delay))
  }

  /** A query of server `num` that is still active has gone to the next server, or from the last to the first. */
  ghost predicate NextInLine(before: map<Key, Query>, after: map<Key, Query>, num: nat, servers: nat) {
    forall k :: k in after && k in before && before[k].server == num ==>
      && after[k].server == (if num < servers then num + 1 else 1)
      && after[k].retries == before[k].retries + 1
  }

  lemma FailedOverInLine(before: map<Key, Query>, after: map<Key, Query>, num: nat, servers: nat)
    requires FailedOver(before, after, {}, num, servers)
    ensures NextInLine(before, after, num, servers)
  {
  }

  lemma FailingOne(before: map<Key, Query>, active: map<Key, Query>, todo: set<Key>, k: Key, num: nat, servers: nat)
    requires k in todo && k in active && active[k].server == num
    requires Failing(before, active, todo, num)
    ensures var q := AfterFailure(active[k], servers);
      var active' := Moved(active, k, q, q.retries >= servers);
      && Failing(before, active', todo - {k}, num)
      && (FailedOver(before, active, todo, num, servers) ==> FailedOver(before, active', todo - {k}, num, servers))
  {
  }

  lemma FailingSkip(before: map<Key, Query>, active: map<Key, Query>, todo: set<Key>, k: Key, num: nat, servers: nat)
    requires k in todo && !(k in active && active[k].server == num)
    requires Failing(before, active, todo, num)
    ensures Failing(before, active, todo - {k}, num)
    ensures FailedOver(before, active, todo, num, servers) ==> FailedOver(before, active, todo - {k}, num, servers)
  {
  }

  lemma FailingNested(before: map<Key, Query>, active: map<Key, Query>, after: map<Key, Query>, todo: set<Key>, num: nat, inner: nat)
    requires Failing(before, active, todo, num) && Failing(active, after, {}, inner)
    ensures Failing(before, after, todo, num)
  {
  }

  class Resolver {
    const servers: nat
    var active: map<Key, Query>
    var bestServer: nat
    /** How often a query was moved to another server, or given up. */
    var retries: nat

    ghost predicate Valid()
      reads this
    {
      servers >= 1 && 1 <= bestServer <= servers && AllInProgress(active, servers)
    }

    constructor (servers: nat)
      requires servers >= 1
      ensures Valid() && this.servers == servers && active == map[]
    {
      this.servers, active, bestServer, retries := servers, map[], 1, 0;
    }

    /** query: a new query goes to the best server. */
    method Ask(k: Key, now: real)
      requires Valid()
      modifies this`active
      ensures Valid() && active == old(active)[k := Query(bestServer, 1, 0, now + DelayOf(1))]
    {
      active := active[k := Query(bestServer, 1, 0, now + DelayOf(1))];
    }

    /** A response retires its query. */
    method Answered(k: Key)
      requires Valid()
      modifies this`active
      ensures Valid() && active == old(active) - {k}
    {
      active := active - {k};
    }

    /** Moves one query of the failed server to the next one, or drops it. If the next server cannot be
        reached either, that one fails in turn. `before` and `todo` are those of the caller. */
    method FailOver(k: Key, num: nat, broken: (nat, nat) -> bool, ghost before: map<Key, Query>, ghost todo: set<Key>)
      requires Valid() && k in todo && k in active && active[k].server == num
      requires Failing(before, active, todo, num)
      modifies this
      ensures Valid()
      ensures retries > old(retries) && retries + Total(active, servers) <= old(retries + Total(active, servers))
      ensures Failing(before, active, todo - {k}, num)
      ensures (forall s, t :: !broken(s, t)) ==>
        && (FailedOver(before, old(active), todo, num, servers) ==> FailedOver(before, active, todo - {k}, num, servers))
        && bestServer == old(bestServer)
      // if the next server cannot be reached, all its queries fail over too
      ensures var q := AfterFailure(old(active)[k], servers);
        q.retries < servers && broken(q.server, old(retries) + 1) ==> Failing(old(active)[k := q], active, {}, q.server)
      decreases Total(active, servers), 0
    {
      FailingOne(before, active, todo, k, num, servers);
      FailureProgress(active, servers, k);
      var q := AfterFailure(active[k], servers);
      retries := retries + 1;
      active := if q.retries >= servers then active - {k} else active[k := q];
      if q.retries < servers && broken(q.server, retries) {
        ghost var moved := active;
        ServFail(q.server, broken);
        FailingNested(before, moved, active, todo - {k}, num, q.server);
      }
    }

    /** servfail: every query of the failed server fails over. */
    method ServFail(num: nat, broken: (nat, nat) -> bool)
      requires Valid()
      modifies this
      ensures Valid()
      // every retry uses up some of the retries left, so the nesting ends
      ensures retries >= old(retries) && retries + Total(active, servers) <= old(retries + Total(active, servers))
      ensures Failing(old(active), active, {}, num)
      ensures (forall s, t :: !broken(s, t)) ==>
        && FailedOver(old(active), active, {}, num, servers)
        && bestServer == if old(bestServer) == num then NextServer(num, servers) else old(bestServer)
      // a query of the failed server goes to the next one, and after the last to the first
      ensures (forall s, t :: !broken(s, t)) ==> NextInLine(old(active), active, num, servers)
      decreases Total(active, servers), 1
    {
      var todo := active.Keys;
      while todo != {}
        invariant Valid()
        invariant retries >= old(retries) && retries + Total(active, servers) <= old(retries + Total(active, servers))
        invariant Failing(old(active), active, todo, num)
        invariant (forall s, t :: !broken(s, t)) ==> FailedOver(old(active), active, todo, num, servers) && bestServer == old(bestServer)
        decreases |todo|
      {
        var k :| k in todo;
        if k in active && active[k].server == num {
          FailOver(k, num, broken, old(active), todo);
        } else {
          FailingSkip(old(active), active, todo, k, num, servers);
        }
        todo := todo - {k};
      }
      if forall s: nat, t: nat :: !broken(s, t) {
        FailedOverInLine(old(active), active, num, servers);
      }
      if num == bestServer {
        bestServer := NextServer(bestServer, servers);
      }
    }

    /** Moves one query that is due to the next server, or drops it after the last delay. */
    method TimeOut(k: Key, now: real)
      requires Valid() && k in active && now >= active[k].retryAt
      modifies this`active, this`retries
      ensures Valid()
      ensures retries == old(retries) + 1 && retries + Total(active, servers) <= old(retries + Total(active, servers))
      ensures var q := AfterTimeout(old(active)[k], servers);
        if q.delay > DELAYS then active == old(active) - {k}
        else active == old(active)[k := q.(retryAt := now + DelayOf(q.delay))]
    {
      var q := AfterTimeout(active[k], servers);
      retries := retries + 1;
      if q.delay > DELAYS {
        TimeoutProgress(active, servers, k, q.retryAt);
        active := active - {k};
      } else {
        TimeoutProgress(active, servers, k, now + DelayOf(q.delay));
        active := active[k := q.(retryAt := now + DelayOf(q.delay))];
      }
    }

    /** pulse, after the responses were taken in: every query that is due moves on or is dropped. */
    method Pulse(now: real) returns (waiting: bool)
      requires Valid()
      modifies this`active, this`retries
      ensures Valid()
      ensures retries >= old(retries) && retries + Total(active, servers) <= old(retries + Total(active, servers))
      ensures waiting <==> active != map[]
      ensures TimedOut(old(active), active, {}, now, servers)
      // a due query goes to the next server, after the last to the first with the next delay, and then is given up
      ensures forall k :: k in old(active) && now >= old(active)[k].retryAt ==>
        var q := old(active)[k];
        if q.server < servers then
          k in active && active[k] == Query(q.server + 1, q.delay, q.retries, now + if q.delay == 1 then 1.0 else 3.0)
        else if q.delay == 1 then k in active && active[k] == Query(1, 2, q.retries, now + 3.0)
        else k !in active
    {
      var todo := active.Keys;
      while todo != {}
        invariant Valid() && todo <= old(active.Keys)
        invariant retries >= old(retries) && retries + Total(active, servers) <= old(retries + Total(active, servers))
        invariant TimedOut(old(active), active, todo, now, servers)
        decreases |todo|
      {
        var k :| k in todo;
        if now >= active[k].retryAt {
          TimeOut(k, now);
        }
        todo := todo - {k};
      }
      waiting := active != map[];
    }
  }

  /** The configured delays. */
  function DelayOf(delay: nat): real {
    if delay == 1 then 1.0 else 3.0
  }
}
