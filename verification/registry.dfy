/** The five operations of the `QueryRegistry` class and its destructor.

    Every operation runs under the registry's single lock, so each is modelled
    as one atomic step from a registry to a `Step` (outcome and next registry).
    A thrown exception is an `Err` outcome, and every failing step returns the
    registry unchanged. The wall clock is the parameter `now`, in seconds. */
module QueryRegistry {
  import opened RegistryTypes

  /** `insert`: store `query` under (v, id), resident, expiring `ttl` seconds
      from now. A pair that already has an entry is an error. */
  function Insert<Q>(reg: Registry<Q>, now: int, v: Vocbase, id: QueryId, query: Q,
                     ttl: int := DefaultTtl): (s: Step<Q, ()>)
    ensures Lookup(reg, v, id).Some? ==> s == Step(Err(AlreadyExists), reg)
    ensures Lookup(reg, v, id).None? ==>
      && s.outcome == Ok(())
      && Lookup(s.next, v, id) == Some(Entry(v, id, query, false, ttl, now + ttl))
    ensures SameElsewhere(reg, s.next, v, id)
  {
    var inner := if v in reg.queries then reg.queries[v] else map[];
    if id in inner then
      Step(Err(AlreadyExists), reg)
    else
      Step(Ok(()), Registry(reg.queries[v := inner[id := Entry(v, id, query, false, ttl, now + ttl)]]))
  }

  /** `open`: hand the query of (v, id) to the caller. A missing pair yields
      `None` (not an error); an entry that is already open is an error; a
      resident entry stays in the registry, now marked open. */
  function Open<Q>(reg: Registry<Q>, v: Vocbase, id: QueryId): (s: Step<Q, Option<Q>>)
    ensures Lookup(reg, v, id).None? ==> s == Step(Ok(None), reg)
    ensures StateOf(reg, v, id) == CheckedOut ==> s == Step(Err(AlreadyInUse), reg)
    ensures StateOf(reg, v, id) == Resident ==>
      var e := Lookup(reg, v, id).value;
      && s.outcome == Ok(Some(e.query))
      && Lookup(s.next, v, id) == Some(e.(isOpen := true))
    ensures SameElsewhere(reg, s.next, v, id)
  {
    if v !in reg.queries || id !in reg.queries[v] then
      Step(Ok(None), reg)
    else
      var inner: map<QueryId, Entry<Q>> := reg.queries[v];
      var e := inner[id];
      if e.isOpen then
        Step(Err(AlreadyInUse), reg)
      else
        Step(Ok(Some(e.query)), Registry(reg.queries[v := inner[id := e.(isOpen := true)]]))
  }

  /** The ttl `close` applies: its argument, or the entry's original time to
      live when the argument is negative. */
  function EffectiveTtl<Q>(e: Entry<Q>, ttl: int): int
  {
    if ttl < 0 then e.timeToLive else ttl
  }

  /** `close`: return an open query to the registry, which marks it resident
      again and restarts its expiry clock. A missing pair is `NotFound`; an
      entry that is not open is `NotOpen`. The stored time to live is kept. */
  function Close<Q>(reg: Registry<Q>, now: int, v: Vocbase, id: QueryId,
                    ttl: int := KeepTtl): (s: Step<Q, ()>)
    ensures Lookup(reg, v, id).None? ==> s == Step(Err(NotFound), reg)
    ensures StateOf(reg, v, id) == Resident ==> s == Step(Err(NotOpen), reg)
    ensures StateOf(reg, v, id) == CheckedOut ==>
      var e := Lookup(reg, v, id).value;
      && s.outcome == Ok(())
      && Lookup(s.next, v, id).Some?
      && var e' := Lookup(s.next, v, id).value;
         && e' == e.(isOpen := false, expires := e'.expires)
         && (ttl >= 0 ==> e'.expires == now + ttl)
         && (ttl < 0 ==> e'.expires == now + e.timeToLive)
    ensures SameElsewhere(reg, s.next, v, id)
  {
    if v !in reg.queries || id !in reg.queries[v] then
      Step(Err(NotFound), reg)
    else
      var inner: map<QueryId, Entry<Q>> := reg.queries[v];
      var e := inner[id];
      if !e.isOpen then
        Step(Err(NotOpen), reg)
      else
        var e' := e.(isOpen := false, expires := now + EffectiveTtl(e, ttl));
        Step(Ok(()), Registry(reg.queries[v := inner[id := e']]))
  }

  /** `destroy`: remove the entry of (v, id) whether it is open or not, and
      hand back the query it deletes. A missing pair is `NotFound`. */
  function Destroy<Q>(reg: Registry<Q>, v: Vocbase, id: QueryId): (s: Step<Q, Q>)
    ensures Lookup(reg, v, id).None? ==> s == Step(Err(NotFound), reg)
    ensures Lookup(reg, v, id).Some? ==> s.outcome == Ok(Lookup(reg, v, id).value.query)
    ensures Lookup(s.next, v, id) == None
    ensures SameElsewhere(reg, s.next, v, id)
  {
    if v !in reg.queries || id !in reg.queries[v] then
      Step(Err(NotFound), reg)
    else
      Step(Ok(reg.queries[v][id].query), Registry(reg.queries[v := reg.queries[v] - {id}]))
  }

  /** `expireQueries`: remove exactly the entries that are not open and whose
      expiry is at or before `now`. */
  function ExpireQueries<Q>(reg: Registry<Q>, now: int): (r: Registry<Q>)
    ensures forall v: Vocbase, id: QueryId ::
      Lookup(r, v, id).Some? <==> Lookup(reg, v, id).Some? && !ExpiredAt(reg, v, id, now)
    ensures forall v: Vocbase, id: QueryId ::
      Lookup(r, v, id).Some? ==> Lookup(r, v, id) == Lookup(reg, v, id)
  {
    Registry(map v | v in reg.queries ::
      map id | id in reg.queries[v] && !Expired(reg.queries[v][id], now) :: reg.queries[v][id])
  }

  /** Walks the map of maps and collects, keyed by (vocbase, id), the query of
      every entry `pick` accepts. */
  method Select<Q>(reg: Registry<Q>, pick: Entry<Q> -> bool) returns (picked: map<(Vocbase, QueryId), Q>)
    ensures forall v: Vocbase, id: QueryId ::
      (v, id) in picked <==> Lookup(reg, v, id).Some? && pick(Lookup(reg, v, id).value)
    ensures forall v: Vocbase, id: QueryId ::
      (v, id) in picked ==> picked[(v, id)] == Lookup(reg, v, id).value.query
  {
    picked := map[];
    var vocbases := reg.queries.Keys;
    while vocbases != {}
      invariant vocbases <= reg.queries.Keys
      invariant forall v: Vocbase, id: QueryId :: (v, id) in picked <==>
        v !in vocbases && Lookup(reg, v, id).Some? && pick(Lookup(reg, v, id).value)
      invariant forall v: Vocbase, id: QueryId ::
        (v, id) in picked ==> picked[(v, id)] == Lookup(reg, v, id).value.query
      decreases vocbases
    {
      var v :| v in vocbases;
      var inner := reg.queries[v];
      var ids := inner.Keys;
      while ids != {}
        invariant ids <= inner.Keys
        invariant forall v': Vocbase, id: QueryId :: (v', id) in picked <==>
          && (v' !in vocbases || (v' == v && id !in ids))
          && Lookup(reg, v', id).Some? && pick(Lookup(reg, v', id).value)
        invariant forall v': Vocbase, id: QueryId ::
          (v', id) in picked ==> picked[(v', id)] == Lookup(reg, v', id).value.query
        decreases ids
      {
        var id :| id in ids;
        if pick(inner[id]) {
          picked := picked[(v, id) := inner[id].query];
        }
        ids := ids - {id};
      }
      vocbases := vocbases - {v};
    }
  }

  /** The destructor: deletes the query of every remaining entry, open or not. */
  method Teardown<Q>(reg: Registry<Q>) returns (released: map<(Vocbase, QueryId), Q>)
    ensures forall v: Vocbase, id: QueryId :: (v, id) in released <==> Lookup(reg, v, id).Some?
    ensures forall v: Vocbase, id: QueryId ::
      (v, id) in released ==> released[(v, id)] == Lookup(reg, v, id).value.query
  {
    released := Select(reg, (e: Entry<Q>) => true);
  }

  /** The sweep as a scan followed by removals: first collect the expired
      pairs, then destroy each of them. It removes what `ExpireQueries` removes
      and hands back the queries it deleted. */
  method Sweep<Q>(reg: Registry<Q>, now: int) returns (next: Registry<Q>, released: map<(Vocbase, QueryId), Q>)
    ensures forall v: Vocbase, id: QueryId :: Lookup(next, v, id) == Lookup(ExpireQueries(reg, now), v, id)
    ensures forall v: Vocbase, id: QueryId :: (v, id) in released <==> ExpiredAt(reg, v, id, now)
    ensures forall v: Vocbase, id: QueryId ::
      (v, id) in released ==> Lookup(reg, v, id).Some? && released[(v, id)] == Lookup(reg, v, id).value.query
  {
    released := Select(reg, (e: Entry<Q>) => Expired(e, now));
    next := reg;
    var todo := released.Keys;
    while todo != {}
      invariant todo <= released.Keys
      invariant forall v: Vocbase, id: QueryId ::
        Lookup(next, v, id) == if (v, id) in released && (v, id) !in todo then None else Lookup(reg, v, id)
      decreases todo
    {
      var k :| k in todo;
      next := Destroy(next, k.0, k.1).next;
      todo := todo - {k};
    }
  }
}
