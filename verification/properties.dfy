/** Properties of single operations and of pairs of operations: error cases,
    round trips, the sweep's composition law, and the agreement of the map of
    maps with the flat (vocbase, id)-keyed reference map `Entries`. */
module RegistryProperties {
  import opened RegistryTypes
  import opened QueryRegistry

  /** Two registries with the same lookups have the same flat view. */
  lemma EntriesExtensional<Q>(a: Registry<Q>, b: Registry<Q>)
    requires forall v: Vocbase, id: QueryId :: Lookup(a, v, id) == Lookup(b, v, id)
    ensures Entries(a) == Entries(b)
  {
  }

  /** If the two registries differ at most at (v, id), their flat views
      differ at most at (v, id). */
  lemma EntriesUpdate<Q>(a: Registry<Q>, b: Registry<Q>, v: Vocbase, id: QueryId)
    requires SameElsewhere(a, b, v, id)
    ensures Lookup(b, v, id).Some? ==> Entries(b) == Entries(a)[(v, id) := Lookup(b, v, id).value]
    ensures Lookup(b, v, id).None? ==> Entries(b) == Entries(a) - {(v, id)}
  {
    var m := if Lookup(b, v, id).Some? then Entries(a)[(v, id) := Lookup(b, v, id).value]
             else Entries(a) - {(v, id)};
    forall k: (Vocbase, QueryId) | k in Entries(b)
      ensures k in m && Entries(b)[k] == m[k]
    {
      assert Lookup(b, k.0, k.1).Some?;
    }
    forall k: (Vocbase, QueryId) | k in m
      ensures k in Entries(b)
    {
      assert k == (v, id) || Lookup(a, k.0, k.1).Some?;
    }
  }

  // ----- insert -----------------------------------------------------------

  /** On the flat view, a successful insert adds exactly one resident entry. */
  lemma InsertRefinesFlat<Q>(reg: Registry<Q>, now: int, v: Vocbase, id: QueryId, query: Q, ttl: int)
    requires (v, id) !in Entries(reg)
    ensures Entries(Insert(reg, now, v, id, query, ttl).next)
         == Entries(reg)[(v, id) := Entry(v, id, query, false, ttl, now + ttl)]
    ensures |Entries(Insert(reg, now, v, id, query, ttl).next)| == |Entries(reg)| + 1
  {
    EntriesUpdate(reg, Insert(reg, now, v, id, query, ttl).next, v, id);
  }

  /** Without a ttl argument, insert stores the default of 3600 seconds. */
  lemma InsertDefaultTtl<Q>(reg: Registry<Q>, now: int, v: Vocbase, id: QueryId, query: Q)
    requires Lookup(reg, v, id).None?
    ensures Lookup(Insert(reg, now, v, id, query).next, v, id).value.timeToLive == 3600
    ensures Lookup(Insert(reg, now, v, id, query).next, v, id).value.expires == now + 3600
  {
  }

  /** A second insert of the same pair fails and keeps the first entry. */
  lemma InsertTwiceFails<Q>(reg: Registry<Q>, now: int, now': int, v: Vocbase, id: QueryId,
                            q1: Q, q2: Q, ttl1: int, ttl2: int)
    requires Lookup(reg, v, id).None?
    ensures var r1 := Insert(reg, now, v, id, q1, ttl1).next;
      && Insert(r1, now', v, id, q2, ttl2) == Step(Err(AlreadyExists), r1)
      && Lookup(r1, v, id).value.query == q1
  {
  }

  /** Destroy undoes insert: the deleted query is the inserted one and the
      flat view is the one before the insert. */
  lemma InsertDestroyRoundTrip<Q>(reg: Registry<Q>, now: int, v: Vocbase, id: QueryId, query: Q, ttl: int)
    requires Lookup(reg, v, id).None?
    ensures var d := Destroy(Insert(reg, now, v, id, query, ttl).next, v, id);
      && d.outcome == Ok(query)
      && Entries(d.next) == Entries(reg)
  {
    var d := Destroy(Insert(reg, now, v, id, query, ttl).next, v, id);
    EntriesExtensional(d.next, reg);
  }

  // ----- open -------------------------------------------------------------

  /** On the flat view, a successful open only flips the entry's open flag. */
  lemma OpenRefinesFlat<Q>(reg: Registry<Q>, v: Vocbase, id: QueryId)
    requires (v, id) in Entries(reg) && !Entries(reg)[(v, id)].isOpen
    ensures Entries(Open(reg, v, id).next)
         == Entries(reg)[(v, id) := Entries(reg)[(v, id)].(isOpen := true)]
  {
    EntriesUpdate(reg, Open(reg, v, id).next, v, id);
  }

  /** Open succeeds only once: a second open without a close in between is
      `AlreadyInUse` and changes nothing. */
  lemma OpenTwiceFails<Q>(reg: Registry<Q>, v: Vocbase, id: QueryId)
    requires StateOf(reg, v, id) == Resident
    ensures Open(reg, v, id).outcome == Ok(Some(Lookup(reg, v, id).value.query))
    ensures var r1 := Open(reg, v, id).next;
      Open(r1, v, id) == Step(Err(AlreadyInUse), r1)
  {
  }

  // ----- close ------------------------------------------------------------

  /** On the flat view, a successful close marks the entry resident and sets
      a new expiry; nothing else changes. */
  lemma CloseRefinesFlat<Q>(reg: Registry<Q>, now: int, v: Vocbase, id: QueryId, ttl: int)
    requires (v, id) in Entries(reg) && Entries(reg)[(v, id)].isOpen
    ensures var e := Entries(reg)[(v, id)];
      Entries(Close(reg, now, v, id, ttl).next)
        == Entries(reg)[(v, id) := e.(isOpen := false, expires := now + EffectiveTtl(e, ttl))]
  {
    EntriesUpdate(reg, Close(reg, now, v, id, ttl).next, v, id);
  }

  /** Close is valid only after a successful open: otherwise it fails, with
      `NotFound` or `NotOpen`, and changes nothing. */
  lemma CloseRequiresOpen<Q>(reg: Registry<Q>, now: int, v: Vocbase, id: QueryId, ttl: int)
    ensures Close(reg, now, v, id, ttl).outcome.Ok? <==> StateOf(reg, v, id) == CheckedOut
    ensures StateOf(reg, v, id) != CheckedOut ==> Close(reg, now, v, id, ttl).next == reg
  {
  }

  /** Close undoes open, apart from the expiry, which restarts from `now`;
      with the default ttl it restarts with the entry's original time to live. */
  lemma OpenCloseRoundTrip<Q>(reg: Registry<Q>, now: int, v: Vocbase, id: QueryId)
    requires StateOf(reg, v, id) == Resident
    ensures var e := Lookup(reg, v, id).value;
      var c := Close(Open(reg, v, id).next, now, v, id);
      && c.outcome == Ok(())
      && Entries(c.next) == Entries(reg)[(v, id) := e.(expires := now + e.timeToLive)]
  {
    var e := Lookup(reg, v, id).value;
    var o := Open(reg, v, id).next;
    var c := Close(o, now, v, id);
    assert Lookup(c.next, v, id) == Some(e.(expires := now + e.timeToLive));
    assert SameElsewhere(reg, c.next, v, id);
    EntriesUpdate(reg, c.next, v, id);
  }

  // ----- destroy ----------------------------------------------------------

  /** On the flat view, destroy removes exactly the pair, open or not, and
      hands back the query it deletes. */
  lemma DestroyRefinesFlat<Q>(reg: Registry<Q>, v: Vocbase, id: QueryId)
    ensures Entries(Destroy(reg, v, id).next) == Entries(reg) - {(v, id)}
    ensures (v, id) in Entries(reg) ==> Destroy(reg, v, id).outcome == Ok(Entries(reg)[(v, id)].query)
  {
    EntriesUpdate(reg, Destroy(reg, v, id).next, v, id);
  }

  /** After destroy, open on the pair finds nothing; a second destroy is `NotFound`. */
  lemma DestroyThenOpenFindsNothing<Q>(reg: Registry<Q>, v: Vocbase, id: QueryId)
    ensures var r := Destroy(reg, v, id).next;
      && Open(r, v, id) == Step(Ok(None), r)
      && Destroy(r, v, id) == Step(Err(NotFound), r)
  {
  }

  // ----- expireQueries ----------------------------------------------------

  /** On the flat view, the sweep keeps exactly the entries that have not expired. */
  lemma ExpireRefinesFlat<Q>(reg: Registry<Q>, now: int)
    ensures Entries(ExpireQueries(reg, now))
         == map k | k in Entries(reg) && !Expired(Entries(reg)[k], now) :: Entries(reg)[k]
  {
    var m := map k | k in Entries(reg) && !Expired(Entries(reg)[k], now) :: Entries(reg)[k];
    var r := ExpireQueries(reg, now);
    forall k: (Vocbase, QueryId) | k in Entries(r)
      ensures k in m && Entries(r)[k] == m[k]
    {
      assert Lookup(r, k.0, k.1).Some?;
    }
    forall k: (Vocbase, QueryId) | k in m
      ensures k in Entries(r)
    {
      assert Lookup(reg, k.0, k.1).Some? && !ExpiredAt(reg, k.0, k.1, now);
    }
  }

  /** A later sweep subsumes an earlier one. */
  lemma ExpireCompose<Q>(reg: Registry<Q>, t1: int, t2: int)
    requires t1 <= t2
    ensures ExpireQueries(ExpireQueries(reg, t1), t2) == ExpireQueries(reg, t2)
  {
    var a := ExpireQueries(ExpireQueries(reg, t1), t2);
    var b := ExpireQueries(reg, t2);
    forall v | v in a.queries
      ensures a.queries[v] == b.queries[v]
    {
      forall id | id in b.queries[v]
        ensures id in a.queries[v]
      {
        assert Lookup(b, v, id).Some?;
      }
    }
  }

  /** Sweeping twice at the same time is the same as sweeping once. */
  lemma ExpireIdempotent<Q>(reg: Registry<Q>, now: int)
    ensures ExpireQueries(ExpireQueries(reg, now), now) == ExpireQueries(reg, now)
  {
    ExpireCompose(reg, now, now);
  }

  /** An open entry survives a sweep at any time, however old its expiry. */
  lemma OpenSurvivesExpire<Q>(reg: Registry<Q>, now: int, v: Vocbase, id: QueryId)
    requires StateOf(reg, v, id) == CheckedOut
    ensures Lookup(ExpireQueries(reg, now), v, id) == Lookup(reg, v, id)
  {
  }
}
