/** Data model of the AQL query registry: a map of maps, keyed first by the
    vocbase (the database a query runs in) and then by the query id, whose
    values are `QueryInfo` records.

    The query object `Q` is a type parameter: the registry never looks inside
    a query. A vocbase is represented by its identity, since the registry only
    compares vocbase pointers for equality. */
module RegistryTypes {

  /** The identity of a vocbase (the address of its `TRI_vocbase_t`). */
  type Vocbase = nat

  /** Query ids are chosen by the caller; the registry only compares them. */
  type QueryId = nat

  /** The default time to live of `insert`, in seconds. */
  const DefaultTtl: int := 3600

  /** The default ttl argument of `close`. A negative ttl means "take the
      entry's original time to live again". */
  const KeepTtl: int := -1

  datatype Option<T> = None | Some(value: T)

  /** The failures the registry reports to its callers. */
  datatype Error =
    | AlreadyExists   // insert: the (vocbase, id) pair already has an entry
    | AlreadyInUse    // open: the entry is already open
    | NotFound        // close or destroy: no entry for the pair
    | NotOpen         // close: the entry exists but is not open

  datatype Result<T> = Ok(value: T) | Err(error: Error)

  /** One `QueryInfo`: the key it is stored under, the query, whether it is
      currently handed out to a caller, its time to live and the instant
      (in seconds) at which it expires. */
  datatype Entry<Q> = Entry(
    vocbase: Vocbase,
    id: QueryId,
    query: Q,
    isOpen: bool,
    timeToLive: int,
    expires: int)

  /** The `_queries` map of maps. */
  datatype Registry<Q> = Registry(queries: map<Vocbase, map<QueryId, Entry<Q>>>)

  /** What an operation hands back: its outcome and the registry after it. */
  datatype Step<Q, T> = Step(outcome: Result<T>, next: Registry<Q>)

  /** The registry as constructed: no vocbase, no query. */
  function EmptyRegistry<Q>(): (reg: Registry<Q>)
    ensures forall v: Vocbase, id: QueryId :: Lookup(reg, v, id) == None
  {
    Registry(map[])
  }

  /** The entry stored for (v, id), if any. */
  function Lookup<Q>(reg: Registry<Q>, v: Vocbase, id: QueryId): Option<Entry<Q>>
  {
    if v in reg.queries && id in reg.queries[v] then Some(reg.queries[v][id]) else None
  }

  /** An entry the sweep reclaims at time `now`: not handed out and past its expiry. */
  predicate Expired<Q>(e: Entry<Q>, now: int)
  {
    !e.isOpen && e.expires <= now
  }

  /** (v, id) has an entry and that entry is expired at `now`. */
  predicate ExpiredAt<Q>(reg: Registry<Q>, v: Vocbase, id: QueryId, now: int)
  {
    Lookup(reg, v, id).Some? && Expired(Lookup(reg, v, id).value, now)
  }

  /** Every entry other than the one for (v, id) is the same in `a` and `b`. */
  ghost predicate SameElsewhere<Q>(a: Registry<Q>, b: Registry<Q>, v: Vocbase, id: QueryId)
  {
    forall v': Vocbase, id': QueryId :: v' != v || id' != id ==> Lookup(b, v', id') == Lookup(a, v', id')
  }

  /** Every entry records the vocbase and id it is stored under. */
  ghost predicate Valid<Q>(reg: Registry<Q>)
  {
    forall v: Vocbase, id: QueryId :: Lookup(reg, v, id).Some? ==>
      Lookup(reg, v, id).value.vocbase == v && Lookup(reg, v, id).value.id == id
  }

  /** The life-cycle state of one (vocbase, id) pair. */
  datatype State = Absent | Resident | CheckedOut

  function StateOf<Q>(reg: Registry<Q>, v: Vocbase, id: QueryId): State
  {
    match Lookup(reg, v, id)
    case None => Absent
    case Some(e) => if e.isOpen then CheckedOut else Resident
  }

  /** The registry seen as one flat map keyed by (vocbase, id) pairs: the
      reference definition the map of maps implements. */
  ghost function Entries<Q>(reg: Registry<Q>): (m: map<(Vocbase, QueryId), Entry<Q>>)
    ensures forall v: Vocbase, id: QueryId :: (v, id) in m <==> Lookup(reg, v, id).Some?
    ensures forall v: Vocbase, id: QueryId :: (v, id) in m ==> m[(v, id)] == Lookup(reg, v, id).value
  {
    var keys := set v, id | v in reg.queries && id in reg.queries[v] :: (v, id);
    map k | k in keys :: reg.queries[k.0][k.1]
  }
}
