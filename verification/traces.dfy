/** Sequences of registry calls: the per-entry state machine, the invariants
    every call keeps, the hand-off of each query between the registry and the
    callers, racing opens, and the life of an entry under the sweep. */
module RegistryTrace {
  import opened RegistryTypes
  import opened QueryRegistry

  /** One call into the registry. */
  datatype Op<Q> =
    | InsertOp(v: Vocbase, id: QueryId, query: Q, ttl: int)
    | OpenOp(v: Vocbase, id: QueryId)
    | CloseOp(v: Vocbase, id: QueryId, ttl: int)
    | DestroyOp(v: Vocbase, id: QueryId)
    | ExpireOp

  /** A call together with the time at which it takes the lock. */
  datatype Call<Q> = Call(now: int, op: Op<Q>)

  /** The registry after one call. */
  function Apply<Q>(reg: Registry<Q>, now: int, op: Op<Q>): Registry<Q>
  {
    match op
    case InsertOp(v, id, query, ttl) => Insert(reg, now, v, id, query, ttl).next
    case OpenOp(v, id) => Open(reg, v, id).next
    case CloseOp(v, id, ttl) => Close(reg, now, v, id, ttl).next
    case DestroyOp(v, id) => Destroy(reg, v, id).next
    case ExpireOp => ExpireQueries(reg, now)
  }

  /** The registry after a sequence of calls, each one atomic. */
  function Run<Q>(reg: Registry<Q>, calls: seq<Call<Q>>): Registry<Q>
    decreases |calls|
  {
    if |calls| == 0 then reg else Run(Apply(reg, calls[0].now, calls[0].op), calls[1..])
  }

  // ----- the per-entry state machine --------------------------------------

  /** The transitions of (v, id) that `op` may make: insert creates a resident
      entry, open checks it out, close returns it, destroy removes it in
      either state, and the sweep removes only resident entries. */
  predicate Edge<Q>(op: Op<Q>, v: Vocbase, id: QueryId, before: State, after: State)
  {
    match op
    case InsertOp(v', id', _, _) => v' == v && id' == id && before == Absent && after == Resident
    case OpenOp(v', id') => v' == v && id' == id && before == Resident && after == CheckedOut
    case CloseOp(v', id', _) => v' == v && id' == id && before == CheckedOut && after == Resident
    case DestroyOp(v', id') => v' == v && id' == id && before != Absent && after == Absent
    case ExpireOp => before == Resident && after == Absent
  }

  /** Every call either leaves the state of (v, id) alone or takes one edge of
      the state machine; in particular no call moves a checked-out entry
      anywhere but back to resident (close) or out (destroy). */
  lemma StepFollowsStateMachine<Q>(reg: Registry<Q>, now: int, op: Op<Q>, v: Vocbase, id: QueryId)
    ensures var before := StateOf(reg, v, id);
      var after := StateOf(Apply(reg, now, op), v, id);
      before == after || Edge(op, v, id, before, after)
  {
  }

  /** Every call keeps each entry stored under its own vocbase and id. */
  lemma ApplyKeepsValid<Q>(reg: Registry<Q>, now: int, op: Op<Q>)
    requires Valid(reg)
    ensures Valid(Apply(reg, now, op))
  {
  }

  /** Any sequence of calls keeps each entry stored under its own vocbase and id. */
  lemma {:induction false} RunKeepsValid<Q>(reg: Registry<Q>, calls: seq<Call<Q>>)
    requires Valid(reg)
    ensures Valid(Run(reg, calls))
    decreases |calls|
  {
    if |calls| > 0 {
      ApplyKeepsValid(reg, calls[0].now, calls[0].op);
      RunKeepsValid(Apply(reg, calls[0].now, calls[0].op), calls[1..]);
    }
  }

  /** `op` is a close or a destroy of (v, id): the only calls that end a checkout. */
  predicate EndsCheckout<Q>(op: Op<Q>, v: Vocbase, id: QueryId)
  {
    (op.CloseOp? || op.DestroyOp?) && op.v == v && op.id == id
  }

  /** An open entry stays exactly as it is, whatever the clock says and however
      many sweeps, inserts and opens run, until it is closed or destroyed. */
  lemma {:induction false} CheckedOutPersists<Q>(reg: Registry<Q>, calls: seq<Call<Q>>, v: Vocbase, id: QueryId)
    requires StateOf(reg, v, id) == CheckedOut
    requires forall i :: 0 <= i < |calls| ==> !EndsCheckout(calls[i].op, v, id)
    ensures Lookup(Run(reg, calls), v, id) == Lookup(reg, v, id)
    decreases |calls|
  {
    if |calls| > 0 {
      var next := Apply(reg, calls[0].now, calls[0].op);
      assert !EndsCheckout(calls[0].op, v, id);
      assert Lookup(next, v, id) == Lookup(reg, v, id);
      assert forall i :: 0 <= i < |calls[1..]| ==> calls[1..][i] == calls[i + 1];
      CheckedOutPersists(next, calls[1..], v, id);
    }
  }

  // ----- ownership of the queries -----------------------------------------

  /** The registry together with what the callers hold: the query each
      successful open handed out, until it is closed or destroyed. */
  datatype World<Q> = World(reg: Registry<Q>, held: map<(Vocbase, QueryId), Q>)

  /** Each query has exactly one owner: a caller holds the query of (v, id)
      exactly when its entry is open, and then it holds that entry's query;
      otherwise the registry owns it. */
  ghost predicate OwnedOnce<Q>(w: World<Q>)
  {
    && (forall v: Vocbase, id: QueryId :: (v, id) in w.held <==> StateOf(w.reg, v, id) == CheckedOut)
    && (forall v: Vocbase, id: QueryId ::
          (v, id) in w.held ==> w.held[(v, id)] == Lookup(w.reg, v, id).value.query)
  }

  /** One call, with the hand-off it makes: a successful open gives the caller
      the returned query, a successful close takes it back, and destroy
      deletes it wherever it is. */
  function Perform<Q>(w: World<Q>, now: int, op: Op<Q>): (w': World<Q>)
    ensures w'.reg == Apply(w.reg, now, op)
  {
    match op
    case OpenOp(v, id) =>
      var s := Open(w.reg, v, id);
      if s.outcome.Ok? && s.outcome.value.Some? then World(s.next, w.held[(v, id) := s.outcome.value.value])
      else World(s.next, w.held)
    case CloseOp(v, id, ttl) =>
      var s := Close(w.reg, now, v, id, ttl);
      World(s.next, if s.outcome.Ok? then w.held - {(v, id)} else w.held)
    case DestroyOp(v, id) =>
      World(Destroy(w.reg, v, id).next, w.held - {(v, id)})
    case _ =>
      World(Apply(w.reg, now, op), w.held)
  }

  /** Open never hands a query to a second caller: it succeeds only on a pair
      no caller holds. */
  lemma OpenHandsOutOnlyUnheld<Q>(w: World<Q>, v: Vocbase, id: QueryId)
    requires OwnedOnce(w)
    ensures Open(w.reg, v, id).outcome.Ok? && Open(w.reg, v, id).outcome.value.Some?
            ==> (v, id) !in w.held
  {
  }

  /** Every call, with its hand-off, keeps each query with exactly one owner. */
  lemma PerformKeepsOwnedOnce<Q>(w: World<Q>, now: int, op: Op<Q>)
    requires OwnedOnce(w)
    ensures OwnedOnce(Perform(w, now, op))
  {
  }

  /** A sequence of calls with their hand-offs; its registry is that of `Run`. */
  function RunWorld<Q>(w: World<Q>, calls: seq<Call<Q>>): (w': World<Q>)
    ensures w'.reg == Run(w.reg, calls)
    decreases |calls|
  {
    if |calls| == 0 then w else RunWorld(Perform(w, calls[0].now, calls[0].op), calls[1..])
  }

  /** Starting from any world in which each query has one owner (the empty
      one, for instance), every query still has exactly one owner after any
      sequence of calls. */
  lemma {:induction false} RunKeepsOwnedOnce<Q>(w: World<Q>, calls: seq<Call<Q>>)
    requires OwnedOnce(w)
    ensures OwnedOnce(RunWorld(w, calls))
    decreases |calls|
  {
    if |calls| > 0 {
      PerformKeepsOwnedOnce(w, calls[0].now, calls[0].op);
      RunKeepsOwnedOnce(Perform(w, calls[0].now, calls[0].op), calls[1..]);
    }
  }

  /** The registry as constructed, with no caller holding anything. */
  lemma FreshWorldOwnedOnce<Q>()
    ensures OwnedOnce(World(EmptyRegistry<Q>(), map[]))
  {
  }

  // ----- racing opens -----------------------------------------------------

  /** `n` callers call open on (v, id) one after another (in lock order);
      what each of them gets back, in that order. */
  function Race<Q>(reg: Registry<Q>, v: Vocbase, id: QueryId, n: nat): seq<Result<Option<Q>>>
    decreases n
  {
    if n == 0 then []
    else
      var s := Open(reg, v, id);
      [s.outcome] + Race(s.next, v, id, n - 1)
  }

  /** Opens on a pair that is not resident all lose: each finds nothing when
      the pair is missing, and each is `AlreadyInUse` when it is open. */
  lemma {:induction false} RaceWithoutResidentEntry<Q>(reg: Registry<Q>, v: Vocbase, id: QueryId, n: nat)
    requires StateOf(reg, v, id) != Resident
    ensures |Race(reg, v, id, n)| == n
    ensures StateOf(reg, v, id) == Absent ==>
      forall i :: 0 <= i < n ==> Race(reg, v, id, n)[i] == Ok(None)
    ensures StateOf(reg, v, id) == CheckedOut ==>
      forall i :: 0 <= i < n ==> Race(reg, v, id, n)[i] == Err(AlreadyInUse)
    decreases n
  {
    if n > 0 {
      RaceWithoutResidentEntry(Open(reg, v, id).next, v, id, n - 1);
    }
  }

  /** However many callers race to open the same pair, when it is resident
      the first gets its query and every other one is `AlreadyInUse`; when it
      is open all are `AlreadyInUse`; when it is missing all find nothing. */
  lemma {:induction false} RaceHasOneWinner<Q>(reg: Registry<Q>, v: Vocbase, id: QueryId, n: nat)
    requires n >= 1
    ensures |Race(reg, v, id, n)| == n
    ensures StateOf(reg, v, id) == Resident ==>
      && Race(reg, v, id, n)[0] == Ok(Some(Lookup(reg, v, id).value.query))
      && forall i :: 1 <= i < n ==> Race(reg, v, id, n)[i] == Err(AlreadyInUse)
    ensures StateOf(reg, v, id) == CheckedOut ==>
      forall i :: 0 <= i < n ==> Race(reg, v, id, n)[i] == Err(AlreadyInUse)
    ensures StateOf(reg, v, id) == Absent ==>
      forall i :: 0 <= i < n ==> Race(reg, v, id, n)[i] == Ok(None)
  {
    if StateOf(reg, v, id) == Resident {
      var rest := Open(reg, v, id).next;
      assert StateOf(rest, v, id) == CheckedOut;
      RaceWithoutResidentEntry(rest, v, id, n - 1);
      assert Race(reg, v, id, n) == [Open(reg, v, id).outcome] + Race(rest, v, id, n - 1);
    } else {
      RaceWithoutResidentEntry(reg, v, id, n);
    }
  }

  // ----- life of an entry under the sweep ---------------------------------

  /** A query inserted with a ttl of one second and never opened is reclaimed
      by any sweep from one second later on, and not before. */
  lemma ShortTtlExpires<Q>(reg: Registry<Q>, t0: int, now: int, v: Vocbase, id: QueryId, query: Q)
    requires Lookup(reg, v, id).None?
    ensures var r := ExpireQueries(Insert(reg, t0, v, id, query, 1).next, now);
      && (now >= t0 + 1 <==> Lookup(r, v, id).None?)
      && (now >= t0 + 1 ==> Open(r, v, id) == Step(Ok(None), r))
  {
  }

  /** A query inserted with a ttl of one second and then opened survives any
      number of sweeps at any times; once closed, the first sweep one second
      or more after the close reclaims it. */
  lemma CheckedOutOutlivesTtl<Q>(reg: Registry<Q>, t0: int, sweeps: seq<Call<Q>>, t1: int, now: int,
                                 v: Vocbase, id: QueryId, query: Q)
    requires Lookup(reg, v, id).None?
    requires forall i :: 0 <= i < |sweeps| ==> sweeps[i].op == ExpireOp
    ensures var taken := Open(Insert(reg, t0, v, id, query, 1).next, v, id).next;
      var swept := Run(taken, sweeps);
      && Lookup(swept, v, id) == Lookup(taken, v, id)
      && StateOf(swept, v, id) == CheckedOut
      && var closed := Close(swept, t1, v, id).next;
         (Lookup(ExpireQueries(closed, now), v, id).None? <==> now >= t1 + 1)
  {
    var taken := Open(Insert(reg, t0, v, id, query, 1).next, v, id).next;
    assert StateOf(taken, v, id) == CheckedOut;
    CheckedOutPersists(taken, sweeps, v, id);
  }
}
