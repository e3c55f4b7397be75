# AQL query registry — a Dafny model

This project models the `QueryRegistry` class of ArangoDB's AQL engine. The
registry is a central in-memory store for running AQL queries. It is keyed
first by vocbase (the database) and then by query id, and each entry is a
`QueryInfo` record: the query, an "is open" flag, a time to live in seconds
and an expiry timestamp.

Callers use five operations:

- `insert` stores a query, which is then resident.
- `open` checks the query out and hands it to the caller.
- `close` returns it and restarts its expiry clock.
- `destroy` removes it in either state.
- `expireQueries` sweeps away resident entries whose expiry has passed.

The destructor deletes every query still stored.

The model is functional. A `Registry<Q>` is an immutable map of maps over an
opaque query type `Q`. Each operation is a pure function from a registry (and
the current time `now`, an integer number of seconds) to a `Step`: the
outcome (`Ok` or an `Err` standing for the thrown exception) and the next
registry. Every failing step returns the registry unchanged. The destructor
and a scan-then-destroy form of the sweep are methods with loops over the map
of maps.

Files and modules:

- `types.dfy` (`RegistryTypes`): entries, the registry, errors, `Lookup`, the
  per-pair `State` (`Absent`, `Resident`, `CheckedOut`), the invariant
  `Valid`, and the flat reference view `Entries`. `Entries` is a single map
  keyed by (vocbase, id) pairs.
- `registry.dfy` (`QueryRegistry`): the five operations, the destructor
  (`Teardown`) and the sweep as a loop (`Sweep`).
- `properties.dfy` (`RegistryProperties`): what each operation does to the
  flat view, the error cases, the round trips (insert/destroy, open/close),
  and the composition law and idempotence of the sweep.
- `traces.dfy` (`RegistryTrace`): sequences of calls. It covers the per-entry
  state machine, the invariants every call keeps, the hand-off of queries
  between registry and callers, racing opens, and the life of an
  entry under the sweep.

Choices where the header leaves the behaviour open:

- `close` on an entry that exists but is not open fails with `NotOpen` and
  changes nothing.
- `destroy` on a missing pair fails with `NotFound` and changes nothing.
- An entry is expired at `now` when it is not open and `expires <= now`. The
  header does not say whether an expiry equal to `now` counts; the model
  counts it.
- `open` leaves `expires` as it is; it is ignored while the entry is open.
- `close` with a non-negative ttl uses it for the new expiry only. The stored
  time to live stays the one given to `insert`, so a later `close` with the
  default ttl reverts to it.
- The destructor deletes the queries of open entries too, as its loop at
  `QueryRegistry.h:54-59` does.

## Model

| member | source | states |
|---|---|---|
| RegistryTypes.EmptyRegistry | arangod/Aql/QueryRegistry.h:50-51 | a freshly constructed registry has no entry for any pair |
| RegistryTypes.Entries | arangod/Aql/QueryRegistry.h:141 | the map of maps holds at most one entry per (vocbase, id) pair: it is a flat map whose keys are exactly the pairs with an entry, each mapped to that entry |
| QueryRegistry.Insert | arangod/Aql/QueryRegistry.h:67-77 | an existing pair is `AlreadyExists` and the registry (including the old entry) is unchanged; otherwise the pair gets one resident entry with the given query and ttl, expiring at now + ttl; no other pair changes |
| QueryRegistry.Open | arangod/Aql/QueryRegistry.h:80-91 | a missing pair gives `None` (not an error) and no change; an open entry is `AlreadyInUse` and no change; a resident entry hands out its query and stays, now open; no other pair changes |
| QueryRegistry.Close | arangod/Aql/QueryRegistry.h:94-99 | a missing pair is `NotFound`, a resident entry is `NotOpen`, both without change; an open entry becomes resident, keeping its query and stored ttl, with expiry now + ttl when the ttl argument is non-negative and now + the entry's original time to live when it is negative (the default); no other pair changes |
| QueryRegistry.Destroy | arangod/Aql/QueryRegistry.h:102-108 | open or not, the pair's entry is removed and its query handed back for deletion; afterwards the pair has no entry; no other pair changes; a missing pair is `NotFound` |
| QueryRegistry.ExpireQueries | arangod/Aql/QueryRegistry.h:111-114 | an entry survives the sweep exactly when it is not expired in the sense of `RegistryTypes.Expired` (it is open, or its expiry is after now: an open query never expires), and survivors are unchanged |
| QueryRegistry.Select | arangod/Aql/QueryRegistry.h:54-59 | the nested walk over the map of maps visits every entry: it collects exactly the pairs whose entry the selection accepts, each with that entry's query |
| QueryRegistry.Teardown | arangod/Aql/QueryRegistry.h:53-60 | the destructor's nested loop deletes the query of exactly every remaining entry, open or resident |
| QueryRegistry.Sweep | arangod/Aql/QueryRegistry.h:111-114 | scanning for expired entries and destroying each leaves the same entries as `ExpireQueries`, and deletes exactly the queries of the expired entries |
| RegistryProperties.InsertRefinesFlat | arangod/Aql/QueryRegistry.h:67-77 | on the flat map, a successful insert adds exactly one entry (resident, ttl and expiry as given) and grows the registry by one |
| RegistryProperties.InsertDefaultTtl | arangod/Aql/QueryRegistry.h:74-77 | without a ttl argument the stored time to live is 3600 seconds and the expiry now + 3600 |
| RegistryProperties.InsertTwiceFails | arangod/Aql/QueryRegistry.h:67-70 | inserting the same pair again fails with `AlreadyExists` and the first query stays stored |
| RegistryProperties.InsertDestroyRoundTrip | arangod/Aql/QueryRegistry.h:67-77 | destroy after insert deletes the inserted query and restores the flat map of before the insert |
| RegistryProperties.OpenRefinesFlat | arangod/Aql/QueryRegistry.h:80-84 | on the flat map, a successful open changes only the open flag of that one entry |
| RegistryProperties.OpenTwiceFails | arangod/Aql/QueryRegistry.h:82-84 | open succeeds only once: the first open of a resident entry returns its query, a second one is `AlreadyInUse` and changes nothing |
| RegistryProperties.CloseRefinesFlat | arangod/Aql/QueryRegistry.h:94-99 | on the flat map, a successful close changes only that entry's open flag and expiry |
| RegistryProperties.CloseRequiresOpen | arangod/Aql/QueryRegistry.h:94-96 | close succeeds exactly when the entry is open; otherwise the registry is unchanged |
| RegistryProperties.OpenCloseRoundTrip | arangod/Aql/QueryRegistry.h:94-99 | close with the default ttl after open restores the entry except that it now expires at now + its original time to live |
| RegistryProperties.DestroyRefinesFlat | arangod/Aql/QueryRegistry.h:102-105 | on the flat map, destroy removes exactly that pair, open or not, and hands back its query |
| RegistryProperties.DestroyThenOpenFindsNothing | arangod/Aql/QueryRegistry.h:80-81 | after destroy, open on the pair returns `None` and a second destroy is `NotFound` |
| RegistryProperties.ExpireRefinesFlat | arangod/Aql/QueryRegistry.h:111-114 | on the flat map, the sweep is the restriction to the entries that have not expired |
| RegistryProperties.ExpireCompose | arangod/Aql/QueryRegistry.h:111-114 | a sweep at an earlier time followed by one at a later time equals the later sweep alone |
| RegistryProperties.ExpireIdempotent | arangod/Aql/QueryRegistry.h:111-114 | two sweeps at the same time equal one |
| RegistryProperties.OpenSurvivesExpire | arangod/Aql/QueryRegistry.h:86-88 | an open entry is untouched by a sweep at any time |
| RegistryTrace.StepFollowsStateMachine | arangod/Aql/QueryRegistry.h:67-114 | each call leaves a pair's state alone or takes one edge of the machine: insert Absent to Resident, open Resident to CheckedOut, close CheckedOut to Resident, destroy either state to Absent, sweep only Resident to Absent |
| RegistryTrace.ApplyKeepsValid | arangod/Aql/QueryRegistry.h:126-128 | every call keeps each entry recording the vocbase and id it is stored under |
| RegistryTrace.RunKeepsValid | arangod/Aql/QueryRegistry.h:126-128 | any sequence of calls keeps that invariant |
| RegistryTrace.CheckedOutPersists | arangod/Aql/QueryRegistry.h:85-88 | an open entry stays exactly as it is through any sequence of calls at any times that contains no close or destroy of that pair |
| RegistryTrace.Perform | arangod/Aql/QueryRegistry.h:80-108 | recording which queries callers hold does not alter the registry transition of any call |
| RegistryTrace.OpenHandsOutOnlyUnheld | arangod/Aql/QueryRegistry.h:81-84 | when each query has one owner, open hands out a query only for a pair no caller holds |
| RegistryTrace.PerformKeepsOwnedOnce | arangod/Aql/QueryRegistry.h:81-84 | every call keeps ownership single: a caller holds a pair's query exactly while the entry is open, and it is that entry's query |
| RegistryTrace.RunWorld | arangod/Aql/QueryRegistry.h:80-108 | tracking caller holdings over a run follows the same registry as running the calls alone |
| RegistryTrace.RunKeepsOwnedOnce | arangod/Aql/QueryRegistry.h:81-84 | any sequence of calls keeps ownership single |
| RegistryTrace.FreshWorldOwnedOnce | arangod/Aql/QueryRegistry.h:50-51 | the new registry with no holders satisfies single ownership |
| RegistryTrace.RaceWithoutResidentEntry | arangod/Aql/QueryRegistry.h:80-84 | any number of opens on a missing pair all return `None`, and on an open pair all are `AlreadyInUse` |
| RegistryTrace.RaceHasOneWinner | arangod/Aql/QueryRegistry.h:81-84 | of any number of callers that open the same pair in turn, on a resident entry the first gets its query and every other one is `AlreadyInUse`; on an open entry all are `AlreadyInUse`; on a missing pair all get `None` |
| RegistryTrace.ShortTtlExpires | arangod/Aql/QueryRegistry.h:70-71 | a query inserted with ttl 1 and never opened is gone after a sweep exactly when the sweep is one second or more later, and open then finds nothing |
| RegistryTrace.CheckedOutOutlivesTtl | arangod/Aql/QueryRegistry.h:85-99 | a query inserted with ttl 1 and opened survives any number of sweeps at any times; after close, a sweep removes it exactly when it runs one second or more after the close |

## Left out

- The read/write lock and thread interleavings: each operation is one atomic step, in lock order. Racing callers are modelled as a sequence of calls.
- Floating-point ttl and timestamps: time is integer seconds, and the clock is the parameter `now`, not a wall-clock read.
- The query object's internals and the actual `delete`: the query is an opaque type parameter. Deletion is modelled by handing the query back (`Destroy`, `Sweep`, `Teardown`).
- The vocbase is represented by its identity (a natural number standing for the pointer). `QueryId` is a natural number. The registry only compares both for equality.
- Empty per-vocbase inner maps left behind by destroy and the sweep are kept. They are not observable through `Lookup` or `Entries`.
- The C++ file holding the operation bodies is not part of this model. Behaviour follows the header's doc comments, and its destructor body for teardown. The open cases are resolved as listed above the table.
- The scheduler that periodically calls `expireQueries` is not modelled; the sweep is called with an explicit `now`.
