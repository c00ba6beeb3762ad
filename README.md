# Session cache model

A Dafny model of the session cache in `mikado/security/sessioncache.py`. The
cache is a table `session_cache` in a relational store. Each row maps a session
id (a UUID string) to a JSON user record and carries two timestamps, the start
of the session and its end one hour later. Callers can:

- create a session (`set_session`);
- read it back while the store's clock is inside its lifetime (`get_session`);
- delete it (`delete_session`);
- recreate the empty table (`initdb`);
- run maintenance (`maintenance_batch`);
- plant three fixed developer sessions for testing (`_fakesessionusers`).

Every operation that takes a session id (`set_session`, `delete_session`,
`get_session`; lines 329, 364, 387) first checks its shape
(`validate_uuid_format`). The fixture's bulk DELETE (lines 451-454) runs
without that check.

The model has six modules:

- `Uuid` holds the shape check. It uses Python `str.split` semantics and is
  proved equivalent to a reference shape: 36 characters, with dashes exactly at
  indices 8, 13, 18 and 23.
- `Json` holds the user record as a JSON value.
- `Store` holds the table as a map from primary key to row. It models three
  of the SQL statements the cache issues as atomic steps on that map: the
  INSERT, DELETE … WHERE sessionid IN, and the live-row SELECT. The
  one-key DELETE of `delete_session` (line 367) is the one-key case of
  `Store.DeleteWhere`. The class methods `InitDb` and `MaintenanceBatch` stand
  for the remaining statements: DROP/CREATE/ALTER (lines 473-482) and REINDEX
  (line 496).
- `Lifecycle` holds the policy as pure functions from the table and the store
  clock to the new table and the result or raised error. It also holds the
  lemmas relating operations:
  - the round trip;
  - expiry reads as absence;
  - idempotent deletion;
  - the duplicate purge;
  - the per-id phase machine with states absent, live and expired.
- `FakeUsers` holds the testing fixture, as functions and lemmas.
- `SessionCache` holds the class `SessionCache.SessionCache`, the store as the
  source drives it.

The class's fields are the table and the store clock. Its methods are tied to
the functions as follows:

- `SetSession` and `DeleteSession` update the table in place, one statement at
  a time. Each is proved equal to the `Lifecycle` function of the same name.
- `GetSession` changes nothing. Its result is proved equal to
  `Lifecycle.GetSession`.
- `SetEach` runs the fixture's loop of creations. It is proved equal to
  `FakeUsers.SetEach`.
- `FakeSessionUsers` runs the bulk DELETE and then `SetEach` for 'fixed'. For
  every type it is proved equal to `FakeUsers.FakeSessionUsers`.
- `InitDb`, `MaintenanceBatch` and `AdvanceClock` state their new table and
  clock outright.

By these equalities, every lemma about the functions holds for each run of the
methods. Every method keeps the table invariant `Valid`: each key is a
well-formed id, and each row was stamped no later than the clock with the fixed
3600-second lifetime.

Two consequences of the code are worth stating:

- **Creating over an expired row.** `set_session` raises the duplicate error
  whenever a row for the id is still present, even an expired one. The INSERT
  hits the primary key (lines 333-347), and the handler purges the row and
  raises (lines 348-351). No operation removes expired rows, so such a row stays
  until it is deleted. `Lifecycle.SetOnExpiredRowIsDuplicate` states this case.
  `Lifecycle.RoundTrip` therefore requires the id to be absent from the table,
  not merely not live.
- **Maintenance.** `maintenance_batch` only issues `REINDEX` (line 496). Its
  docstring (line 491) calls it a holding place for clean-up, so no row is
  reaped.

## Model

| member | source | states |
|---|---|---|
| Uuid.ValidateUuidFormat | mikado/security/sessioncache.py:197-213 | accepts exactly the ids of the reference shape (36 characters, dashes exactly at 8, 13, 18, 23), so every accepted id has length 36 |
| Uuid.SplitPieces | mikado/security/sessioncache.py:208 | `split('-')` yields one piece more than there are dashes, no piece contains a dash, and joining the pieces with '-' gives back the input |
| Uuid.SplitJoin | mikado/security/sessioncache.py:208 | split is the inverse of join on dash-free pieces |
| Uuid.ValidateIffShaped | mikado/security/sessioncache.py:208-213 | the piece lengths are 8, 4, 4, 4, 12 if and only if the string has the reference shape, in both directions |
| Uuid.ValidImpliesShaped | mikado/security/sessioncache.py:208-211 | piece lengths 8-4-4-4-12 force dashes exactly at the four group boundaries and nowhere else |
| Uuid.ShapedImpliesValid | mikado/security/sessioncache.py:208-213 | a string of the reference shape splits into five pieces of lengths 8, 4, 4, 4, 12 |
| Uuid.ShapedFromGroups | mikado/security/sessioncache.py:208-213 | five dash-free groups of lengths 8, 4, 4, 4 and 12, joined by dashes, have the reference shape |
| Uuid.AcceptsExample | mikado/security/sessioncache.py:202-203 | the documented UUID example is accepted |
| Uuid.RejectsExamples | mikado/security/sessioncache.py:114-118 | the documented examples "Dr. Evil" (lines 114-118) and "FooBar" (lines 204-205) are rejected, and so is the empty string (an edge case of the model's own, with no example in the source) |
| Store.Insert | mikado/security/sessioncache.py:333-346 | the INSERT fails with the primary-key violation exactly when the key exists; otherwise it adds exactly the one row, stamped from `now` to `now + duration`, and keeps every other row |
| Store.DeleteWhere | mikado/security/sessioncache.py:367-369 | the DELETE removes exactly the named keys, whether present or not, and keeps every other row unchanged |
| Store.SelectLive | mikado/security/sessioncache.py:392-395 | the SELECT returns at most one row, and returns one exactly when the row exists with `start <= now <= end` (inclusive); that row is the stored record |
| Lifecycle.SetSession | mikado/security/sessioncache.py:309-352 | a malformed id raises and leaves the table unchanged; a fresh well-formed id returns True and adds exactly its row `(userd, now, now + 3600)`; an existing id raises, and exactly that row is deleted; the table invariant is kept |
| Lifecycle.DeleteSession | mikado/security/sessioncache.py:355-372 | a malformed id raises and leaves the table unchanged; a well-formed id removes exactly that key, without raising, and keeps the other rows; the invariant is kept |
| Lifecycle.GetSession | mikado/security/sessioncache.py:375-399 | a malformed id raises; a well-formed id never raises; a record comes back if and only if the row exists and is live, and it is the stored record |
| Lifecycle.DeleteWhereKeepsStamped | mikado/security/sessioncache.py:451-454 | deleting any set of keys keeps the table invariant |
| Lifecycle.RoundTrip | mikado/security/sessioncache.py:339-346 | create then read returns the same record at every clock value in `[now, now + 3600]`, and "no session" after |
| Lifecycle.ExpiredReadsAsAbsent | mikado/security/sessioncache.py:392-398 | reading an expired row gives the same answer as reading with the row removed, namely "no session" |
| Lifecycle.DeleteIdempotent | mikado/security/sessioncache.py:364-369 | deleting twice gives the same table and result as deleting once; neither call raises, and the id then reads as absent |
| Lifecycle.DuplicatePurges | mikado/security/sessioncache.py:347-351 | a second creation of the same id raises, and returns the table to what it held before the first creation; the id then reads as absent |
| Lifecycle.SetOnExpiredRowIsDuplicate | mikado/security/sessioncache.py:333-351 | creating over an expired but undeleted row raises the duplicate error and purges the row |
| Lifecycle.MalformedLookupRaises | mikado/security/sessioncache.py:387-389 | a lookup of "Dr. Evil" raises the format error, whatever the table holds |
| Lifecycle.UnknownLookupIsAbsent | mikado/security/sessioncache.py:395-397 | a well-formed id that is not in the table reads as "no session", not as an error |
| Lifecycle.ExpiredMeansPastEnd | mikado/security/sessioncache.py:339-340 | on a stamped table, an id is expired if and only if its row exists and the clock is past its end |
| Lifecycle.SetSessionTransitions | mikado/security/sessioncache.py:329-351 | creation moves ids only along the lifecycle: a fresh id becomes live, a duplicate becomes absent, and every other id keeps its phase |
| Lifecycle.DeleteSessionTransitions | mikado/security/sessioncache.py:364-369 | deletion sends its id to absent and changes no other id's phase |
| Lifecycle.ClockTransitions | mikado/security/sessioncache.py:392-394 | as the store clock advances, the invariant is kept, every id moves only along the lifecycle, and an expired row never becomes live again |
| Lifecycle.StampedLater | mikado/security/sessioncache.py:339-340 | as the store clock advances, a table whose rows were all stamped no later than the old clock keeps the invariant |
| Lifecycle.GetSessionByPhase | mikado/security/sessioncache.py:387-399 | for a well-formed id, a lookup returns the stored record exactly in the live phase, and "no session" otherwise |
| FakeUsers.SetEachFresh | mikado/security/sessioncache.py:455-459 | the loop of creations over distinct, well-formed, absent ids raises nothing and adds exactly each developer's row |
| FakeUsers.FixedIdsValid | mikado/security/sessioncache.py:435-447 | the three fixed session ids pass the shape check |
| FakeUsers.FixedIdsDistinct | mikado/security/sessioncache.py:435-447 | the three fixed session ids are pairwise distinct |
| FakeUsers.FixedIdsAreDevelopers | mikado/security/sessioncache.py:435-454 | the ids named by the bulk DELETE are exactly the developers' session ids |
| FakeUsers.PlantedRows | mikado/security/sessioncache.py:455-459 | the batch of planted rows holds exactly one row per developer, keyed by that developer's id and stamped at `now` |
| FakeUsers.FixedLoopResult | mikado/security/sessioncache.py:449-459 | the source's loop, run after the bulk DELETE, completes without raising and gives the table `FakeUsers.FakeSessionUsers` describes |
| FakeUsers.FixedUsersKeys | mikado/security/sessioncache.py:449-459 | 'fixed' succeeds; the keys afterwards are the old keys plus exactly the three fixed ids; every other row is unchanged |
| FakeUsers.FixedUsersRows | mikado/security/sessioncache.py:420-459 | after 'fixed', each fixed id holds its developer's user record, stamped with the one-hour lifetime from `now` (the single clock value of the call; see Left out) |
| FakeUsers.PlantedLive | mikado/security/sessioncache.py:392-399 | rows stamped at `now` under well-formed ids all read back their records throughout the following hour |
| FakeUsers.StampedRowLive | mikado/security/sessioncache.py:392-399 | one such row reads back its developer's record at any clock value in `[now, now + 3600]` |
| FakeUsers.FixedUsersLive | mikado/security/sessioncache.py:402-459 | after 'fixed', all three fixed sessions are live and read back their developers' records for the next hour |
| FakeUsers.OtherSessionTypesRaise | mikado/security/sessioncache.py:460-465 | any type other than 'fixed' raises and leaves the table as it was: 'floating' with the undefined-name error, any other type with a session error |
| SessionCache.SessionCache.constructor | mikado/security/sessioncache.py:475-486 | a freshly created table is empty and satisfies the invariant |
| SessionCache.SessionCache.AdvanceClock | mikado/security/sessioncache.py:339-340 | the store clock moves forward, no row changes, and the invariant survives |
| SessionCache.SessionCache.SetSession | mikado/security/sessioncache.py:309-352 | the in-place table and result equal `Lifecycle.SetSession` on the old table; the clock is unchanged; the invariant is kept |
| SessionCache.SessionCache.DeleteSession | mikado/security/sessioncache.py:355-372 | the in-place table and result equal `Lifecycle.DeleteSession` on the old table; the invariant is kept |
| SessionCache.SessionCache.GetSession | mikado/security/sessioncache.py:375-399 | the result equals `Lifecycle.GetSession` on the current table and clock, and the method changes no state |
| SessionCache.SessionCache.InitDb | mikado/security/sessioncache.py:468-486 | the table is empty afterwards, the clock is unchanged, and the invariant holds |
| SessionCache.SessionCache.MaintenanceBatch | mikado/security/sessioncache.py:489-497 | REINDEX leaves every row and the clock unchanged |
| SessionCache.SessionCache.SetEach | mikado/security/sessioncache.py:455-459 | the loop of `set_session` calls leaves exactly the table and result of `FakeUsers.SetEach`; the first error stops the loop |
| SessionCache.SessionCache.FakeSessionUsers | mikado/security/sessioncache.py:402-465 | for every type, the in-place table and result equal `FakeUsers.FakeSessionUsers` on the old table; for 'fixed' it runs the bulk DELETE and then the loop, which by `FakeUsers.FixedLoopResult` ends in that closed form; the invariant is kept |

## Left out

- Connections, cursors, commits and `psycopg2.Error` from `getconn`, `run_query` and `exec_stmt` are not modelled. Every statement is taken to reach the store and to succeed, apart from the primary-key violation.
- `CONFD`/`set_config` and the connection parameters are not modelled, since they only choose which store is used.
- JSON serialisation is not modelled: `json.loads(json.dumps(u))` is taken as `u`, and the table stores the user record value itself. The model's JSON numbers are integers.
- Time zones, and the format timestamps are stored in, are not modelled. The store clock is whole seconds on one time line, and it never goes backwards (`AdvanceClock` takes a `nat`). A PostgreSQL `CURRENT_TIMESTAMP` follows wall-clock time and can step back. The invariant's `start <= now`, Lifecycle.ExpiredMeansPastEnd and Lifecycle.ClockTransitions' "an expired row never becomes live again" rely on the clock never going backwards.
- The store clock does not advance during one call; it moves only between calls (`AdvanceClock`). So the fixture's three rows share one start, although in the source each `set_session` call of the loop (lines 455-459) issues its INSERT as its own transaction with its own CURRENT_TIMESTAMP. FakeUsers.FixedUsersRows, FakeUsers.PlantedRows and FakeUsers.FixedUsersLive state that shared stamp.
- A Dafny `char` stands for one element of the Python 2 string: a byte of a `str`, or a code unit of a `unicode`. Under that reading the length checks are exact. For a non-ASCII `str` id, Python 2 counts bytes, so a multi-byte character is one `char` here but several units of `len` in the source.
- Logging is not modelled.
- Lifecycle.GetSession: line 390 is modelled as the log call it was evidently meant to be. As written, it calls the logger object itself (`lgr(...)`), which is not callable, so every lookup of a well-formed id would raise `TypeError` before the SELECT.
- `userd.keys()` in `set_session` (line 342) raises on a non-dict argument. The model types the user record as a map, so that case cannot arise.
- The intended 'floating' fake-session behaviour (a random UUID for one developer) is left out. As written, the branch refers to `uuid`, which is never imported, so it raises `NameError` before any statement runs. The model gives `UuidUndefined` with the table unchanged.
- `delete_session` catches `IntegrityError` (lines 370-372), but a DELETE cannot violate the primary key, so that path is not modelled.
- Concurrency is not modelled: each statement is one atomic step. Another client can act on the same id between the failed INSERT and the DELETE that purges it.
- The physical effect of `REINDEX` is not modelled: on the table's contents it changes nothing.
- The module's doctest runner (lines 500-504) and the docstring usage of the fixture are not modelled.
- The default argument `sessiontype='fixed'` of `_fakesessionusers` (line 402) is not modelled: FakeUsers.FakeSessionUsers and the class method take the type explicitly, and passing "fixed" gives the default call.
