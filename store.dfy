/**
 * The table `session_cache` and the single SQL statements the session cache
 * issues against it, each as one atomic step on the table's contents.
 *
 * The table's primary key is `sessionid`, so its contents are a map from
 * session id to the rest of the row. Timestamps are whole seconds of the
 * store's own clock; one statement reads that clock once, so `start` and
 * `end` of an inserted row are computed from the same `now`.
 */
module Store {
  import opened Json

  /** One row of `session_cache` without its key. */
  datatype Record = Record(userdict: UserDict, start: int, end: int)

  /** The rows of `session_cache`, keyed by the primary key `sessionid`. */
  type Table = map<string, Record>

  /** SQL `now BETWEEN start AND end`: inclusive at both ends. */
  predicate Between(now: int, r: Record)
  {
    r.start <= now <= r.end
  }

  /** What an INSERT does: a new table, or the primary-key violation. */
  datatype InsertOutcome = Inserted(table: Table) | IntegrityError

  /**
   * `INSERT INTO session_cache VALUES (id, userdict, CURRENT_TIMESTAMP,
   * CURRENT_TIMESTAMP + duration)`: fails on an existing key, otherwise adds
   * exactly that row and leaves every other row as it was.
   */
  function Insert(t: Table, sessionid: string, userdict: UserDict, now: int, duration: int): (r: InsertOutcome)
    ensures r.IntegrityError? <==> sessionid in t
    ensures r.Inserted? ==> r.table.Keys == t.Keys + {sessionid}
    ensures r.Inserted? ==> r.table[sessionid] == Record(userdict, now, now + duration)
    ensures r.Inserted? ==> forall k :: k in t ==> r.table[k] == t[k]
  {
    if sessionid in t then IntegrityError
    else Inserted(t[sessionid := Record(userdict, now, now + duration)])
  }

  /**
   * `DELETE FROM session_cache WHERE sessionid IN ids`: removes the rows with
   * those keys, whether or not they exist, and keeps all others.
   */
  function DeleteWhere(t: Table, ids: set<string>): (r: Table)
    ensures r.Keys == t.Keys - ids
    ensures forall k :: k in r ==> r[k] == t[k]
  {
    t - ids
  }

  /**
   * `SELECT userdict FROM session_cache WHERE sessionid = id AND
   * CURRENT_TIMESTAMP BETWEEN start AND end`: the primary key allows at most
   * one row, and there is one exactly when the row exists and is live.
   */
  function SelectLive(t: Table, sessionid: string, now: int): (rows: seq<UserDict>)
    ensures |rows| <= 1
    ensures |rows| == 1 <==> sessionid in t && Between(now, t[sessionid])
    ensures |rows| == 1 ==> rows[0] == t[sessionid].userdict
  {
    if sessionid in t && Between(now, t[sessionid]) then [t[sessionid].userdict] else []
  }
}
