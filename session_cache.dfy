/**
 * The session cache as the source runs it: operations that change the store's
 * table `session_cache` in place, one SQL statement at a time, read the
 * store's clock, and return or raise. Each method is proved against the
 * lifecycle functions, so the properties proved about those functions hold of
 * every run of these methods.
 */
module SessionCache {
  import Uuid
  import opened Json
  import opened Store
  import opened Lifecycle
  import FakeUsers

  /** The store: the table `session_cache` and the store's clock. */
  class SessionCache {
    /** The rows of `session_cache`, keyed by `sessionid`. */
    var table: Table
    /** The store's CURRENT_TIMESTAMP, in whole seconds. */
    var now: int

    /** Keys are well-formed ids and every row was stamped with the fixed lifetime, no later than now. */
    ghost predicate Valid()
      reads this
    {
      Stamped(table, now)
    }

    /** A store whose table has just been created (empty) and whose clock reads `clock`. */
    constructor (clock: int)
      ensures table == map[] && now == clock
      ensures Valid()
    {
      table := map[];
      now := clock;
    }

    /** The store's clock moves forward; no statement runs. */
    method AdvanceClock(seconds: nat)
      modifies this
      ensures table == old(table) && now == old(now) + seconds
      ensures old(Valid()) ==> Valid()
    {
      if Valid() {
        StampedLater(table, now, now + seconds);
      }
      now := now + seconds;
    }

    /** `set_session`. */
    method SetSession(sessionid: string, userd: UserDict) returns (r: Result<bool>)
      modifies this
      ensures now == old(now)
      ensures Step(table, r) == Lifecycle.SetSession(old(table), now, sessionid, userd)
      ensures old(Valid()) ==> Valid()
    {
      if !Uuid.ValidateUuidFormat(sessionid) {
        return Err(InvalidFormat(sessionid));
      }
      match Insert(table, sessionid, userd, now, FixedSessionDurationSecs)
      case Inserted(t) =>
        table := t;
        r := Ok(true);
      case IntegrityError =>
        var purged := DeleteSession(sessionid);
        r := Err(DuplicateSession(sessionid));
    }

    /** `delete_session`. */
    method DeleteSession(sessionid: string) returns (r: Result<()>)
      modifies this
      ensures now == old(now)
      ensures Step(table, r) == Lifecycle.DeleteSession(old(table), sessionid)
      ensures old(Valid()) ==> Valid()
    {
      if !Uuid.ValidateUuidFormat(sessionid) {
        return Err(InvalidFormat(sessionid));
      }
      table := DeleteWhere(table, {sessionid});
      r := Ok(());
    }

    /** `get_session`: a read-only query. */
    method GetSession(sessionid: string) returns (r: Result<Option<UserDict>>)
      ensures r == Lifecycle.GetSession(table, now, sessionid)
    {
      if !Uuid.ValidateUuidFormat(sessionid) {
        return Err(InvalidFormat(sessionid));
      }
      var rows := SelectLive(table, sessionid, now);
      if |rows| != 1 {
        r := Ok(None);
      } else {
        r := Ok(Some(rows[0]));
      }
    }

    /** `initdb`: drop and recreate the table, leaving it empty. */
    method InitDb()
      modifies this
      ensures table == map[] && now == old(now)
      ensures Valid()
    {
      table := map[];
    }

    /** `maintenance_batch`: REINDEX changes no row. */
    method MaintenanceBatch()
      modifies this
      ensures table == old(table) && now == old(now)
    {
    }

    /**
     * The loop of `_fakesessionusers`: `set_session` for each developer in
     * order; the first error propagates and skips the rest.
     */
    method SetEach(devs: seq<FakeUsers.Developer>) returns (r: Result<()>)
      modifies this
      ensures now == old(now)
      ensures Step(table, r) == FakeUsers.SetEach(old(table), now, devs)
      ensures old(Valid()) ==> Valid()
    {
      var i := 0;
      while i < |devs|
        invariant 0 <= i <= |devs|
        invariant now == old(now)
        invariant FakeUsers.SetEach(table, now, devs[i..]) == FakeUsers.SetEach(old(table), now, devs)
        invariant old(Valid()) ==> Valid()
      {
        var dev := devs[i];
        assert devs[i..][1..] == devs[i + 1..];
        var res := SetSession(dev.fakeSessionId, FakeUsers.DeveloperUserDict(dev));
        if res.Err? {
          return Err(res.error);
        }
        i := i + 1;
      }
      r := Ok(());
    }

    /**
     * `_fakesessionusers`: for 'fixed', the bulk DELETE and then the loop;
     * by FixedLoopResult the loop always runs to the end.
     */
    method FakeSessionUsers(sessiontype: string) returns (r: Result<()>)
      modifies this
      ensures now == old(now)
      ensures Step(table, r) == FakeUsers.FakeSessionUsers(old(table), now, sessiontype)
      ensures old(Valid()) ==> Valid()
    {
      if sessiontype == "fixed" {
        if Valid() {
          DeleteWhereKeepsStamped(table, now, FakeUsers.FixedIds);
        }
        table := DeleteWhere(table, FakeUsers.FixedIds);
        r := SetEach(FakeUsers.Developers);
        FakeUsers.FixedLoopResult(old(table), now);
      } else if sessiontype == "floating" {
        r := Err(UuidUndefined);
      } else {
        r := Err(BadSessionType(sessiontype));
      }
    }
  }
}
