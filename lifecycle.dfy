/**
 * The session lifecycle policy, as functions from the table and the store
 * clock to the new table and the caller's result: validate the id before
 * touching the store, stamp a fixed one-hour lifetime on creation, purge the
 * row and fail on a duplicate creation, and answer "no session" (not an
 * error) for an id that is unknown or expired.
 *
 * Per session id the table moves through the phases absent, live, expired;
 * deletion (explicit or by the duplicate purge) returns it to absent.
 */
module Lifecycle {
  import Uuid
  import opened Json
  import opened Store

  /** Lifetime of every session, fixed in code as a security decision. */
  const FixedSessionDurationSecs: int := 3600

  /** The errors a caller can see. */
  datatype Error =
    /** SessionError: the id failed the shape check; the store was not touched. */
    | InvalidFormat(sessionid: string)
    /** SessionError raised after the INSERT hit the primary key and the row was purged. */
    | DuplicateSession(sessionid: string)
    /** SessionError: a fake-session type other than 'fixed' or 'floating'. */
    | BadSessionType(sessiontype: string)
    /** NameError: the 'floating' fake-session branch refers to `uuid`, which is never imported. */
    | UuidUndefined

  datatype Option<T> = None | Some(value: T)

  datatype Result<T> = Ok(value: T) | Err(error: Error)

  /** The table after an operation, with what the operation returned or raised. */
  datatype Step<T> = Step(table: Table, result: Result<T>)

  /**
   * The table invariant every operation keeps: keys are well-formed ids, and
   * every row was stamped no later than the clock with the fixed lifetime.
   */
  ghost predicate Stamped(t: Table, now: int)
  {
    forall k :: k in t ==>
      Uuid.ValidateUuidFormat(k) && t[k].start <= now && t[k].end == t[k].start + FixedSessionDurationSecs
  }

  /** Deleting any set of rows keeps the invariant. */
  lemma DeleteWhereKeepsStamped(t: Table, now: int, ids: set<string>)
    requires Stamped(t, now)
    ensures Stamped(DeleteWhere(t, ids), now)
  {
  }

  /** `delete_session`: validate, then an idempotent DELETE of that key. */
  function DeleteSession(t: Table, sessionid: string): (s: Step<()>)
    ensures !Uuid.ValidateUuidFormat(sessionid) ==> s == Step(t, Err(InvalidFormat(sessionid)))
    ensures Uuid.ValidateUuidFormat(sessionid) ==> s.result == Ok(())
    ensures Uuid.ValidateUuidFormat(sessionid) ==> s.table.Keys == t.Keys - {sessionid}
    ensures forall k :: k in s.table ==> k in t && s.table[k] == t[k]
    ensures forall now :: Stamped(t, now) ==> Stamped(s.table, now)
  {
    if !Uuid.ValidateUuidFormat(sessionid) then Step(t, Err(InvalidFormat(sessionid)))
    else Step(DeleteWhere(t, {sessionid}), Ok(()))
  }

  /**
   * `set_session`: validate, then INSERT with `end = now + 3600`; on the
   * primary-key violation delete the existing row and raise.
   */
  function SetSession(t: Table, now: int, sessionid: string, userd: UserDict): (s: Step<bool>)
    ensures !Uuid.ValidateUuidFormat(sessionid) ==> s == Step(t, Err(InvalidFormat(sessionid)))
    ensures Uuid.ValidateUuidFormat(sessionid) && sessionid !in t ==>
      s.result == Ok(true) &&
      s.table == t[sessionid := Record(userd, now, now + FixedSessionDurationSecs)]
    ensures Uuid.ValidateUuidFormat(sessionid) && sessionid in t ==>
      s.result == Err(DuplicateSession(sessionid)) && s.table == t - {sessionid}
    ensures Stamped(t, now) ==> Stamped(s.table, now)
  {
    if !Uuid.ValidateUuidFormat(sessionid) then Step(t, Err(InvalidFormat(sessionid)))
    else
      match Insert(t, sessionid, userd, now, FixedSessionDurationSecs)
      case Inserted(t') => Step(t', Ok(true))
      case IntegrityError => Step(DeleteSession(t, sessionid).table, Err(DuplicateSession(sessionid)))
  }

  /**
   * `get_session`: validate, then the live-row SELECT; the stored user
   * record when exactly one row comes back, `None` otherwise.
   */
  function GetSession(t: Table, now: int, sessionid: string): (r: Result<Option<UserDict>>)
    ensures !Uuid.ValidateUuidFormat(sessionid) ==> r == Err(InvalidFormat(sessionid))
    ensures Uuid.ValidateUuidFormat(sessionid) ==> r.Ok?
    ensures r.Ok? && r.value.Some? <==>
      Uuid.ValidateUuidFormat(sessionid) && sessionid in t && Between(now, t[sessionid])
    ensures r.Ok? && r.value.Some? ==> r.value.value == t[sessionid].userdict
  {
    if !Uuid.ValidateUuidFormat(sessionid) then Err(InvalidFormat(sessionid))
    else
      var rows := SelectLive(t, sessionid, now);
      if |rows| != 1 then Ok(None) else Ok(Some(rows[0]))
  }

  // ---------------------------------------------------------------------------
  // Properties relating several operations
  // ---------------------------------------------------------------------------

  /**
   * Creating a fresh session and reading it back: the same user record at
   * every clock value of the closed hour [now, now + 3600], nothing after.
   */
  lemma RoundTrip(t: Table, now: int, sessionid: string, userd: UserDict, later: int)
    requires Uuid.ValidateUuidFormat(sessionid) && sessionid !in t
    ensures SetSession(t, now, sessionid, userd).result == Ok(true)
    ensures now <= later <= now + FixedSessionDurationSecs ==>
      GetSession(SetSession(t, now, sessionid, userd).table, later, sessionid) == Ok(Some(userd))
    ensures later > now + FixedSessionDurationSecs ==>
      GetSession(SetSession(t, now, sessionid, userd).table, later, sessionid) == Ok(None)
  {
  }

  /** An expired row reads exactly like a missing one, and reading changes nothing. */
  lemma ExpiredReadsAsAbsent(t: Table, now: int, sessionid: string)
    requires sessionid in t && !Between(now, t[sessionid])
    ensures GetSession(t, now, sessionid) == GetSession(t - {sessionid}, now, sessionid)
    ensures Uuid.ValidateUuidFormat(sessionid) ==> GetSession(t, now, sessionid) == Ok(None)
  {
  }

  /** Deleting twice leaves the table deleting once leaves, and neither call raises. */
  lemma DeleteIdempotent(t: Table, now: int, sessionid: string)
    requires Uuid.ValidateUuidFormat(sessionid)
    ensures DeleteSession(DeleteSession(t, sessionid).table, sessionid) == DeleteSession(t, sessionid)
    ensures DeleteSession(t, sessionid).result == Ok(())
    ensures GetSession(DeleteSession(t, sessionid).table, now, sessionid) == Ok(None)
  {
  }

  /**
   * Creating the same session twice: the second call raises, purges the row
   * the first created, and leaves every other row; the id then reads as absent.
   */
  lemma DuplicatePurges(t: Table, now: int, later: int, reread: int, sessionid: string, u1: UserDict, u2: UserDict)
    requires Uuid.ValidateUuidFormat(sessionid) && sessionid !in t
    ensures var first := SetSession(t, now, sessionid, u1);
            var second := SetSession(first.table, later, sessionid, u2);
            && second.result == Err(DuplicateSession(sessionid))
            && second.table == t
            && GetSession(second.table, reread, sessionid) == Ok(None)
  {
    var first := SetSession(t, now, sessionid, u1);
    assert first.table - {sessionid} == t;
  }

  /**
   * A row that has expired but was never deleted still holds its primary key,
   * so creating a session with that id raises (and purges the row).
   */
  lemma SetOnExpiredRowIsDuplicate(t: Table, now: int, sessionid: string, userd: UserDict)
    requires Uuid.ValidateUuidFormat(sessionid) && sessionid in t && !Between(now, t[sessionid])
    ensures SetSession(t, now, sessionid, userd) == Step(t - {sessionid}, Err(DuplicateSession(sessionid)))
  {
  }

  /** A malformed id raises, whatever the table holds. */
  lemma MalformedLookupRaises(t: Table, now: int)
    ensures GetSession(t, now, "Dr. Evil") == Err(InvalidFormat("Dr. Evil"))
  {
    Uuid.RejectsExamples();
  }

  /** A well-formed id that was never created reads as "no session", not as an error. */
  lemma UnknownLookupIsAbsent(t: Table, now: int)
    requires "00000000-0000-0000-0000-000000000099" !in t
    ensures GetSession(t, now, "00000000-0000-0000-0000-000000000099") == Ok(None)
  {
    assert "00000000-0000-0000-0000-000000000099"
        == "00000000" + [Uuid.Dash] + "0000" + [Uuid.Dash] + "0000" + [Uuid.Dash] + "0000" + [Uuid.Dash] + "000000000099";
    Uuid.ShapedFromGroups("00000000", "0000", "0000", "0000", "000000000099");
  }

  // ---------------------------------------------------------------------------
  // The per-id state machine: absent -> live -> expired, and back to absent
  // ---------------------------------------------------------------------------

  /** Where one session id stands: no row, a row inside its lifetime, a row past it. */
  datatype Phase = Absent | Live | Expired

  /** The phase of `sessionid` in table `t` at clock `now`. */
  function PhaseOf(t: Table, now: int, sessionid: string): Phase
  {
    if sessionid !in t then Absent
    else if Between(now, t[sessionid]) then Live
    else Expired
  }

  /** The edges of the lifecycle: creation, expiry, deletion, and staying put. */
  predicate Allowed(p: Phase, q: Phase)
  {
    p == q || (p == Absent && q == Live) || (p == Live && q == Expired) || q == Absent
  }

  /** On a stamped table, expired means past its end. */
  lemma ExpiredMeansPastEnd(t: Table, now: int, sessionid: string)
    requires Stamped(t, now)
    ensures PhaseOf(t, now, sessionid) == Expired <==> sessionid in t && now > t[sessionid].end
  {
  }

  /**
   * `set_session` moves only along the lifecycle: the created id becomes
   * live, a duplicate becomes absent, every other id keeps its phase.
   */
  lemma SetSessionTransitions(t: Table, now: int, sessionid: string, userd: UserDict, k: string)
    ensures var t' := SetSession(t, now, sessionid, userd).table;
            && Allowed(PhaseOf(t, now, k), PhaseOf(t', now, k))
            && (k != sessionid ==> PhaseOf(t', now, k) == PhaseOf(t, now, k))
            && (Uuid.ValidateUuidFormat(sessionid) && PhaseOf(t, now, sessionid) == Absent ==>
                  PhaseOf(t', now, sessionid) == Live)
            && (Uuid.ValidateUuidFormat(sessionid) && PhaseOf(t, now, sessionid) != Absent ==>
                  PhaseOf(t', now, sessionid) == Absent)
  {
  }

  /** `delete_session` sends its id to absent and leaves every other id's phase. */
  lemma DeleteSessionTransitions(t: Table, now: int, sessionid: string, k: string)
    ensures var t' := DeleteSession(t, sessionid).table;
            && Allowed(PhaseOf(t, now, k), PhaseOf(t', now, k))
            && (k != sessionid ==> PhaseOf(t', now, k) == PhaseOf(t, now, k))
            && (Uuid.ValidateUuidFormat(sessionid) ==> PhaseOf(t', now, sessionid) == Absent)
  {
  }

  /**
   * The passing of store time moves only along the lifecycle: an absent id
   * stays absent, an expired row never becomes live again, and the
   * invariant survives.
   */
  lemma ClockTransitions(t: Table, now: int, later: int, k: string)
    requires Stamped(t, now) && now <= later
    ensures Stamped(t, later)
    ensures Allowed(PhaseOf(t, now, k), PhaseOf(t, later, k))
    ensures PhaseOf(t, now, k) == Expired ==> PhaseOf(t, later, k) == Expired
  {
    StampedLater(t, now, later);
  }

  /** The invariant survives the passing of store time: no row is stamped in the future. */
  lemma StampedLater(t: Table, now: int, later: int)
    requires Stamped(t, now) && now <= later
    ensures Stamped(t, later)
  {
  }

  /** `get_session` answers with a user record exactly in the live phase. */
  lemma GetSessionByPhase(t: Table, now: int, sessionid: string)
    requires Uuid.ValidateUuidFormat(sessionid)
    ensures PhaseOf(t, now, sessionid) == Live ==> GetSession(t, now, sessionid) == Ok(Some(t[sessionid].userdict))
    ensures PhaseOf(t, now, sessionid) != Live ==> GetSession(t, now, sessionid) == Ok(None)
  {
  }
}
