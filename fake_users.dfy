/**
 * The testing fixture `_fakesessionusers`: with type 'fixed' it clears the
 * three fixed all-zero session ids and creates one session for each of three
 * developer accounts; any other type raises.
 */
module FakeUsers {
  import Uuid
  import opened Json
  import opened Store
  import opened Lifecycle

  /** One entry of the fixture's `developers` list. */
  datatype Developer = Developer(name: string, uri: string, fakeSessionId: string)

  const Developers: seq<Developer> := [
    Developer("pbrian", "cnxuser:75e06194-baee-4395-8e1a-566b656f6920",
              "00000000-0000-0000-0000-000000000000"),
    Developer("rossreedstrm", "cnxuser:75e06194-baee-4395-8e1a-566b656f6921",
              "00000000-0000-0000-0000-000000000001"),
    Developer("edwoodward", "cnxuser:75e06194-baee-4395-8e1a-566b656f6922",
              "00000000-0000-0000-0000-000000000002")
  ]

  /** The ids the fixture's bulk DELETE names. */
  const FixedIds: set<string> := {
    "00000000-0000-0000-0000-000000000000",
    "00000000-0000-0000-0000-000000000001",
    "00000000-0000-0000-0000-000000000002"
  }

  /** The user record `json.loads(developertmpl % dev)`. */
  function DeveloperUserDict(dev: Developer): UserDict
  {
    map[
      "interests" := JNull,
      "identifiers" := JArray([JObject(map[
        "identifierstring" := JString("https://" + dev.name + ".myopenid.com"),
        "user_id" := JString(dev.uri),
        "identifiertype" := JString("openid")])]),
      "user_id" := JString(dev.uri),
      "suffix" := JNull, "firstname" := JNull, "title" := JNull,
      "middlename" := JNull, "lastname" := JNull, "imageurl" := JNull,
      "otherlangs" := JNull, "affiliationinstitution_url" := JNull,
      "email" := JNull, "version" := JNull, "location" := JNull,
      "recommendations" := JNull, "preferredlang" := JNull,
      "fullname" := JString(dev.name), "homepage" := JNull,
      "affiliationinstitution" := JNull, "biography" := JNull
    ]
  }

  /** The row `set_session` creates for a developer at clock `now`. */
  function SessionRecord(dev: Developer, now: int): Record
  {
    Record(DeveloperUserDict(dev), now, now + FixedSessionDurationSecs)
  }

  /**
   * The fixture's loop: `set_session` for each developer in order; the first
   * error propagates and skips the rest.
   */
  function SetEach(t: Table, now: int, devs: seq<Developer>): Step<()>
    decreases |devs|
  {
    if devs == [] then Step(t, Ok(()))
    else
      var first := SetSession(t, now, devs[0].fakeSessionId, DeveloperUserDict(devs[0]));
      if first.result.Err? then Step(first.table, Err(first.result.error))
      else SetEach(first.table, now, devs[1..])
  }

  /** The rows that creating a session for each of `devs` adds. */
  function Planted(devs: seq<Developer>, now: int): Table
  {
    if devs == [] then map[]
    else map[devs[0].fakeSessionId := SessionRecord(devs[0], now)] + Planted(devs[1..], now)
  }

  /** Adding one row before a batch of rows is adding the row to the batch. */
  lemma UpdateThenUnion(t: Table, k: string, r: Record, rows: Table)
    ensures t[k := r] + rows == t + (map[k := r] + rows)
  {
  }

  /** Creating sessions for distinct, well-formed, absent ids adds exactly their rows. */
  lemma {:induction false} SetEachFresh(t: Table, now: int, devs: seq<Developer>)
    requires forall i :: 0 <= i < |devs| ==>
      Uuid.ValidateUuidFormat(devs[i].fakeSessionId) && devs[i].fakeSessionId !in t
    requires forall i, j :: 0 <= i < j < |devs| ==> devs[i].fakeSessionId != devs[j].fakeSessionId
    ensures SetEach(t, now, devs) == Step(t + Planted(devs, now), Ok(()))
    decreases |devs|
  {
    if devs != [] {
      var d, rest := devs[0], devs[1..];
      var t1 := t[d.fakeSessionId := SessionRecord(d, now)];
      assert Uuid.ValidateUuidFormat(d.fakeSessionId) && d.fakeSessionId !in t;
      assert SetSession(t, now, d.fakeSessionId, DeveloperUserDict(d)) == Step(t1, Ok(true));
      assert SetEach(t, now, devs) == SetEach(t1, now, rest);
      forall i | 0 <= i < |rest|
        ensures Uuid.ValidateUuidFormat(rest[i].fakeSessionId) && rest[i].fakeSessionId !in t1
      {
        assert rest[i] == devs[i + 1];
      }
      forall i, j | 0 <= i < j < |rest| ensures rest[i].fakeSessionId != rest[j].fakeSessionId {
        assert rest[i] == devs[i + 1] && rest[j] == devs[j + 1];
      }
      SetEachFresh(t1, now, rest);
      UpdateThenUnion(t, d.fakeSessionId, SessionRecord(d, now), Planted(rest, now));
    }
  }

  /** An id of all-zero groups followed by a dash-free twelve-character group is well formed. */
  lemma ZeroPrefixedValid(last: string)
    requires |last| == 12 && Uuid.Dash !in last
    ensures Uuid.ValidateUuidFormat("00000000-0000-0000-0000-" + last)
  {
    assert "00000000-0000-0000-0000-" + last
        == "00000000" + [Uuid.Dash] + "0000" + [Uuid.Dash] + "0000" + [Uuid.Dash] + "0000" + [Uuid.Dash] + last;
    Uuid.ShapedFromGroups("00000000", "0000", "0000", "0000", last);
  }

  /** Each fixed id is well formed (one lemma per id keeps each proof small). */
  lemma FirstIdValid()
    ensures Uuid.ValidateUuidFormat(Developers[0].fakeSessionId)
  {
    ZeroPrefixedValid("000000000000");
    assert Developers[0].fakeSessionId == "00000000-0000-0000-0000-" + "000000000000";
  }

  lemma SecondIdValid()
    ensures Uuid.ValidateUuidFormat(Developers[1].fakeSessionId)
  {
    ZeroPrefixedValid("000000000001");
    assert Developers[1].fakeSessionId == "00000000-0000-0000-0000-" + "000000000001";
  }

  lemma ThirdIdValid()
    ensures Uuid.ValidateUuidFormat(Developers[2].fakeSessionId)
  {
    ZeroPrefixedValid("000000000002");
    assert Developers[2].fakeSessionId == "00000000-0000-0000-0000-" + "000000000002";
  }

  /** The three fixed ids are well formed. */
  lemma FixedIdsValid()
    ensures forall i :: 0 <= i < |Developers| ==> Uuid.ValidateUuidFormat(Developers[i].fakeSessionId)
  {
    forall i | 0 <= i < |Developers| ensures Uuid.ValidateUuidFormat(Developers[i].fakeSessionId) {
      if i == 0 {
        FirstIdValid();
      } else if i == 1 {
        SecondIdValid();
      } else {
        ThirdIdValid();
      }
    }
  }

  /** The three fixed ids are distinct. */
  lemma FixedIdsDistinct()
    ensures forall i, j :: 0 <= i < j < |Developers| ==> Developers[i].fakeSessionId != Developers[j].fakeSessionId
  {
    assert Developers[0].fakeSessionId[35] == '0';
    assert Developers[1].fakeSessionId[35] == '1';
    assert Developers[2].fakeSessionId[35] == '2';
  }

  /**
   * `_fakesessionusers(sessiontype)` in closed form: with 'fixed', the bulk
   * DELETE of the fixed ids followed by one fresh row per developer (that
   * the source's loop of `set_session` calls produces exactly this is
   * FixedLoopResult); with 'floating', the NameError the branch raises before
   * reaching the store; any other type raises SessionError. The source's
   * default type is 'fixed'; here every caller passes the type explicitly.
   */
  function FakeSessionUsers(t: Table, now: int, sessiontype: string): Step<()>
  {
    if sessiontype == "fixed" then Step(DeleteWhere(t, FixedIds) + Planted(Developers, now), Ok(()))
    else if sessiontype == "floating" then Step(t, Err(UuidUndefined))
    else Step(t, Err(BadSessionType(sessiontype)))
  }

  /** Any type other than 'fixed' raises and leaves the table as it was. */
  lemma OtherSessionTypesRaise(t: Table, now: int, sessiontype: string)
    requires sessiontype != "fixed"
    ensures FakeSessionUsers(t, now, sessiontype).table == t
    ensures FakeSessionUsers(t, now, sessiontype).result ==
      Err(if sessiontype == "floating" then UuidUndefined else BadSessionType(sessiontype))
  {
  }

  /**
   * The fixture's loop, started on the table after the bulk DELETE, creates
   * all three sessions without raising and ends in the closed form.
   */
  lemma FixedLoopResult(t: Table, now: int)
    ensures SetEach(DeleteWhere(t, FixedIds), now, Developers) == FakeSessionUsers(t, now, "fixed")
  {
    FixedIdsValid();
    FixedIdsDistinct();
    SetEachFresh(DeleteWhere(t, FixedIds), now, Developers);
  }

  /** The session ids of a list of developers. */
  function Ids(devs: seq<Developer>): set<string>
  {
    if devs == [] then {} else {devs[0].fakeSessionId} + Ids(devs[1..])
  }

  /** An id no developer in the list carries is not among the list's ids. */
  lemma {:induction false} NotInIds(devs: seq<Developer>, k: string)
    requires forall i :: 0 <= i < |devs| ==> devs[i].fakeSessionId != k
    ensures k !in Ids(devs)
    decreases |devs|
  {
    if devs != [] {
      var rest := devs[1..];
      forall i | 0 <= i < |rest| ensures rest[i].fakeSessionId != k {
        assert rest[i] == devs[i + 1];
      }
      NotInIds(rest, k);
    }
  }

  /** The batch of rows holds exactly one row per developer, stamped at `now`. */
  lemma {:induction false} PlantedRows(devs: seq<Developer>, now: int)
    requires forall i, j :: 0 <= i < j < |devs| ==> devs[i].fakeSessionId != devs[j].fakeSessionId
    ensures Planted(devs, now).Keys == Ids(devs)
    ensures forall i :: 0 <= i < |devs| ==> devs[i].fakeSessionId in Planted(devs, now)
    ensures forall i :: 0 <= i < |devs| ==> Planted(devs, now)[devs[i].fakeSessionId] == SessionRecord(devs[i], now)
    decreases |devs|
  {
    if devs != [] {
      var rest := devs[1..];
      forall i, j | 0 <= i < j < |rest| ensures rest[i].fakeSessionId != rest[j].fakeSessionId {
        assert rest[i] == devs[i + 1] && rest[j] == devs[j + 1];
      }
      PlantedRows(rest, now);
      forall i | 0 <= i < |rest| ensures rest[i].fakeSessionId != devs[0].fakeSessionId {
        assert rest[i] == devs[i + 1];
      }
      NotInIds(rest, devs[0].fakeSessionId);
      forall i | 0 <= i < |devs|
        ensures devs[i].fakeSessionId in Planted(devs, now)
        ensures Planted(devs, now)[devs[i].fakeSessionId] == SessionRecord(devs[i], now)
      {
        if i > 0 {
          assert devs[i] == rest[i - 1];
        }
      }
    }
  }

  /** The bulk DELETE names exactly the developers' ids. */
  lemma FixedIdsAreDevelopers()
    ensures FixedIds == Ids(Developers)
  {
    assert Developers[1..][1..] == Developers[2..];
    assert Developers[2..][1..] == [];
  }

  /**
   * After the 'fixed' fixture exactly the three fixed ids are added without
   * error; every other row is kept.
   */
  lemma FixedUsersKeys(t: Table, now: int)
    ensures FakeSessionUsers(t, now, "fixed").result == Ok(())
    ensures FakeSessionUsers(t, now, "fixed").table.Keys == t.Keys + FixedIds
    ensures forall k :: k in t && k !in FixedIds ==> FakeSessionUsers(t, now, "fixed").table[k] == t[k]
  {
    FixedIdsDistinct();
    PlantedRows(Developers, now);
    FixedIdsAreDevelopers();
  }

  /** ... each developer's id holding that developer's record, stamped at `now`. */
  lemma FixedUsersRows(t: Table, now: int)
    ensures forall i :: 0 <= i < |Developers| ==>
      var s := FakeSessionUsers(t, now, "fixed");
      Developers[i].fakeSessionId in s.table && s.table[Developers[i].fakeSessionId] == SessionRecord(Developers[i], now)
  {
    FixedIdsDistinct();
    PlantedRows(Developers, now);
  }

  /** A row stamped at `now` reads back its record throughout the closed hour that follows. */
  lemma StampedRowLive(t: Table, now: int, later: int, dev: Developer)
    requires Uuid.ValidateUuidFormat(dev.fakeSessionId)
    requires dev.fakeSessionId in t && t[dev.fakeSessionId] == SessionRecord(dev, now)
    requires now <= later <= now + FixedSessionDurationSecs
    ensures GetSession(t, later, dev.fakeSessionId) == Ok(Some(DeveloperUserDict(dev)))
  {
  }

  /** Rows stamped at `now` under well-formed ids all read back their records for the next hour. */
  lemma PlantedLive(t: Table, devs: seq<Developer>, now: int, later: int)
    requires forall i :: 0 <= i < |devs| ==> Uuid.ValidateUuidFormat(devs[i].fakeSessionId)
    requires forall i :: 0 <= i < |devs| ==>
      devs[i].fakeSessionId in t && t[devs[i].fakeSessionId] == SessionRecord(devs[i], now)
    requires now <= later <= now + FixedSessionDurationSecs
    ensures forall i :: 0 <= i < |devs| ==>
      GetSession(t, later, devs[i].fakeSessionId) == Ok(Some(DeveloperUserDict(devs[i])))
  {
    forall i | 0 <= i < |devs|
      ensures GetSession(t, later, devs[i].fakeSessionId) == Ok(Some(DeveloperUserDict(devs[i])))
    {
      StampedRowLive(t, now, later, devs[i]);
    }
  }

  /** ... and each of the three is live, reading back its developer's record, for the next hour. */
  lemma FixedUsersLive(t: Table, now: int, later: int)
    requires now <= later <= now + FixedSessionDurationSecs
    ensures forall i :: 0 <= i < |Developers| ==>
      GetSession(FakeSessionUsers(t, now, "fixed").table, later, Developers[i].fakeSessionId)
        == Ok(Some(DeveloperUserDict(Developers[i])))
  {
    FixedUsersRows(t, now);
    FixedIdsValid();
    PlantedLive(FakeSessionUsers(t, now, "fixed").table, Developers, now, later);
  }
}
