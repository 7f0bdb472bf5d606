/**
 * /api/nfc-mappings: GET lists a profile's mapping rules newest first, POST validates
 * one rule and inserts it. The `nfc_mappings` table is a store of rows the POST
 * appends to.
 */
module NfcMappings {
  import opened Wrappers
  import opened Json
  import opened Http
  import opened Text
  import opened Seqs
  import opened Sorting
  import opened Validations
  import Panels

  /** An instant as the database's NOW() gives it. */
  type Timestamp = nat

  /** A row of `nfc_mappings`. */
  datatype Mapping = Mapping(
    id: nat,
    profileId: int,
    recordType: string,
    fieldPath: string,
    description: Option<string>,
    createdAt: Timestamp)

  datatype MappingTable = MappingTable(rows: seq<Mapping>, nextId: nat)

  /** Every row's id was handed out by the SERIAL sequence before `nextId`. */
  predicate IdsIssued(t: MappingTable) {
    forall i :: 0 <= i < |t.rows| ==> t.rows[i].id < t.nextId
  }

  const RequiredMessage := "Profile ID is required"
  const InvalidIdMessage := "Invalid Profile ID"
  const FetchFailedMessage := "Failed to fetch NFC mappings"
  const CreateFailedMessage := "Failed to create NFC mapping"

  predicate OfProfile(m: Mapping, profileId: int) {
    m.profileId == profileId
  }

  /** The ORDER BY key: a later `created_at` sorts first. */
  function NewestFirstKey(m: Mapping): int {
    -(m.createdAt as int)
  }

  /** `SELECT * FROM nfc_mappings WHERE profile_id = $1 ORDER BY created_at DESC`. */
  function SelectByProfile(rows: seq<Mapping>, profileId: int): (r: seq<Mapping>)
    ensures multiset(r) == multiset(Filter(rows, m => OfProfile(m, profileId)))
    ensures forall i, j :: 0 <= i < j < |r| ==> r[i].createdAt >= r[j].createdAt
  {
    SortBy(Filter(rows, m => OfProfile(m, profileId)), NewestFirstKey)
  }

  /**
   * GET: the `profileId` search parameter (None when absent) must be non-empty and
   * have a leading integer; `fails` says the query throws. An id past the integer
   * column's range makes the query fail too.
   */
  function GetSpec(t: MappingTable, profileIdParam: Option<string>, fails: bool): Response<seq<Mapping>> {
    if profileIdParam.None? || profileIdParam.value == "" then Error(BadRequest, RequiredMessage)
    else match ParseInt(profileIdParam.value)
      case None => Error(BadRequest, InvalidIdMessage)
      case Some(profileId) =>
        if fails || !Panels.FitsInteger(profileId) then Error(InternalError, FetchFailedMessage)
        else Ok(SelectByProfile(t.rows, profileId))
  }

  lemma GetWithoutProfileId(t: MappingTable, param: Option<string>, fails: bool)
    ensures GetSpec(t, param, fails) == Error(BadRequest, RequiredMessage)
      <==> param.None? || param.value == ""
  {
  }

  /**
   * A non-empty parameter with no leading integer is refused, whether or not the query
   * would fail; "abc" is one.
   */
  lemma GetInvalidProfileId(t: MappingTable, s: string, fails: bool)
    requires s != "" && ParseInt(s).None?
    ensures GetSpec(t, Some(s), fails) == Error(BadRequest, InvalidIdMessage)
    ensures GetSpec(t, Some("abc"), fails) == Error(BadRequest, InvalidIdMessage)
  {
    ParseIntNoDigits();
  }

  /** A parameter that reads as profile `n` lists that profile, unless the query fails or `n` is out of range. */
  lemma GetOfReadableId(t: MappingTable, s: string, n: int, fails: bool)
    requires s != "" && ParseInt(s) == Some(n)
    ensures GetSpec(t, Some(s), fails) ==
      if fails || !Panels.FitsInteger(n) then Error(InternalError, FetchFailedMessage)
      else Ok(SelectByProfile(t.rows, n))
  {
  }

  /** Only the leading integer of the parameter counts: "12abc" lists profile 12. */
  lemma GetReadsLeadingInteger(t: MappingTable, n: int, rest: string, fails: bool)
    requires rest == [] || !IsDigit(rest[0])
    ensures GetSpec(t, Some(IntToString(n) + rest), fails) == GetSpec(t, Some(IntToString(n)), fails)
    ensures !fails && Panels.FitsInteger(n) ==>
      GetSpec(t, Some(IntToString(n) + rest), fails) == Ok(SelectByProfile(t.rows, n))
  {
    ParseIntLeading(n, rest);
    GetOfReadableId(t, IntToString(n) + rest, n, fails);
    ParseIntRoundTrip(n);
    GetOfReadableId(t, IntToString(n), n, fails);
  }

  /** The selection holds every mapping of the profile and no other. */
  lemma SelectedMembers(rows: seq<Mapping>, profileId: int)
    ensures forall m :: m in SelectByProfile(rows, profileId) <==> m in rows && m.profileId == profileId
  {
    var ms := SelectByProfile(rows, profileId);
    var f := Filter(rows, m => OfProfile(m, profileId));
    forall m ensures m in ms <==> m in f {
      assert m in ms <==> m in multiset(ms);
      assert m in f <==> m in multiset(f);
    }
  }

  /** A listing holds every mapping of the profile and no other, newest first. */
  lemma GetListsProfileNewestFirst(t: MappingTable, param: Option<string>, fails: bool)
    requires GetSpec(t, param, fails).Ok?
    ensures var ms := GetSpec(t, param, fails).body;
      var profileId := ParseInt(param.value).value;
      && (forall m :: m in ms <==> m in t.rows && m.profileId == profileId)
      && (forall i, j :: 0 <= i < j < |ms| ==> ms[i].createdAt >= ms[j].createdAt)
  {
    var profileId := ParseInt(param.value).value;
    GetOfReadableId(t, param.value, profileId, fails);
    SelectedMembers(t.rows, profileId);
  }

  /** The row a successful POST inserts. */
  function NewMapping(t: MappingTable, input: MappingInput, now: Timestamp): (m: Mapping)
    ensures m.id == t.nextId && m.createdAt == now
  {
    var description := if input.description == Some("") then None else input.description;
    Mapping(t.nextId, input.profileId, input.recordType, input.fieldPath, description, now)
  }

  /**
   * POST: the body (None when it is not JSON) must satisfy the mapping schema; then one
   * row is inserted; `fails` says the INSERT throws, as it does for a profileId past the
   * integer column's range. Every error answers 500.
   */
  function PostSpec(t: MappingTable, body: Option<Json>, now: Timestamp, fails: bool)
    : (Response<Mapping>, MappingTable)
  {
    if body.None? then (Error(InternalError, CreateFailedMessage), t)
    else match MappingSchema(body.value)
      case Invalid(_) => (Error(InternalError, CreateFailedMessage), t)
      case Valid(input) =>
        if fails || !Panels.FitsInteger(input.profileId) then (Error(InternalError, CreateFailedMessage), t)
        else
          var m := NewMapping(t, input, now);
          (Ok(m), MappingTable(t.rows + [m], t.nextId + 1))
  }

  /** A failed POST, for whatever reason, leaves the table as it was. */
  lemma PostErrorWritesNothing(t: MappingTable, body: Option<Json>, now: Timestamp, fails: bool)
    ensures PostSpec(t, body, now, fails).0.Error? ==>
      PostSpec(t, body, now, fails) == (Error(InternalError, CreateFailedMessage), t)
  {
  }

  /** A POST the schema refuses is a 500 and writes nothing. */
  lemma PostInvalidBody(t: MappingTable, j: Json, now: Timestamp, fails: bool)
    requires RequiredPositive(j, "profileId").None? || RequiredString(j, "recordType").None?
      || RequiredString(j, "fieldPath").None?
    ensures PostSpec(t, Some(j), now, fails) == (Error(InternalError, CreateFailedMessage), t)
  {
  }

  /** A profileId past the integer column's range passes the schema but fails the INSERT: 500, nothing written. */
  lemma PostProfileIdOutOfRange(t: MappingTable, j: Json, now: Timestamp, fails: bool)
    requires MappingSchema(j).Valid? && !Panels.FitsInteger(MappingSchema(j).value.profileId)
    ensures PostSpec(t, Some(j), now, fails) == (Error(InternalError, CreateFailedMessage), t)
  {
  }

  /**
   * A successful POST appends exactly one row, built from the body's members, with an
   * empty or absent description stored as null, and answers with that row.
   */
  lemma PostAppendsOne(t: MappingTable, body: Option<Json>, now: Timestamp, fails: bool)
    requires PostSpec(t, body, now, fails).0.Ok?
    ensures var (resp, t') := PostSpec(t, body, now, fails);
      var m := resp.body;
      && t'.rows == t.rows + [m]
      && Property(body.value, "profileId") == Some(JNumber(m.profileId))
      && 1 <= m.profileId <= Panels.IntegerMax
      && Property(body.value, "recordType") == Some(JString(m.recordType)) && m.recordType != ""
      && Property(body.value, "fieldPath") == Some(JString(m.fieldPath)) && m.fieldPath != ""
      && (m.description.None? <==>
           Property(body.value, "description").None? || Property(body.value, "description") == Some(JString("")))
      && (m.description.Some? ==> Property(body.value, "description") == Some(JString(m.description.value)))
  {
  }

  /** Posting the same rule twice stores it twice: nothing makes (type, field) unique. */
  lemma PostAllowsDuplicates(t: MappingTable, j: Json, now: Timestamp, later: Timestamp)
    requires MappingSchema(j).Valid? && Panels.FitsInteger(MappingSchema(j).value.profileId)
    ensures var (r1, t1) := PostSpec(t, Some(j), now, false);
      var (r2, t2) := PostSpec(t1, Some(j), later, false);
      && r1.Ok? && r2.Ok?
      && r1.body.recordType == r2.body.recordType && r1.body.fieldPath == r2.body.fieldPath
      && r1.body.id != r2.body.id
      && t2.rows == t.rows + [r1.body, r2.body]
  {
  }

  lemma PostKeepsIdsIssued(t: MappingTable, body: Option<Json>, now: Timestamp, fails: bool)
    requires IdsIssued(t)
    ensures IdsIssued(PostSpec(t, body, now, fails).1)
  {
  }

  /** A row newer than every other row heads the listing of its profile. */
  lemma NewestHeadsListing(rows: seq<Mapping>, m: Mapping)
    requires forall i :: 0 <= i < |rows| ==> rows[i].createdAt < m.createdAt
    ensures var ms := SelectByProfile(rows + [m], m.profileId);
      |ms| >= 1 && ms[0] == m
  {
    var ms := SelectByProfile(rows + [m], m.profileId);
    SelectedMembers(rows + [m], m.profileId);
    assert m in ms;
    forall x | x in ms ensures x == m || x.createdAt < m.createdAt {
      assert x in rows + [m];
    }
    NewestHeads(ms, m);
  }

  /** In a listing ordered newest first, a member newer than all the others comes first. */
  lemma NewestHeads(ms: seq<Mapping>, m: Mapping)
    requires m in ms
    requires forall i, j :: 0 <= i < j < |ms| ==> ms[i].createdAt >= ms[j].createdAt
    requires forall x :: x in ms ==> x == m || x.createdAt < m.createdAt
    ensures |ms| >= 1 && ms[0] == m
  {
    var k :| 0 <= k < |ms| && ms[k] == m;
    assert ms[0] in ms;
    assert k == 0 || ms[0].createdAt >= ms[k].createdAt;
  }

  /** A rule posted later than every stored one heads the next listing of its profile. */
  lemma PostedRuleListedFirst(t: MappingTable, j: Json, now: Timestamp)
    requires MappingSchema(j).Valid? && Panels.FitsInteger(MappingSchema(j).value.profileId)
    requires forall i :: 0 <= i < |t.rows| ==> t.rows[i].createdAt < now
    ensures var (r, t') := PostSpec(t, Some(j), now, false);
      var ms := SelectByProfile(t'.rows, r.body.profileId);
      |ms| >= 1 && ms[0] == r.body
  {
    var m := NewMapping(t, MappingSchema(j).value, now);
    assert PostSpec(t, Some(j), now, false) == (Ok(m), MappingTable(t.rows + [m], t.nextId + 1));
    NewestHeadsListing(t.rows, m);
  }

  /** The `nfc_mappings` table. */
  class MappingStore {
    var rows: seq<Mapping>
    var nextId: nat

    function Contents(): MappingTable
      reads this
    {
      MappingTable(rows, nextId)
    }

    ghost predicate Valid()
      reads this
    {
      IdsIssued(Contents())
    }

    constructor ()
      ensures Valid() && rows == [] && nextId == 1
    {
      rows := [];
      nextId := 1;
    }

    /** INSERT INTO nfc_mappings ... RETURNING *. */
    method Insert(input: MappingInput, now: Timestamp) returns (m: Mapping)
      requires Valid()
      modifies this
      ensures Valid()
      ensures m == NewMapping(old(Contents()), input, now)
      ensures rows == old(rows) + [m] && nextId == old(nextId) + 1
    {
      m := NewMapping(Contents(), input, now);
      rows := rows + [m];
      nextId := nextId + 1;
    }
  }

  /** The POST handler against the store. */
  method Post(store: MappingStore, body: Option<Json>, now: Timestamp, fails: bool)
    returns (resp: Response<Mapping>)
    requires store.Valid()
    modifies store
    ensures store.Valid()
    ensures (resp, store.Contents()) == PostSpec(old(store.Contents()), body, now, fails)
  {
    if body.None? {
      return Error(InternalError, CreateFailedMessage);
    }
    var checked := MappingSchema(body.value);
    if checked.Invalid? || fails || !Panels.FitsInteger(checked.value.profileId) {
      return Error(InternalError, CreateFailedMessage);
    }
    var m := store.Insert(checked.value, now);
    return Ok(m);
  }
}
