/**
 * POST /api/panels/scan: record that a panel has been installed at a location.
 * The checks run in order: body and schema, panel lookup (404), already scanned (409),
 * location occupied when a column is given (409); then the one row is updated.
 * Any thrown error, including a schema failure, answers 500.
 */
module ScanRoute {
  import opened Wrappers
  import opened Json
  import opened Http
  import opened Panels
  import opened PanelStore
  import opened Validations
  import opened Text

  /** Which store round trip fails, if any (connectivity and other database errors). */
  datatype StoreFault = NoFault | LookupFails | ConflictCheckFails | UpdateFails

  const FailedMessage := "Failed to record scan"
  const NotFoundMessage := "Panel not found in database"
  const AlreadyScannedMessage := "Panel already scanned"
  const OccupiedMessage := "Location already occupied by another panel"

  /** `validatedData.column` is truthy. */
  predicate ColumnGiven(column: Option<int>) {
    column.Some? && column.value != 0
  }

  /**
   * The row and, when given, the column fit the integer columns they are compared with and
   * stored in; otherwise the conflict query or the UPDATE fails with 22003.
   */
  predicate PositionFits(input: ScanInput) {
    FitsInteger(input.row) && (ColumnGiven(input.column) ==> FitsInteger(input.column.value))
  }

  /** `validatedData.column || null`. */
  function ColumnOrNull(column: Option<int>): Option<int> {
    if ColumnGiven(column) then column else None
  }

  /** The answer and the new table for one scan request; `body` is None when it is not JSON. */
  function ScanSpec(t: Table, body: Option<Json>, now: Timestamp, fault: StoreFault): (Response<Panel>, Table) {
    if body.None? then (Error(InternalError, FailedMessage), t)
    else match ScanSchema(body.value)
      case Invalid(_) => (Error(InternalError, FailedMessage), t)
      case Valid(input) => ScanValidated(t, input, now, fault)
  }

  function ScanValidated(t: Table, input: ScanInput, now: Timestamp, fault: StoreFault): (Response<Panel>, Table) {
    var key := CastToInteger(JString(input.profileId));
    if key.None? || fault == LookupFails then (Error(InternalError, FailedMessage), t)
    else match FindSerial(t.panels, key.value, input.serialCode)
      case None => (Error(NotFound, NotFoundMessage), t)
      case Some(i) =>
        if IsScanned(t.panels[i]) then (Error(Conflict, AlreadyScannedMessage), t)
        else if ColumnGiven(input.column) && (fault == ConflictCheckFails || !PositionFits(input)) then
          (Error(InternalError, FailedMessage), t)
        else if ColumnGiven(input.column)
          && LocationTaken(t.panels, key.value, Location(input.section, input.row, input.column.value))
        then (Error(Conflict, OccupiedMessage), t)
        else if fault == UpdateFails || !PositionFits(input) then (Error(InternalError, FailedMessage), t)
        else
          var placed := Place(t.panels[i], input.section, input.row, ColumnOrNull(input.column), now);
          (Ok(placed), Table(t.panels[i := placed], t.nextId))
  }

  method Scan(store: Store, body: Option<Json>, now: Timestamp, fault: StoreFault) returns (resp: Response<Panel>)
    requires store.Valid()
    modifies store
    ensures store.Valid()
    ensures (resp, store.Contents()) == ScanSpec(old(store.Contents()), body, now, fault)
  {
    if body.None? {
      return Error(InternalError, FailedMessage);
    }
    var checked := ScanSchema(body.value);
    if checked.Invalid? {
      return Error(InternalError, FailedMessage);
    }
    var input := checked.value;
    var key := CastToInteger(JString(input.profileId));
    if key.None? || fault == LookupFails {
      return Error(InternalError, FailedMessage);
    }
    var found := store.SelectBySerial(key.value, input.serialCode);
    if found.None? {
      return Error(NotFound, NotFoundMessage);
    }
    var existing := store.panels[found.value];
    if IsScanned(existing) {
      return Error(Conflict, AlreadyScannedMessage);
    }
    if ColumnGiven(input.column) {
      if fault == ConflictCheckFails || !PositionFits(input) {
        return Error(InternalError, FailedMessage);
      }
      var taken := store.SelectOccupant(key.value, Location(input.section, input.row, input.column.value));
      if taken {
        return Error(Conflict, OccupiedMessage);
      }
    }
    if fault == UpdateFails || !PositionFits(input) {
      return Error(InternalError, FailedMessage);
    }
    var updated := store.UpdatePlacement(found.value, input.section, input.row, ColumnOrNull(input.column), now);
    return Ok(updated);
  }

  /** Every refusal leaves the table as it was. */
  lemma ScanErrorChangesNothing(t: Table, body: Option<Json>, now: Timestamp, fault: StoreFault)
    requires ScanSpec(t, body, now, fault).0.Error?
    ensures ScanSpec(t, body, now, fault).1 == t
  {
    if body.Some? && ScanSchema(body.value).Valid? {
      ValidatedErrorChangesNothing(t, ScanSchema(body.value).value, now, fault);
    }
  }

  lemma ValidatedErrorChangesNothing(t: Table, input: ScanInput, now: Timestamp, fault: StoreFault)
    requires ScanValidated(t, input, now, fault).0.Error?
    ensures ScanValidated(t, input, now, fault).1 == t
  {
  }

  /** A request the schema refuses (or that is not JSON) answers 500 "Failed to record scan". */
  lemma ScanInvalidBody(t: Table, body: Option<Json>, now: Timestamp, fault: StoreFault)
    requires body.None? || ScanSchema(body.value).Invalid?
    ensures ScanSpec(t, body, now, fault) == (Error(InternalError, FailedMessage), t)
  {
  }

  /** The Scanner component sends profileId as a number, which scanSchema refuses: 500. */
  lemma ScanNumericProfileIdFails(t: Table, fields: map<string, Json>, n: int, now: Timestamp, fault: StoreFault)
    requires "profileId" in fields && fields["profileId"] == JNumber(n)
    ensures ScanSpec(t, Some(JObject(fields)), now, fault) == (Error(InternalError, FailedMessage), t)
  {
  }

  /** An unknown (profile, serial) answers 404 and changes nothing. */
  lemma ScanUnknownSerial(t: Table, body: Json, input: ScanInput, pid: int, now: Timestamp, fault: StoreFault)
    requires ScanSchema(body) == Valid(input)
    requires CastToInteger(JString(input.profileId)) == Some(pid) && fault != LookupFails
    requires forall j :: 0 <= j < |t.panels| ==> !SameSerial(t.panels[j], pid, input.serialCode)
    ensures ScanSpec(t, Some(body), now, fault) == (Error(NotFound, NotFoundMessage), t)
  {
  }

  /**
   * A panel already scanned answers 409 "Panel already scanned" whatever the location,
   * before any occupancy check, and is not overwritten.
   */
  lemma ScanAlreadyScanned(t: Table, body: Json, input: ScanInput, pid: int, j: nat, now: Timestamp, fault: StoreFault)
    requires Consistent(t)
    requires ScanSchema(body) == Valid(input)
    requires CastToInteger(JString(input.profileId)) == Some(pid) && fault != LookupFails
    requires j < |t.panels| && SameSerial(t.panels[j], pid, input.serialCode) && IsScanned(t.panels[j])
    ensures ScanSpec(t, Some(body), now, fault) == (Error(Conflict, AlreadyScannedMessage), t)
  {
    FindSerialUnique(t.panels, pid, input.serialCode);
  }

  /** With a column, a location held by another scanned panel of the profile answers 409. */
  lemma ScanLocationOccupied(t: Table, body: Json, input: ScanInput, pid: int, j: nat, k: nat, now: Timestamp, fault: StoreFault)
    requires Consistent(t)
    requires ScanSchema(body) == Valid(input) && input.column.Some?
    requires FitsInteger(input.row) && FitsInteger(input.column.value)
    requires CastToInteger(JString(input.profileId)) == Some(pid) && fault == NoFault
    requires j < |t.panels| && SameSerial(t.panels[j], pid, input.serialCode) && !IsScanned(t.panels[j])
    requires k < |t.panels| && Occupies(t.panels[k], pid, Location(input.section, input.row, input.column.value))
    ensures ScanSpec(t, Some(body), now, fault) == (Error(Conflict, OccupiedMessage), t)
  {
    assert ScanSpec(t, Some(body), now, fault) == ScanValidated(t, input, now, fault);
    var loc := Location(input.section, input.row, input.column.value);
    assert FindSerial(t.panels, pid, input.serialCode) == Some(j) by {
      assert FindSerial(t.panels, pid, input.serialCode).Some?;
      FindSerialUnique(t.panels, pid, input.serialCode);
    }
    assert ColumnGiven(input.column) && PositionFits(input) by {
      assert input.column.value >= 1;
    }
    assert LocationTaken(t.panels, pid, loc) by {
      assert Occupies(t.panels[k], pid, loc);
    }
  }

  /** Without a column the occupancy check is skipped and the column is stored as null. */
  lemma ScanWithoutColumn(t: Table, body: Json, input: ScanInput, pid: int, j: nat, now: Timestamp)
    requires Consistent(t)
    requires ScanSchema(body) == Valid(input) && input.column.None? && FitsInteger(input.row)
    requires CastToInteger(JString(input.profileId)) == Some(pid)
    requires j < |t.panels| && SameSerial(t.panels[j], pid, input.serialCode) && !IsScanned(t.panels[j])
    ensures ScanSpec(t, Some(body), now, NoFault).0.Ok?
    ensures ScanSpec(t, Some(body), now, NoFault).0.body.columnNumber.None?
  {
    FindSerialUnique(t.panels, pid, input.serialCode);
  }

  /** A profileId numeral past the integer column's range makes the lookup fail: 500, nothing written. */
  lemma ScanProfileIdOutOfRange(t: Table, body: Json, input: ScanInput, n: int, now: Timestamp, fault: StoreFault)
    requires ScanSchema(body) == Valid(input) && input.profileId == IntToString(n) && !FitsInteger(n)
    ensures ScanSpec(t, Some(body), now, fault) == (Error(InternalError, FailedMessage), t)
  {
    IntegerTextRoundTrip(n);
  }

  /**
   * A row or column past the integer column's range fails the conflict query or the
   * UPDATE of a panel the lookup found unscanned: 500, nothing written, whatever else fails.
   */
  lemma ScanPositionOutOfRange(t: Table, body: Json, input: ScanInput, pid: int, j: nat, now: Timestamp, fault: StoreFault)
    requires Consistent(t)
    requires ScanSchema(body) == Valid(input) && !PositionFits(input)
    requires CastToInteger(JString(input.profileId)) == Some(pid)
    requires j < |t.panels| && SameSerial(t.panels[j], pid, input.serialCode) && !IsScanned(t.panels[j])
    ensures ScanSpec(t, Some(body), now, fault) == (Error(InternalError, FailedMessage), t)
  {
    FindSerialUnique(t.panels, pid, input.serialCode);
  }

  /**
   * A successful scan changes exactly the matching unscanned panel: it gets the section,
   * row, column and the scan time; its id, profile, pallet, serial and creation time are
   * kept, and every other row and the id sequence are untouched.
   */
  lemma ScanSuccessChangesOnlyTarget(t: Table, body: Json, now: Timestamp, fault: StoreFault)
    requires ScanSpec(t, Some(body), now, fault).0.Ok?
    ensures var (resp, t') := ScanSpec(t, Some(body), now, fault);
      var input := ScanSchema(body).value;
      exists i :: 0 <= i < |t.panels| && !IsScanned(t.panels[i])
        && t.panels[i].serialCode == input.serialCode
        && CastToInteger(JString(input.profileId)) == Some(t.panels[i].profileId)
        && t' == Table(t.panels[i := resp.body], t.nextId)
        && resp.body == t.panels[i].(section := Some(input.section), rowNumber := Some(input.row),
                                     columnNumber := input.column, scannedAt := Some(now), updatedAt := now)
  {
    var input := ScanSchema(body).value;
    var pid := CastToInteger(JString(input.profileId)).value;
    var i := FindSerial(t.panels, pid, input.serialCode).value;
    assert ColumnOrNull(input.column) == input.column;
  }

  /** Sequential scans keep the store consistent: in particular no two scanned panels of a profile share a location. */
  lemma ScanPreservesConsistency(t: Table, body: Option<Json>, now: Timestamp, fault: StoreFault)
    requires Consistent(t)
    ensures Consistent(ScanSpec(t, body, now, fault).1)
  {
    if body.Some? && ScanSchema(body.value).Valid? {
      ValidatedPreservesConsistency(t, ScanSchema(body.value).value, now, fault);
    }
  }

  lemma ValidatedPreservesConsistency(t: Table, input: ScanInput, now: Timestamp, fault: StoreFault)
    requires Consistent(t)
    ensures Consistent(ScanValidated(t, input, now, fault).1)
  {
    var (resp, t') := ScanValidated(t, input, now, fault);
    if resp.Ok? {
      var pid := CastToInteger(JString(input.profileId)).value;
      var i := FindSerial(t.panels, pid, input.serialCode).value;
      assert t.panels[i].profileId == pid;
      PlaceConsistent(t, i, input.section, input.row, ColumnOrNull(input.column), now);
    } else {
      ValidatedErrorChangesNothing(t, input, now, fault);
    }
  }

  /** Scanning the same request again after a success answers 409 "Panel already scanned". */
  lemma ScanTwiceRefused(t: Table, body: Json, now: Timestamp, later: Timestamp, fault: StoreFault, fault2: StoreFault)
    requires Consistent(t)
    requires ScanSpec(t, Some(body), now, fault).0.Ok?
    requires fault2 != LookupFails
    ensures var t' := ScanSpec(t, Some(body), now, fault).1;
      ScanSpec(t', Some(body), later, fault2) == (Error(Conflict, AlreadyScannedMessage), t')
  {
    var input := ScanSchema(body).value;
    var t' := ScanSpec(t, Some(body), now, fault).1;
    assert ScanSpec(t, Some(body), now, fault) == ScanValidated(t, input, now, fault);
    assert ScanSpec(t', Some(body), later, fault2) == ScanValidated(t', input, later, fault2);
    ValidatedTwiceRefused(t, input, now, later, fault, fault2);
  }

  lemma ValidatedTwiceRefused(t: Table, input: ScanInput, now: Timestamp, later: Timestamp, fault: StoreFault, fault2: StoreFault)
    requires Consistent(t)
    requires ScanValidated(t, input, now, fault).0.Ok?
    requires fault2 != LookupFails
    ensures var t' := ScanValidated(t, input, now, fault).1;
      ScanValidated(t', input, later, fault2) == (Error(Conflict, AlreadyScannedMessage), t')
  {
    var pid := CastToInteger(JString(input.profileId)).value;
    var i := FindSerial(t.panels, pid, input.serialCode).value;
    var t' := ScanValidated(t, input, now, fault).1;
    ValidatedPreservesConsistency(t, input, now, fault);
    assert SameSerial(t'.panels[i], pid, input.serialCode) && IsScanned(t'.panels[i]);
    FindSerialUnique(t'.panels, pid, input.serialCode);
  }
}
