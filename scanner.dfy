/**
 * The Scanner component: a cursor over installation positions (section, row, column)
 * plus the serial being entered. Submitting posts the trimmed serial and section with the
 * current position; a success moves one column on and clears the serial.
 */
module ScannerComponent {
  import opened Wrappers
  import opened Json
  import opened Text
  import opened Seqs
  import opened Nfc
  import opened Validations
  import opened Http
  import opened Panels
  import opened ScanRoute

  /** The component's state variables. */
  datatype ScannerState = ScannerState(
    serialCode: string, section: string, row: int, column: int,
    lastScanResult: Option<string>, isScanning: bool, nfcSupported: bool)

  /** The state on mount: row 1, column 1, nothing entered. */
  const Initial := ScannerState("", "", 1, 1, None, false, false)

  /** The submit button's guard: trimmed serial and section are both non-empty. */
  predicate CanSubmit(s: ScannerState) {
    Trim(s.serialCode) != "" && Trim(s.section) != ""
  }

  /** The JSON body posted to the scan route; profileId is the numeric prop. */
  function ScanRequestBody(profileId: int, s: ScannerState): Json {
    BodyOf(profileId, Trim(s.serialCode), Trim(s.section), s.row, s.column)
  }

  function BodyOf(profileId: int, serial: string, section: string, row: int, column: int): (j: Json)
    ensures Property(j, "profileId") == Some(JNumber(profileId))
    ensures Property(j, "serial_code") == Some(JString(serial))
    ensures Property(j, "section") == Some(JString(section))
    ensures Property(j, "row") == Some(JNumber(row))
    ensures Property(j, "column") == Some(JNumber(column))
  {
    JObject(map[
      "profileId" := JNumber(profileId),
      "serial_code" := JString(serial),
      "section" := JString(section),
      "row" := JNumber(row),
      "column" := JNumber(column)])
  }

  /** `Success: ${serialCode} at ${section}-${row}-${column}`, with the untrimmed values. */
  function SuccessText(s: ScannerState): string {
    "Success: " + s.serialCode + " at " + s.section + "-" + IntToString(s.row) + "-" + IntToString(s.column)
  }

  /** handleSubmit; `succeeded` is whether the response was ok (a thrown fetch counts as not). */
  function AfterSubmit(s: ScannerState, succeeded: bool): ScannerState {
    if !CanSubmit(s) || !succeeded then s
    else s.(column := s.column + 1, serialCode := "", lastScanResult := Some(SuccessText(s)))
  }

  /** handleNext. */
  function AfterNext(s: ScannerState): ScannerState {
    s.(column := s.column + 1, serialCode := "")
  }

  /** handlePrevious: the column only goes down from above 1. */
  function AfterPrevious(s: ScannerState): ScannerState {
    s.(column := if s.column > 1 then s.column - 1 else s.column, serialCode := "")
  }

  /** `Number.parseInt(text) || 1` for the row and column inputs. */
  function TypedNumber(text: string): (n: int)
    ensures n != 0
    ensures ParseInt(text).Some? && ParseInt(text).value != 0 ==> n == ParseInt(text).value
    ensures ParseInt(text).None? || ParseInt(text) == Some(0) ==> n == 1
  {
    match ParseInt(text)
    case Some(v) => if v != 0 then v else 1
    case None => 1
  }

  predicate IsTextRecord(r: TagRecord) {
    r.recordType == "text"
  }

  /** `message.records.find(record => record.recordType === "text")`. */
  function FirstTextRecord(records: seq<TagRecord>): (r: Option<TagRecord>)
    ensures r.None? <==> forall i :: 0 <= i < |records| ==> !IsTextRecord(records[i])
    ensures r.Some? ==> exists i :: (0 <= i < |records| && records[i] == r.value && IsTextRecord(r.value)
      && forall j :: 0 <= j < i ==> !IsTextRecord(records[j]))
  {
    match FirstIndex(records, IsTextRecord)
    case None => None
    case Some(i) => Some(records[i])
  }

  /**
   * The `reading` listener: the first text record's decoded text becomes the serial.
   * With no text record, or when the decoder throws, nothing changes.
   */
  function AfterNfcRead(s: ScannerState, records: seq<TagRecord>, decode: seq<Byte> -> Option<string>): ScannerState {
    match FirstTextRecord(records)
    case None => s
    case Some(r) =>
      match decode(r.data)
      case None => s
      case Some(text) => s.(serialCode := text, lastScanResult := Some("NFC: " + text), isScanning := false)
  }

  class Scanner {
    const profileId: int
    var serialCode: string
    var section: string
    var row: int
    var column: int
    var lastScanResult: Option<string>
    var isScanning: bool
    var nfcSupported: bool

    function State(): ScannerState
      reads this
    {
      ScannerState(serialCode, section, row, column, lastScanResult, isScanning, nfcSupported)
    }

    constructor (profileId: int)
      ensures State() == Initial && this.profileId == profileId
    {
      this.profileId := profileId;
      serialCode := "";
      section := "";
      row := 1;
      column := 1;
      lastScanResult := None;
      isScanning := false;
      nfcSupported := false;
    }

    /** The mount effect: NFC is supported when the browser has NDEFReader. */
    method DetectNfc(present: bool)
      modifies this
      ensures State() == if present then old(State()).(nfcSupported := true) else old(State())
    {
      if present {
        nfcSupported := true;
      }
    }

    /**
     * handleSubmit: returns the body posted, None when the guard stops it; `succeeded`
     * is the outcome of the request.
     */
    method Submit(succeeded: bool) returns (request: Option<Json>)
      modifies this
      ensures request == if CanSubmit(old(State())) then Some(ScanRequestBody(profileId, old(State()))) else None
      ensures State() == AfterSubmit(old(State()), succeeded)
    {
      var before := State();
      if CanSubmit(before) && succeeded {
        RecordSuccess(SuccessText(before));
        SubmitSuccessUpdate(before, State());
      } else {
        SubmitFailureKeepsPosition(before, succeeded);
      }
      // The body is built from the fields as they were when the request went out.
      request := if CanSubmit(before) then Some(ScanRequestBody(profileId, before)) else None;
    }

    /** The state updates after a successful scan. */
    method RecordSuccess(text: string)
      modifies this
      ensures State() == old(State()).(column := old(column) + 1, serialCode := "", lastScanResult := Some(text))
    {
      column := column + 1;
      serialCode := "";
      lastScanResult := Some(text);
    }

    method Next()
      modifies this
      ensures State() == AfterNext(old(State()))
    {
      column := column + 1;
      serialCode := "";
    }

    method Previous()
      modifies this
      ensures State() == AfterPrevious(old(State()))
    {
      if column > 1 {
        column := column - 1;
      }
      serialCode := "";
    }

    method TypeRow(text: string)
      modifies this
      ensures State() == old(State()).(row := TypedNumber(text))
    {
      row := TypedNumber(text);
    }

    method TypeColumn(text: string)
      modifies this
      ensures State() == old(State()).(column := TypedNumber(text))
    {
      column := TypedNumber(text);
    }

    /** startNFCScan: nothing without support; `started` is whether `scan()` resolved. */
    method StartNfcScan(started: bool)
      modifies this
      ensures State() == if old(nfcSupported) then old(State()).(isScanning := started) else old(State())
    {
      if !nfcSupported {
        return;
      }
      isScanning := true;
      if !started {
        isScanning := false;
      }
    }

    method OnNfcReading(records: seq<TagRecord>, decode: seq<Byte> -> Option<string>)
      modifies this
      ensures State() == AfterNfcRead(old(State()), records, decode)
    {
      var textRecord := FirstTextRecord(records);
      if textRecord.None? {
        return;
      }
      var text := decode(textRecord.value.data);
      if text.None? {
        return;
      }
      serialCode := text.value;
      lastScanResult := Some("NFC: " + text.value);
      isScanning := false;
    }
  }

  // ---------------------------------------------------------------------------
  // Properties of the cursor
  // ---------------------------------------------------------------------------

  /** A submit the guard stops, or one that fails, leaves serial and position as they were. */
  lemma SubmitFailureKeepsPosition(s: ScannerState, succeeded: bool)
    requires !CanSubmit(s) || !succeeded
    ensures AfterSubmit(s, succeeded) == s
  {
  }

  /**
   * After a success the next submit targets the next column of the same section and row,
   * with the serial to be entered afresh.
   */
  lemma SubmitSuccessAdvances(s: ScannerState)
    requires CanSubmit(s)
    ensures var t := AfterSubmit(s, true);
      t.column == s.column + 1 && t.row == s.row && t.section == s.section && t.serialCode == ""
      && !CanSubmit(t) && t.lastScanResult == Some(SuccessText(s))
  {
  }

  /** The fields a successful submit changes. */
  lemma SubmitSuccessUpdate(s: ScannerState, t: ScannerState)
    requires CanSubmit(s)
    requires t == s.(column := s.column + 1, serialCode := "", lastScanResult := Some(SuccessText(s)))
    ensures t == AfterSubmit(s, true)
  {
  }

  /** The posted serial and section are trimmed, and the guard makes them non-empty. */
  lemma SubmitPostsTrimmed(profileId: int, s: ScannerState)
    requires CanSubmit(s)
    ensures var body := ScanRequestBody(profileId, s);
      RequiredString(body, "serial_code") == Some(Trim(s.serialCode))
      && RequiredString(body, "section") == Some(Trim(s.section))
  {
    JsLengthPositive(Trim(s.serialCode));
    JsLengthPositive(Trim(s.section));
  }

  lemma JsLengthPositive(t: string)
    requires t != ""
    ensures JsLength(t) >= 1
  {
  }

  /** The column buttons never take a column of at least 1 below 1. */
  lemma ButtonsKeepColumnPositive(s: ScannerState)
    requires s.column >= 1
    ensures AfterNext(s).column >= 1 && AfterPrevious(s).column >= 1
    ensures AfterPrevious(s).column == (if s.column == 1 then 1 else s.column - 1)
  {
  }

  /** From column 1 on, Previous undoes Next; Next undoes Previous above column 1. */
  lemma NextPreviousInverse(s: ScannerState)
    requires s.column >= 1
    ensures AfterPrevious(AfterNext(s)) == s.(serialCode := "")
    ensures s.column > 1 ==> AfterNext(AfterPrevious(s)) == s.(serialCode := "")
  {
  }

  /** n presses of Next move the column n places on. */
  function NextTimes(s: ScannerState, n: nat): ScannerState {
    if n == 0 then s else AfterNext(NextTimes(s, n - 1))
  }

  lemma {:induction false} NextTimesColumn(s: ScannerState, n: nat)
    ensures NextTimes(s, n).column == s.column + n
    ensures NextTimes(s, n).section == s.section && NextTimes(s, n).row == s.row
  {
    if n > 0 {
      NextTimesColumn(s, n - 1);
    }
  }

  /** A typed number is read back as itself; text without a leading number, or 0, gives 1. */
  lemma TypedNumberOfNumeral(k: int)
    requires k != 0
    ensures TypedNumber(IntToString(k)) == k
  {
    ParseIntRoundTrip(k);
  }

  /** The NFC serial is the text of the first text record; later ones are ignored. */
  lemma NfcReadsFirstTextRecord(s: ScannerState, records: seq<TagRecord>, decode: seq<Byte> -> Option<string>, i: nat)
    requires i < |records| && IsTextRecord(records[i])
    requires forall j :: 0 <= j < i ==> !IsTextRecord(records[j])
    requires decode(records[i].data).Some?
    ensures AfterNfcRead(s, records, decode).serialCode == decode(records[i].data).value
    ensures AfterNfcRead(s, records, decode).column == s.column && AfterNfcRead(s, records, decode).row == s.row
  {
    var r := FirstTextRecord(records).value;
    var k :| 0 <= k < |records| && records[k] == r && IsTextRecord(r)
      && forall j :: 0 <= j < k ==> !IsTextRecord(records[j]);
    assert k == i;
  }

  // ---------------------------------------------------------------------------
  // The Scanner against the scan route
  // ---------------------------------------------------------------------------

  /**
   * As written, the route's schema wants a string profileId and the Scanner sends a number:
   * every body the Scanner posts is answered 500 "Failed to record scan", and nothing is stored.
   */
  lemma ScannerBodyRejected(t: Table, profileId: int, s: ScannerState, now: Timestamp, fault: StoreFault)
    ensures ScanSpec(t, Some(ScanRequestBody(profileId, s)), now, fault) == (Error(InternalError, FailedMessage), t)
  {
    ScanNumericProfileIdFails(t, ScanRequestBody(profileId, s).fields, profileId, now, fault);
  }

  /**
   * With profileId coerced to a string, the Scanner's body passes validation whenever the
   * guard lets it through and the position is at least row 1, column 1, and carries exactly
   * the trimmed serial and section and the position.
   */
  lemma ScannerBodyAcceptedWhenCoerced(profileId: int, s: ScannerState)
    requires CanSubmit(s) && s.row >= 1 && s.column >= 1
    ensures ScanSchemaCoercing(ScanRequestBody(profileId, s))
         == Valid(ScanInput(IntToString(profileId), Trim(s.serialCode), Trim(s.section), s.row, Some(s.column)))
  {
    var body := ScanRequestBody(profileId, s);
    assert ScanSchemaCoercing(body) == ScanFields(body, IntToString(profileId));
    FieldsAccepted(body, IntToString(profileId), Trim(s.serialCode), Trim(s.section), s.row, s.column);
  }

  /** A body with a non-empty serial and section and a position from 1 on passes the field checks. */
  lemma FieldsAccepted(j: Json, profileId: string, serial: string, section: string, row: int, column: int)
    requires Property(j, "serial_code") == Some(JString(serial)) && serial != ""
    requires Property(j, "section") == Some(JString(section)) && section != ""
    requires Property(j, "row") == Some(JNumber(row)) && row >= 1
    requires Property(j, "column") == Some(JNumber(column)) && column >= 1
    ensures ScanFields(j, profileId) == Valid(ScanInput(profileId, serial, section, row, Some(column)))
  {
    JsLengthPositive(serial);
    JsLengthPositive(section);
  }
}
