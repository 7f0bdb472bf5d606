/**
 * The NFC test tool: how a tag read becomes displayable records (text and url records
 * decoded to strings, every other record shown as a hex dump of its bytes), and which
 * value a configured field resolves to on the records read.
 */
module Nfc {
  import opened Wrappers
  import opened Json
  import opened Text

  type Byte = b: int | 0 <= b < 256

  /** An NDEF record as the reader delivers it. */
  datatype TagRecord = TagRecord(recordType: string, mediaType: Option<string>, data: seq<Byte>)

  /** A record after the `reading` handler: its data as display text. */
  datatype ReadRecord = ReadRecord(recordType: string, mediaType: Option<string>, data: string)

  /** The tool's `rawData`: the tag serial and the decoded records. */
  datatype NfcData = NfcData(serialNumber: string, records: seq<ReadRecord>)

  const UndecodableText := "Unable to decode"

  // ---------------------------------------------------------------------------
  // Hex dump of record bytes
  // ---------------------------------------------------------------------------

  /** A lower-case hexadecimal digit, as `Number.prototype.toString(16)` writes them. */
  predicate IsHexDigit(c: char) {
    '0' <= c <= '9' || 'a' <= c <= 'f'
  }

  function HexDigit(d: nat): (c: char)
    requires d < 16
    ensures IsHexDigit(c)
  {
    if d < 10 then ('0' as int + d) as char else ('a' as int + d - 10) as char
  }

  function HexValue(c: char): (d: nat)
    requires IsHexDigit(c)
    ensures d < 16 && HexDigit(d) == c
  {
    if '0' <= c <= '9' then (c as int - '0' as int) else (c as int - 'a' as int + 10)
  }

  lemma HexValueOfDigit(d: nat)
    requires d < 16
    ensures HexValue(HexDigit(d)) == d
  {
  }

  /** `b.toString(16).padStart(2, "0")`. */
  function HexByte(b: Byte): (h: string)
    ensures |h| == 2 && IsHexDigit(h[0]) && IsHexDigit(h[1])
    ensures HexValue(h[0]) * 16 + HexValue(h[1]) == b
  {
    HexValueOfDigit(b / 16);
    HexValueOfDigit(b % 16);
    [HexDigit(b / 16), HexDigit(b % 16)]
  }

  function HexBytes(bs: seq<Byte>): (hs: seq<string>)
    ensures |hs| == |bs|
  {
    if bs == [] then [] else [HexByte(bs[0])] + HexBytes(bs[1..])
  }

  /** `Array.from(bytes).map(toHex).join(" ")`. */
  function HexDump(bs: seq<Byte>): string {
    Join(HexBytes(bs), ' ')
  }

  /** A hex dump read back: pairs of hex digits separated by single spaces. */
  function ParseHexDump(s: string): Option<seq<Byte>> {
    if s == [] then Some([]) else ParseHexItems(s)
  }

  function ParseHexItems(s: string): Option<seq<Byte>>
    decreases |s|
  {
    if |s| < 2 || !IsHexDigit(s[0]) || !IsHexDigit(s[1]) then None
    else
      var b: Byte := HexValue(s[0]) * 16 + HexValue(s[1]);
      if |s| == 2 then Some([b])
      else if |s| == 3 || s[2] != ' ' then None
      else match ParseHexItems(s[3..])
        case None => None
        case Some(rest) => Some([b] + rest)
  }

  /** Two characters per byte and one space between bytes: 3n - 1 characters, "" for none. */
  lemma {:induction false} HexDumpLength(bs: seq<Byte>)
    ensures |HexDump(bs)| == if bs == [] then 0 else 3 * |bs| - 1
  {
    if |bs| > 1 {
      HexDumpLength(bs[1..]);
    }
  }

  /** Only lower-case hex digits and spaces appear. */
  lemma {:induction false} HexDumpAlphabet(bs: seq<Byte>)
    ensures forall i :: 0 <= i < |HexDump(bs)| ==> IsHexDigit(HexDump(bs)[i]) || HexDump(bs)[i] == ' '
  {
    if |bs| > 1 {
      HexDumpAlphabet(bs[1..]);
      var h := HexByte(bs[0]);
      assert HexDump(bs) == h + [' '] + HexDump(bs[1..]);
    }
  }

  /** The dump determines the bytes: reading it back gives them again. */
  lemma {:induction false} HexDumpRoundTrip(bs: seq<Byte>)
    ensures ParseHexDump(HexDump(bs)) == Some(bs)
  {
    if bs != [] {
      HexItemsRoundTrip(bs);
    }
  }

  lemma {:induction false} HexItemsRoundTrip(bs: seq<Byte>)
    requires bs != []
    ensures ParseHexItems(HexDump(bs)) == Some(bs)
  {
    var h := HexByte(bs[0]);
    if |bs| == 1 {
      assert HexBytes(bs) == [h];
      assert HexDump(bs) == h;
      assert ParseHexItems(h) == Some([bs[0]]);
      assert bs == [bs[0]];
    } else {
      var s := HexDump(bs);
      assert s == h + [' '] + HexDump(bs[1..]);
      HexDumpLength(bs[1..]);
      assert s[3..] == HexDump(bs[1..]);
      HexItemsRoundTrip(bs[1..]);
      assert [bs[0]] + bs[1..] == bs;
    }
  }

  /** Conversely, every text that reads back as bytes is the dump of those bytes. */
  lemma {:induction false} ParseHexDumpSound(s: string)
    requires ParseHexDump(s).Some?
    ensures HexDump(ParseHexDump(s).value) == s
  {
    if s != [] {
      ParseHexItemsSound(s);
    }
  }

  lemma {:induction false} ParseHexItemsSound(s: string)
    requires ParseHexItems(s).Some?
    ensures HexDump(ParseHexItems(s).value) == s
    decreases |s|
  {
    var bs := ParseHexItems(s).value;
    var b: Byte := HexValue(s[0]) * 16 + HexValue(s[1]);
    HexDigitsOfValue(s[0], s[1]);
    if |s| == 2 {
      assert bs == [b];
      assert HexDump(bs) == HexByte(b);
    } else {
      ParseHexItemsSound(s[3..]);
      var rest := ParseHexItems(s[3..]).value;
      assert bs == [b] + rest && bs[1..] == rest;
      assert HexDump(bs) == HexByte(b) + [' '] + HexDump(rest);
      assert s == s[..2] + [' '] + s[3..];
    }
  }

  lemma HexDigitsOfValue(c0: char, c1: char)
    requires IsHexDigit(c0) && IsHexDigit(c1)
    ensures HexByte(HexValue(c0) * 16 + HexValue(c1)) == [c0, c1]
  {
    var b := HexValue(c0) * 16 + HexValue(c1);
    assert b / 16 == HexValue(c0) && b % 16 == HexValue(c1);
  }

  // ---------------------------------------------------------------------------
  // The `reading` handler
  // ---------------------------------------------------------------------------

  /**
   * One record as displayed: text and url records through the decoder (None when
   * it throws), every other record type as a hex dump.
   */
  function DecodeRecord(r: TagRecord, decode: seq<Byte> -> Option<string>): (d: ReadRecord)
    ensures d.recordType == r.recordType && d.mediaType == r.mediaType
    ensures (r.recordType == "text" || r.recordType == "url") ==>
      d.data == (if decode(r.data).Some? then decode(r.data).value else UndecodableText)
    ensures !(r.recordType == "text" || r.recordType == "url") ==> ParseHexDump(d.data) == Some(r.data)
  {
    var data :=
      if r.recordType == "text" || r.recordType == "url" then
        match decode(r.data)
        case Some(text) => text
        case None => UndecodableText
      else HexDump(r.data);
    HexDumpRoundTrip(r.data);
    ReadRecord(r.recordType, r.mediaType, data)
  }

  function DecodeRecords(rs: seq<TagRecord>, decode: seq<Byte> -> Option<string>): (ds: seq<ReadRecord>)
    ensures |ds| == |rs|
    ensures forall i :: 0 <= i < |rs| ==> ds[i] == DecodeRecord(rs[i], decode)
  {
    if rs == [] then [] else [DecodeRecord(rs[0], decode)] + DecodeRecords(rs[1..], decode)
  }

  // ---------------------------------------------------------------------------
  // getMappedValue
  // ---------------------------------------------------------------------------

  /** `mappedField === "custom" ? customField : mappedField`. */
  function FieldToUse(mappedField: string, customField: string): string {
    if mappedField == "custom" then customField else mappedField
  }

  /** The value resolved for the configured field, "" when there is none. */
  function MappedValue(data: Option<NfcData>, mappedField: string, customField: string,
                       parse: string -> Option<Json>): Json
  {
    if data.None? then JString("")
    else
      var field := FieldToUse(mappedField, customField);
      if field == "serialNumber" then JString(data.value.serialNumber)
      else SearchRecords(data.value.records, field, parse)
  }

  /**
   * The record loop. A text record is parsed as JSON (None: JSON.parse throws); a truthy
   * member at the field is returned, a falsy or missing one moves on, and a parse failure
   * returns the raw text only for the field "text". A url record returns its text.
   * Reading a member of `null` throws too, and is handled like a parse failure.
   */
  function SearchRecords(rs: seq<ReadRecord>, field: string, parse: string -> Option<Json>): Json
    decreases |rs|
  {
    if rs == [] then JString("")
    else if rs[0].recordType == "text" then
      var parsed := parse(rs[0].data);
      if parsed.None? || parsed.value.JNull? then
        if field == "text" then JString(rs[0].data) else SearchRecords(rs[1..], field, parse)
      else if TruthyOpt(Property(parsed.value, field)) then Property(parsed.value, field).value
      else SearchRecords(rs[1..], field, parse)
    else if rs[0].recordType == "url" then JString(rs[0].data)
    else SearchRecords(rs[1..], field, parse)
  }

  /** What one record contributes, as a reference definition: a value, or None to go on. */
  function Yields(r: ReadRecord, field: string, parse: string -> Option<Json>): (v: Option<Json>)
    ensures r.recordType == "url" ==> v == Some(JString(r.data))
    ensures r.recordType != "text" && r.recordType != "url" ==> v.None?
    ensures r.recordType == "text" && parse(r.data).Some? && parse(r.data).value.JObject? ==>
      (v.Some? <==> TruthyOpt(Property(parse(r.data).value, field)))
  {
    if r.recordType == "text" then
      var parsed := parse(r.data);
      if parsed.None? || parsed.value.JNull? then
        if field == "text" then Some(JString(r.data)) else None
      else if TruthyOpt(Property(parsed.value, field)) then Property(parsed.value, field)
      else None
    else if r.recordType == "url" then Some(JString(r.data))
    else None
  }

  /** Record i is the first that yields a value. */
  predicate FirstYield(rs: seq<ReadRecord>, field: string, parse: string -> Option<Json>, i: int) {
    0 <= i < |rs| && Yields(rs[i], field, parse).Some?
    && forall j :: 0 <= j < i ==> Yields(rs[j], field, parse).None?
  }

  /** The records are examined in order: the value is the first record's that yields one, else "". */
  lemma {:induction false} SearchFindsFirstYield(rs: seq<ReadRecord>, field: string, parse: string -> Option<Json>)
    ensures forall i :: FirstYield(rs, field, parse, i) ==> SearchRecords(rs, field, parse) == Yields(rs[i], field, parse).value
    ensures (forall i :: 0 <= i < |rs| ==> Yields(rs[i], field, parse).None?)
      ==> SearchRecords(rs, field, parse) == JString("")
  {
    if rs != [] {
      SearchFindsFirstYield(rs[1..], field, parse);
      forall i | 1 <= i < |rs| && FirstYield(rs, field, parse, i)
        ensures SearchRecords(rs, field, parse) == Yields(rs[i], field, parse).value
      {
        assert rs[1..][i - 1] == rs[i];
        assert forall j :: 0 <= j < i - 1 ==> rs[1..][j] == rs[j + 1];
        assert FirstYield(rs[1..], field, parse, i - 1);
      }
      assert (forall i :: 0 <= i < |rs| ==> Yields(rs[i], field, parse).None?)
        ==> (forall i :: 0 <= i < |rs[1..]| ==> Yields(rs[1..][i], field, parse).None?);
    }
  }

  /** Without scan data the value is "". */
  lemma MappedWithoutData(mappedField: string, customField: string, parse: string -> Option<Json>)
    ensures MappedValue(None, mappedField, customField, parse) == JString("")
  {
  }

  /**
   * The field "serialNumber", chosen directly or through the custom field, gives the
   * tag serial whatever the records hold.
   */
  lemma MappedSerialNumber(data: NfcData, mappedField: string, customField: string, parse: string -> Option<Json>)
    requires mappedField == "serialNumber" || (mappedField == "custom" && customField == "serialNumber")
    ensures MappedValue(Some(data), mappedField, customField, parse) == JString(data.serialNumber)
  {
  }

  /** "custom" stands for the custom field's name. */
  lemma MappedCustomField(data: NfcData, customField: string, parse: string -> Option<Json>)
    requires customField != "custom"
    ensures MappedValue(Some(data), "custom", customField, parse)
         == MappedValue(Some(data), customField, "", parse)
  {
  }

  /** A url record ahead of every text record answers with its text, whatever the field. */
  lemma MappedLeadingUrl(data: NfcData, field: string, customField: string, parse: string -> Option<Json>, k: nat)
    requires field != "custom" && field != "serialNumber"
    requires k < |data.records| && data.records[k].recordType == "url"
    requires forall j :: 0 <= j < k ==> data.records[j].recordType != "text" && data.records[j].recordType != "url"
    ensures MappedValue(Some(data), field, customField, parse) == JString(data.records[k].data)
  {
    SearchFindsFirstYield(data.records, field, parse);
  }

  // ---------------------------------------------------------------------------
  // The component state
  // ---------------------------------------------------------------------------

  class NfcTestTool {
    var isScanning: bool
    var nfcSupported: bool
    var rawData: Option<NfcData>
    var mappedField: string
    var customField: string

    constructor ()
      ensures !isScanning && !nfcSupported && rawData.None? && mappedField == "" && customField == ""
    {
      isScanning := false;
      nfcSupported := false;
      rawData := None;
      mappedField := "";
      customField := "";
    }

    /**
     * startNFCScan: `supported` is whether the browser has NDEFReader, `started` whether
     * `scan()` resolved. An unsupported browser only records that; otherwise old data is cleared.
     */
    method StartScan(supported: bool, started: bool)
      modifies this
      ensures nfcSupported == supported
      ensures !supported ==> isScanning == old(isScanning) && rawData == old(rawData)
      ensures supported ==> isScanning == started && rawData.None?
      ensures mappedField == old(mappedField) && customField == old(customField)
    {
      nfcSupported := supported;
      if !supported {
        return;
      }
      isScanning := true;
      rawData := None;
      if !started {
        isScanning := false;
      }
    }

    /** The `reading` event: the decoded tag becomes the current data and scanning stops. */
    method OnReading(serialNumber: string, records: seq<TagRecord>, decode: seq<Byte> -> Option<string>)
      modifies this
      ensures rawData == Some(NfcData(serialNumber, DecodeRecords(records, decode)))
      ensures !isScanning
      ensures nfcSupported == old(nfcSupported) && mappedField == old(mappedField) && customField == old(customField)
    {
      rawData := Some(NfcData(serialNumber, DecodeRecords(records, decode)));
      isScanning := false;
    }

    /** The `readingerror` event and stopNFCScan: scanning stops, the data is kept. */
    method StopScan()
      modifies this
      ensures !isScanning
      ensures rawData == old(rawData) && nfcSupported == old(nfcSupported)
      ensures mappedField == old(mappedField) && customField == old(customField)
    {
      isScanning := false;
    }

    function CurrentMappedValue(parse: string -> Option<Json>): Json
      reads this
    {
      MappedValue(rawData, mappedField, customField, parse)
    }
  }
}
