/**
 * The panels table: the search box's filter, the location and status cells, the
 * message under an empty table and the body the edit dialog sends with PUT.
 */
module PanelsTable {
  import opened Wrappers
  import opened Json
  import opened Text
  import opened Seqs
  import opened Panels

  /**
   * The search predicate: the lower-cased term occurs in the lower-cased serial code,
   * pallet number or (when it is set and not empty) section.
   */
  predicate Matches(p: Panel, term: string) {
    var t := ToLower(term);
    Includes(ToLower(p.serialCode), t)
    || Includes(ToLower(p.palletNo), t)
    || (HasSection(p) && Includes(ToLower(p.section.value), t))
  }

  /** `panels.filter(...)` with the search predicate. */
  function FilteredPanels(panels: seq<Panel>, term: string): seq<Panel> {
    Filter(panels, p => Matches(p, term))
  }

  /** The shown rows are the matching panels, in their original order. */
  lemma FilteredAreMatches(panels: seq<Panel>, term: string)
    ensures IsSubsequence(FilteredPanels(panels, term), panels)
    ensures forall p :: p in FilteredPanels(panels, term) <==> p in panels && Matches(p, term)
  {
    FilterIsSubsequence(panels, p => Matches(p, term));
  }

  /** An empty search box shows every panel. */
  lemma EmptyTermKeepsAll(panels: seq<Panel>)
    ensures FilteredPanels(panels, "") == panels
  {
    forall i | 0 <= i < |panels|
      ensures Matches(panels[i], "")
    {
      IncludesEmpty(ToLower(panels[i].serialCode));
    }
    FilterAll(panels, p => Matches(p, ""));
  }

  lemma LowerIdempotent(s: string)
    ensures ToLower(ToLower(s)) == ToLower(s)
  {
  }

  /** A piece of a string stays a piece after both are lower-cased. */
  lemma IncludesLower(s: string, t: string)
    requires Includes(s, t)
    ensures Includes(ToLower(s), ToLower(t))
  {
    var i :| 0 <= i <= |s| - |t| && t <= s[i..];
    assert forall k :: 0 <= k < |t| ==> ToLower(t)[k] == ToLower(s)[i..][k];
    assert ToLower(t) <= ToLower(s)[i..];
  }

  /** The search ignores the case of the term. */
  lemma SearchIgnoresCase(p: Panel, term: string)
    ensures Matches(p, ToLower(term)) == Matches(p, term)
  {
    LowerIdempotent(term);
  }

  /** Any panel whose serial code contains the term verbatim is shown. */
  lemma SerialSubstringMatches(p: Panel, term: string)
    requires Includes(p.serialCode, term)
    ensures Matches(p, term)
  {
    IncludesLower(p.serialCode, term);
  }

  const NoMatchMessage := "No panels match your search."
  const NoPanelsMessage := "No panels found."

  /** The notice under the table when no row is shown: which one depends on the search box. */
  function EmptyNotice(panels: seq<Panel>, term: string): (r: Option<string>)
    ensures r.Some? <==> forall i :: 0 <= i < |panels| ==> !Matches(panels[i], term)
    ensures r.Some? ==> (r.value == NoMatchMessage <==> term != "")
    ensures r.Some? ==> (r.value == NoPanelsMessage <==> term == "")
  {
    var shown := FilteredPanels(panels, term);
    FilteredAreMatches(panels, term);
    assert shown == [] <==> forall i :: 0 <= i < |panels| ==> !Matches(panels[i], term) by {
      if shown != [] {
        assert shown[0] in panels && Matches(shown[0], term);
      }
    }
    if shown != [] then None
    else if term != "" then Some(NoMatchMessage)
    else Some(NoPanelsMessage)
  }

  /** With an empty search box, "No panels found." appears exactly when there are no panels. */
  lemma NoPanelsNoticeOnlyWhenEmpty(panels: seq<Panel>)
    ensures EmptyNotice(panels, "") == Some(NoPanelsMessage) <==> panels == []
    ensures EmptyNotice(panels, "") != Some(NoMatchMessage)
  {
    EmptyTermKeepsAll(panels);
    if panels != [] {
      assert Matches(panels[0], "");
    }
  }

  /** The location cell shows a location when section, row and column are all truthy. */
  predicate LocationShown(p: Panel) {
    HasSection(p)
    && p.rowNumber.Some? && p.rowNumber.value != 0
    && p.columnNumber.Some? && p.columnNumber.value != 0
  }

  /** The location cell: `section-row-column`, or "-". */
  function LocationText(p: Panel): string {
    if LocationShown(p) then
      p.section.value + "-" + IntToString(p.rowNumber.value) + "-" + IntToString(p.columnNumber.value)
    else "-"
  }

  lemma IntToStringNonEmpty(n: int)
    ensures |IntToString(n)| >= 1
  {
  }

  /** The cell reads "-" exactly when one of the three values is missing. */
  lemma LocationDashIffIncomplete(p: Panel)
    ensures LocationText(p) == "-" <==> !LocationShown(p)
  {
    if LocationShown(p) {
      IntToStringNonEmpty(p.rowNumber.value);
      IntToStringNonEmpty(p.columnNumber.value);
      assert |LocationText(p)| >= 5;
    }
  }

  /** The text before the first `c` and the text after it; no `c` means all of it and nothing. */
  function SplitFirst(s: string, c: char): (r: (string, string))
    ensures c !in r.0
  {
    if s == [] then ([], [])
    else if s[0] == c then ([], s[1..])
    else
      var rest := SplitFirst(s[1..], c);
      ([s[0]] + rest.0, rest.1)
  }

  lemma {:induction false} SplitFirstOf(a: string, c: char, b: string)
    requires c !in a
    ensures SplitFirst(a + [c] + b, c) == (a, b)
  {
    if a != [] {
      assert (a + [c] + b)[1..] == a[1..] + [c] + b;
      assert (a + [c] + b)[0] == a[0] != c;
      SplitFirstOf(a[1..], c, b);
      assert [a[0]] + a[1..] == a;
    }
  }

  /** Reading a location cell back: section up to the first dash, then row and column. */
  function ParseLocation(text: string): Option<Location> {
    var (section, rest) := SplitFirst(text, '-');
    var (row, column) := SplitFirst(rest, '-');
    match (ParseInt(row), ParseInt(column))
    case (Some(r), Some(c)) => Some(Location(section, r, c))
    case _ => None
  }

  /**
   * The cell determines the location when the section has no dash and the row is
   * positive (a negative row would put a second dash straight after the first).
   */
  lemma LocationTextRoundTrip(p: Panel)
    requires LocationShown(p) && '-' !in p.section.value && p.rowNumber.value > 0
    ensures ParseLocation(LocationText(p)) ==
      Some(Location(p.section.value, p.rowNumber.value, p.columnNumber.value))
  {
    var sec, r, c := p.section.value, p.rowNumber.value, p.columnNumber.value;
    var rowText, colText := IntToString(r), IntToString(c);
    assert rowText == NatToString(r);
    assert forall k :: 0 <= k < |rowText| ==> rowText[k] != '-';
    var rest := rowText + "-" + colText;
    assert LocationText(p) == sec + ['-'] + rest;
    SplitFirstOf(sec, '-', rest);
    assert rest == rowText + ['-'] + colText;
    SplitFirstOf(rowText, '-', colText);
    ParseIntRoundTrip(r);
    ParseIntRoundTrip(c);
  }

  /** The status badge. */
  function StatusLabel(p: Panel): (r: string)
    ensures r == "Installed" <==> IsScanned(p)
    ensures r == "Pending" <==> !IsScanned(p)
  {
    if IsScanned(p) then "Installed" else "Pending"
  }

  /** `formData.get("section") || null`: an empty field clears the section. */
  function SectionField(text: string): (j: Json)
    ensures j == JNull <==> text == ""
    ensures j != JNull ==> j == JString(text)
  {
    if text != "" then JString(text) else JNull
  }

  /**
   * A row or column field: an empty field is null, otherwise parseInt of the text; a
   * NaN from parseInt is written by JSON.stringify as null.
   */
  function NumberField(text: string): (j: Json)
    ensures j.JNull? || j.JNumber?
    ensures text == "" ==> j == JNull
    ensures j.JNumber? ==> ParseInt(text) == Some(j.n)
    ensures text != "" ==> j == (if ParseInt(text).Some? then JNumber(ParseInt(text).value) else JNull)
  {
    if text == "" then JNull
    else match ParseInt(text)
      case None => JNull
      case Some(n) => JNumber(n)
  }

  /** The JSON body of the edit dialog's PUT request. */
  function EditBody(section: string, row: string, column: string): (j: Json)
    ensures j.JObject? && j.fields.Keys == {"section", "row_number", "column_number"}
  {
    JObject(map[
      "section" := SectionField(section),
      "row_number" := NumberField(row),
      "column_number" := NumberField(column)])
  }

  /** A numeral typed into the row or column field is sent as that number. */
  lemma NumberFieldReadsNumeral(n: int)
    ensures NumberField(IntToString(n)) == JNumber(n)
  {
    IntToStringNonEmpty(n);
    ParseIntRoundTrip(n);
  }

  /** A text with no leading integer is sent as null, like an empty field. */
  lemma NumberFieldNaNIsNull()
    ensures NumberField("abc") == JNull
  {
    ParseIntNoDigits();
  }

  /** Emptying all three fields clears the panel's location. */
  lemma EditBodyClearsEmptyFields()
    ensures Property(EditBody("", "", ""), "section") == Some(JNull)
    ensures Property(EditBody("", "", ""), "row_number") == Some(JNull)
    ensures Property(EditBody("", "", ""), "column_number") == Some(JNull)
  {
  }
}
