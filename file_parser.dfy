/**
 * The packing-list normalisation shared by the CSV and the spreadsheet readers: each
 * row's pallet number and serial code are taken from one of two column names,
 * converted to text and trimmed, and rows missing either are dropped.
 */
module FileParser {
  import opened Wrappers
  import opened Text
  import opened Seqs

  /** A cell value as the CSV or spreadsheet reader delivers it; a numeric cell holds an integer. */
  datatype Cell = CText(s: string) | CNumber(n: int) | CBool(b: bool)

  /** A row keyed by column header; a header the row lacks reads as `undefined`. */
  type Row = map<string, Cell>

  /** The normalised row. */
  datatype ParsedPanel = ParsedPanel(palletNo: string, serialCode: string)

  predicate CellTruthy(c: Cell) {
    match c
    case CText(s) => s != ""
    case CNumber(n) => n != 0
    case CBool(b) => b
  }

  /** `String(value)`. */
  function CellString(c: Cell): string {
    match c
    case CText(s) => s
    case CNumber(n) => IntToString(n)
    case CBool(b) => if b then "true" else "false"
  }

  /** `row[key]` is truthy. */
  predicate Present(row: Row, key: string) {
    key in row && CellTruthy(row[key])
  }

  /** `String(row[key] || row[alias] || "").trim()`. */
  function Column(row: Row, key: string, alias: string): (r: string)
    ensures Present(row, key) ==> r == Trim(CellString(row[key]))
    ensures !Present(row, key) && Present(row, alias) ==> r == Trim(CellString(row[alias]))
    ensures !Present(row, key) && !Present(row, alias) ==> r == ""
  {
    Trim(CellString(Chosen(row, key, alias)))
  }

  /** `row[key] || row[alias] || ""`. */
  function Chosen(row: Row, key: string, alias: string): Cell {
    if Present(row, key) then row[key] else if Present(row, alias) then row[alias] else CText("")
  }

  /** The map step: pallet_no or "Pallet No", serial_code or "Serial Code". */
  function Normalize(row: Row): ParsedPanel {
    ParsedPanel(Column(row, "pallet_no", "Pallet No"), Column(row, "serial_code", "Serial Code"))
  }

  /** The filter step: both values are non-empty. */
  predicate Complete(p: ParsedPanel) {
    p.palletNo != "" && p.serialCode != ""
  }

  /** `rows.map(...).filter(...)`, as parseCSV and parseExcel both apply it. */
  function ParseRows(rows: seq<Row>): seq<ParsedPanel> {
    Filter(Map(rows, Normalize), Complete)
  }

  /** Text that neither starts nor ends with white space, so that trimming it changes nothing. */
  predicate Trimmed(s: string) {
    s == [] || (!IsSpace(s[0]) && !IsSpace(s[|s| - 1]))
  }

  /** The output is no longer than the input and keeps its order. */
  lemma ParsedRowsInOrder(rows: seq<Row>)
    ensures |ParseRows(rows)| <= |rows|
    ensures IsSubsequence(ParseRows(rows), Map(rows, Normalize))
  {
    FilterIsSubsequence(Map(rows, Normalize), Complete);
  }

  /** A row as the readers hand it on: both values non-empty and trimmed. */
  predicate Clean(p: ParsedPanel) {
    Complete(p) && Trimmed(p.palletNo) && Trimmed(p.serialCode)
  }

  lemma NormalizedTrimmed(row: Row)
    ensures Trimmed(Normalize(row).palletNo) && Trimmed(Normalize(row).serialCode)
  {
  }

  /** Every normalised row is trimmed. */
  lemma AllNormalizedTrimmed(rows: seq<Row>)
    ensures forall p :: p in Map(rows, Normalize) ==> Trimmed(p.palletNo) && Trimmed(p.serialCode)
  {
    var normalized := Map(rows, Normalize);
    forall j | 0 <= j < |rows| ensures Trimmed(normalized[j].palletNo) && Trimmed(normalized[j].serialCode) {
      NormalizedTrimmed(rows[j]);
    }
  }

  /** Every output row has a non-empty, trimmed pallet number and serial code. */
  lemma ParsedRowsClean(rows: seq<Row>)
    ensures forall i :: 0 <= i < |ParseRows(rows)| ==> Clean(ParseRows(rows)[i])
  {
    AllNormalizedTrimmed(rows);
  }

  /** A row is kept exactly when both of its values are non-empty after trimming. */
  lemma RowKeptIffComplete(rows: seq<Row>, i: nat)
    requires i < |rows|
    ensures Complete(Normalize(rows[i])) ==> Normalize(rows[i]) in ParseRows(rows)
    ensures !Complete(Normalize(rows[i])) ==> Normalize(rows[i]) !in ParseRows(rows)
  {
    assert Map(rows, Normalize)[i] == Normalize(rows[i]);
  }

  /** The preferred header wins over its alias; white space around the value is dropped. */
  lemma PreferredHeaderWins(pallet: string, other: string, serial: string)
    requires pallet != ""
    ensures Normalize(map["pallet_no" := CText(pallet), "Pallet No" := CText(other),
      "serial_code" := CText(serial)]) == ParsedPanel(Trim(pallet), Trim(serial))
  {
    var row := map["pallet_no" := CText(pallet), "Pallet No" := CText(other), "serial_code" := CText(serial)];
    assert Chosen(row, "pallet_no", "Pallet No") == CText(pallet);
    assert Chosen(row, "serial_code", "Serial Code") == CText(serial);
  }

  /** An empty preferred column falls back to the alias header. */
  lemma EmptyColumnFallsBack(other: string, serial: string)
    ensures Normalize(map["pallet_no" := CText(""), "Pallet No" := CText(other),
      "Serial Code" := CText(serial)]) == ParsedPanel(Trim(other), Trim(serial))
  {
    var row := map["pallet_no" := CText(""), "Pallet No" := CText(other), "Serial Code" := CText(serial)];
    assert Chosen(row, "pallet_no", "Pallet No") == CText(other);
    assert Chosen(row, "serial_code", "Serial Code") == CText(serial);
  }

  /** A numeral has no white space at either end. */
  lemma NumeralTrimmed(n: int)
    ensures Trim(IntToString(n)) == IntToString(n)
  {
    var t := IntToString(n);
    assert t[0] == '-' || IsDigit(t[0]);
    assert IsDigit(t[|t| - 1]) by {
      if n < 0 {
        assert t[|t| - 1] == NatToString(-n)[|NatToString(-n)| - 1];
      }
    }
    TrimNoop(t);
  }

  /** A numeric spreadsheet cell is written out in decimal: 0 is falsy, so it reads as missing. */
  lemma NumericCells(n: int)
    ensures Column(map["pallet_no" := CNumber(n)], "pallet_no", "Pallet No") ==
      (if n == 0 then "" else IntToString(n))
  {
    var row := map["pallet_no" := CNumber(n)];
    if n != 0 {
      assert Chosen(row, "pallet_no", "Pallet No") == CNumber(n);
      NumeralTrimmed(n);
    } else {
      assert Chosen(row, "pallet_no", "Pallet No") == CText("");
    }
  }

  /** The row a normalised panel would be read back from. */
  function AsRow(p: ParsedPanel): Row {
    map["pallet_no" := CText(p.palletNo), "serial_code" := CText(p.serialCode)]
  }

  lemma NormalizeAsRow(p: ParsedPanel)
    requires Clean(p)
    ensures Normalize(AsRow(p)) == p
  {
    var row := AsRow(p);
    TrimNoop(p.palletNo);
    TrimNoop(p.serialCode);
    assert Chosen(row, "pallet_no", "Pallet No") == CText(p.palletNo);
    assert Chosen(row, "serial_code", "Serial Code") == CText(p.serialCode);
  }

  /** Clean rows written back out as table rows are read back unchanged. */
  lemma ReparseClean(ps: seq<ParsedPanel>)
    requires forall i :: 0 <= i < |ps| ==> Clean(ps[i])
    ensures ParseRows(Map(ps, AsRow)) == ps
  {
    var rows := Map(ps, AsRow);
    forall i | 0 <= i < |ps| ensures Normalize(rows[i]) == ps[i] {
      NormalizeAsRow(ps[i]);
    }
    assert Map(rows, Normalize) == ps;
    FilterAll(ps, Complete);
  }

  /** Normalising already-normalised rows gives them back unchanged. */
  lemma ParseRowsIdempotent(rows: seq<Row>)
    ensures ParseRows(Map(ParseRows(rows), AsRow)) == ParseRows(rows)
  {
    ParsedRowsClean(rows);
    ReparseClean(ParseRows(rows));
  }
}
