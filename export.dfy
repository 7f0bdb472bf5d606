/**
 * GET /api/panels/export: check the `profileId` and `format` parameters in order, then
 * answer with the profile's panels, oldest first, as an attachment whose name and
 * content type follow the format. The CSV and spreadsheet serialisers are foreign
 * code; the model stops at the rows handed to them.
 */
module Export {
  import opened Wrappers
  import opened Http
  import opened Text
  import opened Seqs
  import opened Sorting
  import opened Panels

  const RequiredMessage := "Profile ID and format are required"
  const InvalidIdMessage := "Invalid Profile ID"
  const InvalidFormatMessage := "Invalid format. Must be 'csv' or 'xlsx'."
  const FailedMessage := "Failed to export panels"

  const CsvType := "text/csv"
  const XlsxType := "application/vnd.openxmlformats-officedocument.spreadsheetml.sheet"

  /** The eight columns the query selects. */
  datatype ExportRow = ExportRow(
    serialCode: string,
    palletNo: string,
    section: Option<string>,
    rowNumber: Option<int>,
    columnNumber: Option<int>,
    scannedAt: Option<Timestamp>,
    createdAt: Timestamp,
    updatedAt: Timestamp)

  /** The rows handed to the serialiser and the response headers. */
  datatype Download = Download(rows: seq<ExportRow>, contentType: string, filename: string, disposition: string)

  function Columns(p: Panel): ExportRow {
    ExportRow(p.serialCode, p.palletNo, p.section, p.rowNumber, p.columnNumber,
      p.scannedAt, p.createdAt, p.updatedAt)
  }

  /** The selected columns of each panel, in order. */
  function Project(ps: seq<Panel>): (r: seq<ExportRow>)
    ensures |r| == |ps|
    ensures forall i :: 0 <= i < |ps| ==> r[i] == Columns(ps[i])
  {
    if ps == [] then [] else Project(ps[..|ps| - 1]) + [Columns(ps[|ps| - 1])]
  }

  predicate InProfile(p: Panel, profileId: int) {
    p.profileId == profileId
  }

  function CreatedAtKey(p: Panel): int {
    p.createdAt
  }

  /** `SELECT ... FROM panels WHERE profile_id = $1 ORDER BY created_at ASC`. */
  function ProfilePanels(ps: seq<Panel>, profileId: int): (r: seq<Panel>)
    ensures multiset(r) == multiset(Filter(ps, p => InProfile(p, profileId)))
    ensures forall i, j :: 0 <= i < j < |r| ==> r[i].createdAt <= r[j].createdAt
  {
    SortBy(Filter(ps, p => InProfile(p, profileId)), CreatedAtKey)
  }

  /** `panels_profile_<id>.<format>`. */
  function Filename(profileId: int, format: string): string {
    "panels_profile_" + IntToString(profileId) + "." + format
  }

  function ContentType(format: string): string {
    if format == "csv" then CsvType else XlsxType
  }

  /**
   * The handler; each parameter is None when absent, and `fails` says the query or the
   * serialiser throws. An id past the integer column's range makes the query fail too.
   */
  function ExportSpec(t: Table, profileIdParam: Option<string>, format: Option<string>, fails: bool)
    : Response<Download>
  {
    if profileIdParam.None? || profileIdParam.value == "" || format.None? || format.value == "" then
      Error(BadRequest, RequiredMessage)
    else match ParseInt(profileIdParam.value)
      case None => Error(BadRequest, InvalidIdMessage)
      case Some(profileId) =>
        if format.value != "csv" && format.value != "xlsx" then Error(BadRequest, InvalidFormatMessage)
        else if fails || !FitsInteger(profileId) then Error(InternalError, FailedMessage)
        else
          var name := Filename(profileId, format.value);
          Ok(Download(Project(ProfilePanels(t.panels, profileId)), ContentType(format.value), name,
            "attachment; filename=\"" + name + "\""))
  }

  /** Both parameters are required, and that is checked before anything else. */
  lemma ExportRequiresBoth(t: Table, id: Option<string>, format: Option<string>, fails: bool)
    ensures ExportSpec(t, id, format, fails) == Error(BadRequest, RequiredMessage)
      <==> id.None? || id.value == "" || format.None? || format.value == ""
  {
  }

  /**
   * The id is checked before the format: a non-empty id with no leading integer is
   * reported whatever the format; "abc" is one.
   */
  lemma ExportChecksIdBeforeFormat(t: Table, id: string, format: string, fails: bool)
    requires id != "" && ParseInt(id).None? && format != ""
    ensures ExportSpec(t, Some(id), Some(format), fails) == Error(BadRequest, InvalidIdMessage)
    ensures ExportSpec(t, Some("abc"), Some(format), fails) == Error(BadRequest, InvalidIdMessage)
  {
    ParseIntNoDigits();
  }

  /** With a readable id, a format other than csv and xlsx is refused before the query runs. */
  lemma ExportRefusesOtherFormats(t: Table, id: string, format: string, fails: bool)
    requires id != "" && ParseInt(id).Some?
    requires format != "" && format != "csv" && format != "xlsx"
    ensures ExportSpec(t, Some(id), Some(format), fails) == Error(BadRequest, InvalidFormatMessage)
  {
  }

  /** A readable id past the integer column's range makes the query fail: 500. */
  lemma ExportProfileIdOutOfRange(t: Table, n: int, format: string, fails: bool)
    requires format == "csv" || format == "xlsx"
    requires !FitsInteger(n)
    ensures ExportSpec(t, Some(IntToString(n)), Some(format), fails) == Error(InternalError, FailedMessage)
  {
    var id := IntToString(n);
    assert id != "" && ParseInt(id) == Some(n) by {
      ParseIntRoundTrip(n);
      assert |id| >= 1;
    }
  }

  /** The selection holds every panel of the profile and no other. */
  lemma ProfilePanelsMembers(ps: seq<Panel>, profileId: int)
    ensures forall p :: p in ProfilePanels(ps, profileId) <==> p in ps && p.profileId == profileId
  {
    var sorted := ProfilePanels(ps, profileId);
    var f := Filter(ps, p => InProfile(p, profileId));
    forall p ensures p in sorted <==> p in f {
      assert p in sorted <==> p in multiset(sorted);
      assert p in f <==> p in multiset(f);
    }
  }

  /** A projected row comes from some panel of the input, and every panel gives one. */
  lemma ProjectMembers(qs: seq<Panel>)
    ensures forall r :: r in Project(qs) <==> exists p :: p in qs && r == Columns(p)
  {
    var rows := Project(qs);
    forall r ensures r in rows <==> exists p :: p in qs && r == Columns(p) {
      if r in rows {
        var i :| 0 <= i < |rows| && rows[i] == r;
        assert qs[i] in qs;
      }
      if exists p :: p in qs && r == Columns(p) {
        var p :| p in qs && r == Columns(p);
        var i :| 0 <= i < |qs| && qs[i] == p;
        assert rows[i] == r;
      }
    }
  }

  /** The exported rows are the columns of exactly the profile's panels, oldest first. */
  lemma ExportedRows(ps: seq<Panel>, profileId: int)
    ensures var rows := Project(ProfilePanels(ps, profileId));
      && (forall r :: r in rows <==> exists p :: p in ps && p.profileId == profileId && r == Columns(p))
      && (forall i, j :: 0 <= i < j < |rows| ==> rows[i].createdAt <= rows[j].createdAt)
  {
    ProfilePanelsMembers(ps, profileId);
    ProjectMembers(ProfilePanels(ps, profileId));
  }

  /**
   * A download holds the columns of exactly the profile's panels, oldest first, and is
   * named and typed after the format.
   */
  lemma ExportSuccess(t: Table, id: Option<string>, format: Option<string>, fails: bool)
    requires ExportSpec(t, id, format, fails).Ok?
    ensures var d := ExportSpec(t, id, format, fails).body;
      var profileId := ParseInt(id.value).value;
      && !fails && FitsInteger(profileId) && (format.value == "csv" || format.value == "xlsx")
      && d.rows == Project(ProfilePanels(t.panels, profileId))
      && (d.contentType == CsvType <==> format.value == "csv")
      && (d.contentType == XlsxType <==> format.value == "xlsx")
      && d.filename == Filename(profileId, format.value)
      && d.disposition == "attachment; filename=\"" + d.filename + "\""
  {
    assert CsvType != XlsxType;
  }

  /** Where the pieces of a concatenation sit. */
  lemma Pieces(a: string, b: string, c: string)
    ensures var s := a + b + c;
      s[..|a|] == a && s[|a|..] == b + c && |c| <= |s| && s[|s| - |c|..] == c
  {
  }

  /** The file name ends with the format, and the profile id reads back from after the prefix. */
  lemma FilenameRoundTrip(profileId: int, format: string)
    ensures var name := Filename(profileId, format);
      && EndsWith(name, "." + format)
      && |name| > 15 && name[..15] == "panels_profile_"
      && ParseInt(name[15..]) == Some(profileId)
  {
    var prefix := "panels_profile_";
    var numeral := IntToString(profileId);
    var suffix := "." + format;
    assert Filename(profileId, format) == prefix + numeral + suffix;
    assert |prefix| == 15;
    Pieces(prefix, numeral, suffix);
    assert suffix[0] == '.';
    ParseIntLeading(profileId, suffix);
  }
}
