/**
 * POST /api/panels/upload: bulk-insert (pallet, serial) records for one profile.
 * Every record is validated before anything is written; records are then inserted one
 * by one, a record whose serial already exists for the profile is skipped, and any other
 * insert error aborts the rest of the batch while keeping the rows already inserted.
 */
module UploadRoute {
  import opened Wrappers
  import opened Json
  import opened Http
  import opened Panels
  import opened PanelStore
  import opened Validations

  datatype UploadSummary = UploadSummary(message: string, count: nat, total: nat)

  const SuccessMessage := "Panels uploaded successfully"
  const RequiredMessage := "Profile ID and panels array are required"
  const FailedMessage := "Failed to upload panels"

  /** `panels.map(panel => panelUploadSchema.parse(panel))`: every record, or the throw of the first bad one. */
  function ValidateAll(items: seq<Json>): (r: Option<seq<PanelUploadInput>>)
    ensures r.Some? <==> forall i :: 0 <= i < |items| ==> PanelUploadSchema(items[i]).Valid?
    ensures r.Some? ==> |r.value| == |items|
    ensures r.Some? ==> forall i :: 0 <= i < |items| ==> Valid(r.value[i]) == PanelUploadSchema(items[i])
  {
    if items == [] then Some([])
    else match PanelUploadSchema(items[0])
      case Invalid(_) => None
      case Valid(first) =>
        match ValidateAll(items[1..])
        case None => None
        case Some(rest) =>
          assert forall i :: 1 <= i < |items| ==> items[i] == items[1..][i - 1];
          Some([first] + rest)
  }

  /** Where the insert loop stands: the table, `insertedPanels`, and whether an insert threw. */
  datatype Progress = Progress(table: Table, inserted: seq<Panel>, aborted: bool)

  /**
   * The insert loop from record i on. `key` is the profileId as the database reads it
   * (None: every INSERT fails with an invalid-input error); `faulty` holds the indices whose
   * INSERT fails with an error other than 23505 (an unknown profile, a lost connection).
   */
  function InsertFrom(t: Table, inserted: seq<Panel>, key: Option<int>, recs: seq<PanelUploadInput>,
                      faulty: set<nat>, now: Timestamp, i: nat): Progress
    requires i <= |recs|
    decreases |recs| - i
  {
    if i == |recs| then Progress(t, inserted, false)
    else if key.None? || i in faulty then Progress(t, inserted, true)
    else
      var (t', outcome) := InsertRow(t, key.value, recs[i].palletNo, recs[i].serialCode, now);
      InsertFrom(t', if outcome.Inserted? then inserted + [outcome.row] else inserted,
                 key, recs, faulty, now, i + 1)
  }

  /** The answer and the new table for one upload request; `body` is None when it is not JSON. */
  function UploadSpec(t: Table, body: Option<Json>, faulty: set<nat>, now: Timestamp)
    : (Response<UploadSummary>, Table)
  {
    if body.None? || body.value.JNull? then (Error(InternalError, FailedMessage), t)
    else
      var profileId := Property(body.value, "profileId");
      var panels := Property(body.value, "panels");
      if !TruthyOpt(profileId) || !(panels.Some? && panels.value.JArray?) then
        (Error(BadRequest, RequiredMessage), t)
      else match ValidateAll(panels.value.items)
        case None => (Error(InternalError, FailedMessage), t)
        case Some(recs) =>
          var p := InsertFrom(t, [], CastToInteger(profileId.value), recs, faulty, now, 0);
          if p.aborted then (Error(InternalError, FailedMessage), p.table)
          else (Ok(UploadSummary(SuccessMessage, |p.inserted|, |recs|)), p.table)
  }

  method Upload(store: Store, body: Option<Json>, faulty: set<nat>, now: Timestamp)
    returns (resp: Response<UploadSummary>)
    requires store.Valid()
    modifies store
    ensures store.Valid()
    ensures (resp, store.Contents()) == UploadSpec(old(store.Contents()), body, faulty, now)
  {
    if body.None? || body.value.JNull? {
      return Error(InternalError, FailedMessage);
    }
    var profileId := Property(body.value, "profileId");
    var panels := Property(body.value, "panels");
    if !TruthyOpt(profileId) || !(panels.Some? && panels.value.JArray?) {
      return Error(BadRequest, RequiredMessage);
    }
    var validated := ValidateAll(panels.value.items);
    if validated.None? {
      return Error(InternalError, FailedMessage);
    }
    var recs := validated.value;
    var key := CastToInteger(profileId.value);
    ghost var start := store.Contents();
    var inserted: seq<Panel> := [];
    var i := 0;
    while i < |recs|
      invariant 0 <= i <= |recs|
      invariant store.Valid()
      invariant InsertFrom(store.Contents(), inserted, key, recs, faulty, now, i)
             == InsertFrom(start, [], key, recs, faulty, now, 0)
    {
      if key.None? || i in faulty {
        return Error(InternalError, FailedMessage);
      }
      var outcome := store.Insert(key.value, recs[i].palletNo, recs[i].serialCode, now);
      if outcome.Inserted? {
        inserted := inserted + [outcome.row];
      }
      i := i + 1;
    }
    return Ok(UploadSummary(SuccessMessage, |inserted|, |recs|));
  }

  // ---------------------------------------------------------------------------
  // A reference definition of which records are inserted
  // ---------------------------------------------------------------------------

  /** The serial codes the profile already holds. */
  function Taken(ps: seq<Panel>, profileId: int): set<string> {
    set j | 0 <= j < |ps| && ps[j].profileId == profileId :: ps[j].serialCode
  }

  function SerialsOf(recs: seq<PanelUploadInput>): set<string> {
    set r | r in recs :: r.serialCode
  }

  /** The records inserted: those whose serial is neither taken nor earlier in the batch. */
  function Accepted(taken: set<string>, recs: seq<PanelUploadInput>): (acc: seq<PanelUploadInput>)
    ensures |acc| <= |recs|
    ensures forall k :: 0 <= k < |acc| ==> acc[k] in recs && acc[k].serialCode !in taken
    decreases |recs|
  {
    if recs == [] then []
    else if recs[0].serialCode in taken then Accepted(taken, recs[1..])
    else [recs[0]] + Accepted(taken + {recs[0].serialCode}, recs[1..])
  }

  /**
   * The rows the batch inserts when every record is tried in turn from id `id` on. Each
   * INSERT draws one id, so a refused record leaves its id unused and the ids of the
   * rows are increasing but not consecutive. Row k is the k-th accepted record.
   */
  function Rows(id: nat, profileId: int, taken: set<string>, recs: seq<PanelUploadInput>, now: Timestamp)
    : (rows: seq<Panel>)
    ensures |rows| == |Accepted(taken, recs)|
    decreases |recs|
  {
    if recs == [] then []
    else if recs[0].serialCode in taken then Rows(id + 1, profileId, taken, recs[1..], now)
    else [NewPanel(id, profileId, recs[0].palletNo, recs[0].serialCode, now)]
         + Rows(id + 1, profileId, taken + {recs[0].serialCode}, recs[1..], now)
  }

  /**
   * Row k is a fresh unplaced row of the profile holding the k-th record of `acc`; its id
   * lies in [id, id + n), and the ids increase.
   */
  predicate RowsMatch(rows: seq<Panel>, acc: seq<PanelUploadInput>, id: nat, n: nat, profileId: int, now: Timestamp) {
    && |rows| == |acc|
    && (forall k :: 0 <= k < |rows| ==>
          rows[k] == NewPanel(rows[k].id, profileId, acc[k].palletNo, acc[k].serialCode, now))
    && (forall k :: 0 <= k < |rows| ==> id <= rows[k].id < id + n)
    && (forall k, l :: 0 <= k < l < |rows| ==> rows[k].id < rows[l].id)
  }

  /** The batch's rows hold the accepted records in order, with increasing ids among those the batch drew. */
  lemma {:induction false} RowsOfAccepted(id: nat, profileId: int, taken: set<string>,
      recs: seq<PanelUploadInput>, now: Timestamp)
    ensures RowsMatch(Rows(id, profileId, taken, recs, now), Accepted(taken, recs), id, |recs|, profileId, now)
    decreases |recs|
  {
    if recs != [] {
      var r := recs[0];
      if r.serialCode in taken {
        var rest := Rows(id + 1, profileId, taken, recs[1..], now);
        var acc := Accepted(taken, recs[1..]);
        assert Rows(id, profileId, taken, recs, now) == rest;
        assert Accepted(taken, recs) == acc;
        RowsOfAccepted(id + 1, profileId, taken, recs[1..], now);
        WidenRows(rest, acc, id, |recs|, profileId, now);
      } else {
        var row := NewPanel(id, profileId, r.palletNo, r.serialCode, now);
        var rest := Rows(id + 1, profileId, taken + {r.serialCode}, recs[1..], now);
        var acc := Accepted(taken + {r.serialCode}, recs[1..]);
        assert Rows(id, profileId, taken, recs, now) == [row] + rest;
        assert Accepted(taken, recs) == [r] + acc;
        RowsOfAccepted(id + 1, profileId, taken + {r.serialCode}, recs[1..], now);
        HeadRows(row, rest, r, acc, id, |recs|, profileId, now);
      }
    }
  }

  /** Rows whose ids were drawn after a refused record are among the ids drawn from the one before. */
  lemma WidenRows(rows: seq<Panel>, acc: seq<PanelUploadInput>, id: nat, n: nat, profileId: int, now: Timestamp)
    requires n >= 1 && RowsMatch(rows, acc, id + 1, n - 1, profileId, now)
    ensures RowsMatch(rows, acc, id, n, profileId, now)
  {
  }

  /** A fresh row with id `id` followed by rows drawn after it still match, one record longer. */
  lemma HeadRows(row: Panel, rest: seq<Panel>, r: PanelUploadInput, acc: seq<PanelUploadInput>,
      id: nat, n: nat, profileId: int, now: Timestamp)
    requires n >= 1 && row == NewPanel(id, profileId, r.palletNo, r.serialCode, now)
    requires RowsMatch(rest, acc, id + 1, n - 1, profileId, now)
    ensures RowsMatch([row] + rest, [r] + acc, id, n, profileId, now)
  {
    var rows := [row] + rest;
    var all := [r] + acc;
    assert forall k :: 1 <= k < |rows| ==> rows[k] == rest[k - 1] && all[k] == acc[k - 1];
  }

  lemma TakenAppend(ps: seq<Panel>, p: Panel, profileId: int)
    ensures Taken(ps + [p], profileId)
         == Taken(ps, profileId) + (if p.profileId == profileId then {p.serialCode} else {})
  {
    var qs := ps + [p];
    assert qs[|ps|] == p;
    forall s | s in Taken(ps, profileId) ensures s in Taken(qs, profileId) {
      var j :| 0 <= j < |ps| && ps[j].profileId == profileId && ps[j].serialCode == s;
      assert qs[j] == ps[j];
    }
  }

  lemma TakenMeansDuplicate(ps: seq<Panel>, profileId: int, serial: string)
    ensures serial in Taken(ps, profileId) <==> exists j :: 0 <= j < |ps| && SameSerial(ps[j], profileId, serial)
  {
    if serial in Taken(ps, profileId) {
      var j :| 0 <= j < |ps| && ps[j].profileId == profileId && ps[j].serialCode == serial;
      assert SameSerial(ps[j], profileId, serial);
    }
  }

  predicate FaultFreeFrom(faulty: set<nat>, i: nat, n: nat) {
    forall k :: i <= k < n ==> k !in faulty
  }

  /**
   * With a readable profile id and no other insert error, the loop inserts exactly the
   * accepted records, in order, as fresh unplaced rows; every record, inserted or refused,
   * uses up one id; and `insertedPanels` holds exactly the new rows.
   */
  lemma {:induction false} InsertFromAccepts(t: Table, inserted: seq<Panel>, pid: int,
      recs: seq<PanelUploadInput>, faulty: set<nat>, now: Timestamp, i: nat)
    requires i <= |recs| && FaultFreeFrom(faulty, i, |recs|)
    ensures var p := InsertFrom(t, inserted, Some(pid), recs, faulty, now, i);
      var rows := Rows(t.nextId, pid, Taken(t.panels, pid), recs[i..], now);
      !p.aborted && p.table == Table(t.panels + rows, t.nextId + (|recs| - i)) && p.inserted == inserted + rows
    decreases |recs| - i, 1
  {
    if i == |recs| {
      assert recs[i..] == [];
      assert t.panels + [] == t.panels && inserted + [] == inserted;
    } else if InsertRow(t, pid, recs[i].palletNo, recs[i].serialCode, now).1.UniqueViolation? {
      InsertFromSkips(t, inserted, pid, recs, faulty, now, i);
    } else {
      InsertFromInserts(t, inserted, pid, recs, faulty, now, i);
    }
  }

  /** The step of InsertFromAccepts for a record whose serial is taken. */
  lemma {:induction false} InsertFromSkips(t: Table, inserted: seq<Panel>, pid: int,
      recs: seq<PanelUploadInput>, faulty: set<nat>, now: Timestamp, i: nat)
    requires i < |recs| && FaultFreeFrom(faulty, i, |recs|)
    requires InsertRow(t, pid, recs[i].palletNo, recs[i].serialCode, now).1.UniqueViolation?
    ensures var p := InsertFrom(t, inserted, Some(pid), recs, faulty, now, i);
      var rows := Rows(t.nextId, pid, Taken(t.panels, pid), recs[i..], now);
      !p.aborted && p.table == Table(t.panels + rows, t.nextId + (|recs| - i)) && p.inserted == inserted + rows
    decreases |recs| - i, 0
  {
    var r := recs[i];
    var t' := Table(t.panels, t.nextId + 1);
    var p := InsertFrom(t, inserted, Some(pid), recs, faulty, now, i);
    var rows := Rows(t.nextId, pid, Taken(t.panels, pid), recs[i..], now);
    var rows' := Rows(t'.nextId, pid, Taken(t'.panels, pid), recs[i + 1..], now);
    assert p == InsertFrom(t', inserted, Some(pid), recs, faulty, now, i + 1) by {
      assert i !in faulty;
    }
    assert rows == rows' by {
      TakenMeansDuplicate(t.panels, pid, r.serialCode);
      RowsStep(t.panels, t.nextId, pid, recs, now, i);
    }
    assert !p.aborted && p.table == Table(t.panels + rows', t'.nextId + (|recs| - (i + 1)))
        && p.inserted == inserted + rows' by {
      InsertFromAccepts(t', inserted, pid, recs, faulty, now, i + 1);
    }
  }

  /** The step of InsertFromAccepts for a record whose serial is free. */
  lemma {:induction false} InsertFromInserts(t: Table, inserted: seq<Panel>, pid: int,
      recs: seq<PanelUploadInput>, faulty: set<nat>, now: Timestamp, i: nat)
    requires i < |recs| && FaultFreeFrom(faulty, i, |recs|)
    requires InsertRow(t, pid, recs[i].palletNo, recs[i].serialCode, now).1.Inserted?
    ensures var p := InsertFrom(t, inserted, Some(pid), recs, faulty, now, i);
      var rows := Rows(t.nextId, pid, Taken(t.panels, pid), recs[i..], now);
      !p.aborted && p.table == Table(t.panels + rows, t.nextId + (|recs| - i)) && p.inserted == inserted + rows
    decreases |recs| - i, 0
  {
    var r := recs[i];
    var row := NewPanel(t.nextId, pid, r.palletNo, r.serialCode, now);
    var t' := Table(t.panels + [row], t.nextId + 1);
    var p := InsertFrom(t, inserted, Some(pid), recs, faulty, now, i);
    var rows := Rows(t.nextId, pid, Taken(t.panels, pid), recs[i..], now);
    var rows' := Rows(t'.nextId, pid, Taken(t'.panels, pid), recs[i + 1..], now);
    var n := t.nextId + (|recs| - i);
    assert !p.aborted && p.table == Table(t'.panels + rows', n)
        && p.inserted == (inserted + [row]) + rows' by {
      assert i !in faulty;
      assert p == InsertFrom(t', inserted + [row], Some(pid), recs, faulty, now, i + 1);
      InsertFromAccepts(t', inserted + [row], pid, recs, faulty, now, i + 1);
    }
    assert rows == [row] + rows' by {
      TakenMeansDuplicate(t.panels, pid, r.serialCode);
      RowsStep(t.panels, t.nextId, pid, recs, now, i);
    }
    ProgressAppendHead(p, t.panels, n, inserted, row, rows', rows);
  }

  lemma ProgressAppendHead(p: Progress, ps: seq<Panel>, n: nat, inserted: seq<Panel>, row: Panel,
      rows': seq<Panel>, rows: seq<Panel>)
    requires !p.aborted && p.table == Table((ps + [row]) + rows', n)
    requires p.inserted == (inserted + [row]) + rows'
    requires rows == [row] + rows'
    ensures !p.aborted && p.table == Table(ps + rows, n) && p.inserted == inserted + rows
  {
    AppendHead(ps, row, rows', rows);
    AppendHead(inserted, row, rows', rows);
  }

  lemma AppendHead<T>(xs: seq<T>, x: T, ys: seq<T>, zs: seq<T>)
    requires zs == [x] + ys
    ensures (xs + [x]) + ys == xs + zs
  {
  }

  /**
   * Record i either is refused and the rows from i are those from i + 1 with the same
   * table, or heads the rows from i, the rest following from the table holding it.
   */
  lemma RowsStep(ps: seq<Panel>, id: nat, pid: int, recs: seq<PanelUploadInput>, now: Timestamp, i: nat)
    requires i < |recs|
    ensures var r := recs[i];
      var row := NewPanel(id, pid, r.palletNo, r.serialCode, now);
      Rows(id, pid, Taken(ps, pid), recs[i..], now)
        == if r.serialCode in Taken(ps, pid) then Rows(id + 1, pid, Taken(ps, pid), recs[i + 1..], now)
           else [row] + Rows(id + 1, pid, Taken(ps + [row], pid), recs[i + 1..], now)
  {
    var r := recs[i];
    var row := NewPanel(id, pid, r.palletNo, r.serialCode, now);
    assert recs[i..][0] == r;
    assert recs[i..][1..] == recs[i + 1..];
    TakenAppend(ps, row, pid);
  }

  /** The abort point: with the first failing INSERT at f, the batch keeps what records before f gave. */
  lemma {:induction false} InsertFromAbortKeepsPrefix(t: Table, inserted: seq<Panel>, pid: int,
      recs: seq<PanelUploadInput>, faulty: set<nat>, now: Timestamp, i: nat, f: nat)
    requires i <= f < |recs| && f in faulty && FaultFreeFrom(faulty, i, f)
    ensures var p := InsertFrom(t, inserted, Some(pid), recs, faulty, now, i);
      var q := InsertFrom(t, inserted, Some(pid), recs[..f], {}, now, i);
      p.aborted && p.table == q.table && p.inserted == q.inserted
    decreases f - i
  {
    if i < f {
      var (t', outcome) := InsertRow(t, pid, recs[i].palletNo, recs[i].serialCode, now);
      var ins' := if outcome.Inserted? then inserted + [outcome.row] else inserted;
      assert recs[..f][i] == recs[i];
      InsertFromAbortKeepsPrefix(t', ins', pid, recs, faulty, now, i + 1, f);
    }
  }

  /** Every record's serial is held once its batch has been inserted. */
  lemma {:induction false} AcceptedCovers(taken: set<string>, recs: seq<PanelUploadInput>)
    ensures SerialsOf(recs) <= taken + SerialsOf(Accepted(taken, recs))
    decreases |recs|
  {
    if recs != [] {
      var r := recs[0];
      assert recs == [r] + recs[1..];
      assert SerialsOf(recs) == {r.serialCode} + SerialsOf(recs[1..]);
      if r.serialCode in taken {
        AcceptedCovers(taken, recs[1..]);
      } else {
        var rest := Accepted(taken + {r.serialCode}, recs[1..]);
        AcceptedCovers(taken + {r.serialCode}, recs[1..]);
        assert SerialsOf([r] + rest) == {r.serialCode} + SerialsOf(rest);
      }
    }
  }

  /** Nothing is accepted when every serial is already held. */
  lemma {:induction false} AcceptedNone(taken: set<string>, recs: seq<PanelUploadInput>)
    requires SerialsOf(recs) <= taken
    ensures Accepted(taken, recs) == []
  {
    if recs != [] {
      assert recs[0] in recs;
      assert SerialsOf(recs[1..]) <= SerialsOf(recs) by {
        forall r | r in recs[1..] ensures r in recs { }
      }
      AcceptedNone(taken, recs[1..]);
    }
  }

  /** The serials held after the batch are those held before plus the accepted ones. */
  lemma {:induction false} TakenRows(ps: seq<Panel>, id: nat, pid: int, taken: set<string>,
      recs: seq<PanelUploadInput>, now: Timestamp)
    ensures Taken(ps + Rows(id, pid, taken, recs, now), pid) == Taken(ps, pid) + SerialsOf(Accepted(taken, recs))
    decreases |recs|, 1
  {
    if recs == [] {
      assert ps + [] == ps;
    } else if recs[0].serialCode in taken {
      assert Rows(id, pid, taken, recs, now) == Rows(id + 1, pid, taken, recs[1..], now);
      assert Accepted(taken, recs) == Accepted(taken, recs[1..]);
      TakenRows(ps, id + 1, pid, taken, recs[1..], now);
    } else {
      TakenRowsInsert(ps, id, pid, taken, recs, now);
    }
  }

  /** The step of TakenRows for a first record whose serial is free. */
  lemma {:induction false} TakenRowsInsert(ps: seq<Panel>, id: nat, pid: int, taken: set<string>,
      recs: seq<PanelUploadInput>, now: Timestamp)
    requires recs != [] && recs[0].serialCode !in taken
    ensures Taken(ps + Rows(id, pid, taken, recs, now), pid) == Taken(ps, pid) + SerialsOf(Accepted(taken, recs))
    decreases |recs|, 0
  {
    var r := recs[0];
    var row := NewPanel(id, pid, r.palletNo, r.serialCode, now);
    var rest := Rows(id + 1, pid, taken + {r.serialCode}, recs[1..], now);
    var acc := Accepted(taken + {r.serialCode}, recs[1..]);
    assert ps + Rows(id, pid, taken, recs, now) == (ps + [row]) + rest by {
      assert Rows(id, pid, taken, recs, now) == [row] + rest;
    }
    assert SerialsOf(Accepted(taken, recs)) == {r.serialCode} + SerialsOf(acc) by {
      assert Accepted(taken, recs) == [r] + acc;
      assert SerialsOf([r] + acc) == {r.serialCode} + SerialsOf(acc);
    }
    TakenAppend(ps, row, pid);
    TakenRows(ps + [row], id + 1, pid, taken + {r.serialCode}, recs[1..], now);
  }

  // ---------------------------------------------------------------------------
  // Properties of the route
  // ---------------------------------------------------------------------------

  /** Refusals before the loop change nothing; a 400 is only for a falsy profileId or a non-array panels. */
  lemma UploadRequiredFields(t: Table, body: Json, faulty: set<nat>, now: Timestamp)
    requires !body.JNull?
    ensures var (resp, t') := UploadSpec(t, Some(body), faulty, now);
      (resp == Error(BadRequest, RequiredMessage) <==>
        !TruthyOpt(Property(body, "profileId"))
        || !(Property(body, "panels").Some? && Property(body, "panels").value.JArray?))
      && (resp.Error? && resp.status == BadRequest ==> t' == t)
  {
  }

  /** One invalid record refuses the whole batch with 500 before any row is written. */
  lemma UploadInvalidRecordWritesNothing(t: Table, body: Json, faulty: set<nat>, now: Timestamp, bad: nat)
    requires !body.JNull? && TruthyOpt(Property(body, "profileId"))
    requires Property(body, "panels").Some? && Property(body, "panels").value.JArray?
    requires bad < |Property(body, "panels").value.items|
    requires PanelUploadSchema(Property(body, "panels").value.items[bad]).Invalid?
    ensures UploadSpec(t, Some(body), faulty, now) == (Error(InternalError, FailedMessage), t)
  {
  }

  /**
   * A successful upload inserts exactly the accepted records after the existing rows,
   * uses up one id per record sent, reports `count` as the number of accepted records and
   * `total` as the number of records sent, and so count <= total.
   */
  lemma UploadSuccess(t: Table, body: Json, faulty: set<nat>, now: Timestamp)
    requires UploadSpec(t, Some(body), faulty, now).0.Ok?
    ensures var (resp, t') := UploadSpec(t, Some(body), faulty, now);
      var items := Property(body, "panels").value.items;
      var recs := ValidateAll(items).value;
      (|recs| == 0 ==> t' == t && resp.body.count == 0)
      && (|recs| > 0 ==> exists pid :: (CastToInteger(Property(body, "profileId").value) == Some(pid)
        && t' == Table(t.panels + Rows(t.nextId, pid, Taken(t.panels, pid), recs, now), t.nextId + |recs|)
        && resp.body.count == |Accepted(Taken(t.panels, pid), recs)|))
      && resp.body.message == SuccessMessage
      && resp.body.total == |items|
      && resp.body.count <= resp.body.total
  {
    var items := Property(body, "panels").value.items;
    var recs := ValidateAll(items).value;
    var key := CastToInteger(Property(body, "profileId").value);
    if |recs| > 0 {
      assert key.Some? && 0 !in faulty;
      NoAbortMeansFaultFree(t, [], key, recs, faulty, now, 0);
      InsertFromAccepts(t, [], key.value, recs, faulty, now, 0);
      assert recs[0..] == recs;
    } else {
      assert InsertFrom(t, [], key, recs, faulty, now, 0) == Progress(t, [], false);
    }
  }

  lemma {:induction false} NoAbortMeansFaultFree(t: Table, inserted: seq<Panel>, key: Option<int>,
      recs: seq<PanelUploadInput>, faulty: set<nat>, now: Timestamp, i: nat)
    requires i <= |recs| && !InsertFrom(t, inserted, key, recs, faulty, now, i).aborted
    ensures FaultFreeFrom(faulty, i, |recs|)
    ensures i < |recs| ==> key.Some?
    decreases |recs| - i
  {
    if i < |recs| {
      var (t', outcome) := InsertRow(t, key.value, recs[i].palletNo, recs[i].serialCode, now);
      var ins' := if outcome.Inserted? then inserted + [outcome.row] else inserted;
      NoAbortMeansFaultFree(t', ins', key, recs, faulty, now, i + 1);
    }
  }

  /** A profileId the database cannot read as an integer fails every non-empty batch with 500, writing nothing. */
  lemma UploadUnreadableProfileId(t: Table, body: Json, faulty: set<nat>, now: Timestamp)
    requires !body.JNull? && TruthyOpt(Property(body, "profileId"))
    requires CastToInteger(Property(body, "profileId").value).None?
    requires Property(body, "panels").Some? && Property(body, "panels").value.JArray?
    requires ValidateAll(Property(body, "panels").value.items).Some?
    requires |Property(body, "panels").value.items| > 0
    ensures UploadSpec(t, Some(body), faulty, now) == (Error(InternalError, FailedMessage), t)
  {
  }

  /**
   * Uploading the same file twice inserts nothing the second time: the summary reports
   * count 0 of the same total and the panels are unchanged, while every refused insert
   * has used up one id.
   */
  lemma UploadTwiceInsertsNothing(t: Table, body: Json, faulty: set<nat>, now: Timestamp, later: Timestamp)
    requires UploadSpec(t, Some(body), faulty, now).0.Ok?
    ensures var (first, t') := UploadSpec(t, Some(body), faulty, now);
      UploadSpec(t', Some(body), {}, later)
        == (Ok(UploadSummary(SuccessMessage, 0, first.body.total)), Table(t'.panels, t'.nextId + first.body.total))
  {
    var (first, t') := UploadSpec(t, Some(body), faulty, now);
    var items := Property(body, "panels").value.items;
    var recs := ValidateAll(items).value;
    var key := CastToInteger(Property(body, "profileId").value);
    assert first.body.total == |recs|;
    if |recs| > 0 {
      assert key.Some? && FaultFreeFrom(faulty, 0, |recs|) by {
        NoAbortMeansFaultFree(t, [], key, recs, faulty, now, 0);
      }
      var pid := key.value;
      var rows := Rows(t.nextId, pid, Taken(t.panels, pid), recs, now);
      assert t'.panels == t.panels + rows by {
        InsertFromAccepts(t, [], pid, recs, faulty, now, 0);
        assert recs[0..] == recs;
      }
      assert SerialsOf(recs) <= Taken(t'.panels, pid) by {
        AcceptedCovers(Taken(t.panels, pid), recs);
        TakenRows(t.panels, t.nextId, pid, Taken(t.panels, pid), recs, now);
      }
      HeldBatchInsertsNothing(t', pid, recs, later);
    } else {
      assert InsertFrom(t', [], key, recs, {}, later, 0) == Progress(t', [], false);
    }
  }

  /** A batch whose serials are all held is refused record by record: no row, one id used per record. */
  lemma HeldBatchInsertsNothing(t: Table, pid: int, recs: seq<PanelUploadInput>, now: Timestamp)
    requires SerialsOf(recs) <= Taken(t.panels, pid)
    ensures InsertFrom(t, [], Some(pid), recs, {}, now, 0) == Progress(Table(t.panels, t.nextId + |recs|), [], false)
  {
    assert Rows(t.nextId, pid, Taken(t.panels, pid), recs, now) == [] by {
      AcceptedNone(Taken(t.panels, pid), recs);
    }
    InsertFromAccepts(t, [], pid, recs, {}, now, 0);
    assert recs[0..] == recs;
    assert t.panels + [] == t.panels;
  }

  lemma {:induction false} InsertFromConsistent(t: Table, inserted: seq<Panel>, key: Option<int>,
      recs: seq<PanelUploadInput>, faulty: set<nat>, now: Timestamp, i: nat)
    requires i <= |recs| && Consistent(t)
    ensures Consistent(InsertFrom(t, inserted, key, recs, faulty, now, i).table)
    decreases |recs| - i
  {
    if i < |recs| && key.Some? && i !in faulty {
      var (t', outcome) := InsertRow(t, key.value, recs[i].palletNo, recs[i].serialCode, now);
      var ins' := if outcome.Inserted? then inserted + [outcome.row] else inserted;
      var q := InsertFrom(t', ins', key, recs, faulty, now, i + 1);
      assert Consistent(q.table) by {
        InsertRowConsistent(t, key.value, recs[i].palletNo, recs[i].serialCode, now);
        InsertFromConsistent(t', ins', key, recs, faulty, now, i + 1);
      }
      assert InsertFrom(t, inserted, key, recs, faulty, now, i) == q;
    }
  }

  /** Whatever the outcome, the unique key and the location exclusivity still hold. */
  lemma UploadPreservesConsistency(t: Table, body: Option<Json>, faulty: set<nat>, now: Timestamp)
    requires Consistent(t)
    ensures Consistent(UploadSpec(t, body, faulty, now).1)
  {
    if body.Some? && !body.value.JNull? {
      var profileId := Property(body.value, "profileId");
      var panels := Property(body.value, "panels");
      if TruthyOpt(profileId) && panels.Some? && panels.value.JArray? && ValidateAll(panels.value.items).Some? {
        InsertFromConsistent(t, [], CastToInteger(profileId.value), ValidateAll(panels.value.items).value, faulty, now, 0);
      }
    }
  }

  /** An INSERT that fails partway keeps the rows of the records before it (there is no transaction). */
  lemma UploadAbortKeepsEarlierRows(t: Table, body: Json, faulty: set<nat>, now: Timestamp,
                                    pid: int, recs: seq<PanelUploadInput>, f: nat)
    requires !body.JNull? && TruthyOpt(Property(body, "profileId"))
    requires CastToInteger(Property(body, "profileId").value) == Some(pid)
    requires Property(body, "panels").Some? && Property(body, "panels").value.JArray?
    requires ValidateAll(Property(body, "panels").value.items) == Some(recs)
    requires f < |recs| && f in faulty && FaultFreeFrom(faulty, 0, f)
    ensures var rows := Rows(t.nextId, pid, Taken(t.panels, pid), recs[..f], now);
      UploadSpec(t, Some(body), faulty, now)
        == (Error(InternalError, FailedMessage), Table(t.panels + rows, t.nextId + f))
  {
    AbortedBatch(t, pid, recs, faulty, now, f);
  }

  lemma AbortedBatch(t: Table, pid: int, recs: seq<PanelUploadInput>, faulty: set<nat>, now: Timestamp, f: nat)
    requires f < |recs| && f in faulty && FaultFreeFrom(faulty, 0, f)
    ensures var rows := Rows(t.nextId, pid, Taken(t.panels, pid), recs[..f], now);
      var p := InsertFrom(t, [], Some(pid), recs, faulty, now, 0);
      p.aborted && p.table == Table(t.panels + rows, t.nextId + f)
  {
    InsertFromAbortKeepsPrefix(t, [], pid, recs, faulty, now, 0, f);
    InsertFromAccepts(t, [], pid, recs[..f], {}, now, 0);
    assert recs[..f][0..] == recs[..f];
  }
}
