/**
 * The panels table as a store object: the queries and the two writes the routes
 * issue against it. The table's unique key on (profile_id, serial_code) is part of
 * the store's contract: an INSERT that would repeat it is refused with SQLSTATE 23505.
 */
module PanelStore {
  import opened Wrappers
  import opened Json
  import opened Text
  import opened Panels

  /** The white space PostgreSQL's integer input skips around a number. */
  predicate IsAsciiSpace(c: char) {
    c == ' ' || c == '\t' || c == '\n' || c == '\r' || c == '\U{000B}' || c == '\U{000C}'
  }

  /** The number an integer's text spells: optional white space, sign, then only digits. */
  function IntegerNumeral(s: string): Option<int> {
    var t := TrimEndWith(TrimStartWith(s, IsAsciiSpace), IsAsciiSpace);
    if t != [] && (t[0] == '-' || t[0] == '+') then
      if t[1..] != [] && AllDigits(t[1..]) then
        Some(if t[0] == '-' then -(DigitsValue(t[1..]) as int) else DigitsValue(t[1..]))
      else None
    else if t != [] && AllDigits(t) then Some(DigitsValue(t))
    else None
  }

  /**
   * PostgreSQL's text input for an integer column: a well-formed numeral within the
   * column's range; a malformed one (22P02) or one out of range (22003) is an error.
   */
  function IntegerText(s: string): (r: Option<int>)
    ensures r.Some? <==> IntegerNumeral(s).Some? && FitsInteger(IntegerNumeral(s).value)
    ensures r.Some? ==> r == IntegerNumeral(s)
  {
    var v := IntegerNumeral(s);
    if v.Some? && FitsInteger(v.value) then v else None
  }

  /** How a bound query parameter is read into an integer column; None is a query error. */
  function CastToInteger(param: Json): (r: Option<int>)
    ensures r.Some? ==> FitsInteger(r.value)
  {
    match param
    case JNumber(n) => if FitsInteger(n) then Some(n) else None
    case JString(s) => IntegerText(s)
    case _ => None
  }

  /** Text that neither starts nor ends with ASCII white space is read as it is. */
  lemma IntegerTextUntrimmed(s: string)
    requires s != [] && !IsAsciiSpace(s[0]) && !IsAsciiSpace(s[|s| - 1])
    ensures TrimEndWith(TrimStartWith(s, IsAsciiSpace), IsAsciiSpace) == s
  {
    assert TrimStartWith(s, IsAsciiSpace) == s;
  }

  /** A run of digits is read as its value. */
  lemma IntegerTextOfDigits(ds: string)
    requires ds != [] && AllDigits(ds)
    ensures IntegerNumeral(ds) == Some(DigitsValue(ds))
  {
    assert IsDigit(ds[0]) && IsDigit(ds[|ds| - 1]);
    IntegerTextUntrimmed(ds);
  }

  /** A run of digits after a minus sign is read as the negated value. */
  lemma IntegerTextOfNegative(ds: string)
    requires ds != [] && AllDigits(ds)
    ensures IntegerNumeral("-" + ds) == Some(-(DigitsValue(ds) as int))
  {
    var neg := "-" + ds;
    assert IsDigit(ds[|ds| - 1]);
    assert neg[0] == '-' && neg[1..] == ds && neg[|neg| - 1] == ds[|ds| - 1];
    IntegerTextUntrimmed(neg);
  }

  /** A numeral printed from an integer is read back as that integer when the column can hold it, and refused otherwise. */
  lemma IntegerTextRoundTrip(n: int)
    ensures IntegerText(IntToString(n)) == if FitsInteger(n) then Some(n) else None
  {
    if n < 0 {
      IntegerTextOfNegative(NatToString(-n));
    } else {
      IntegerTextOfDigits(NatToString(n));
    }
  }

  datatype InsertOutcome = Inserted(row: Panel) | UniqueViolation {
    /** The SQLSTATE the database reports for a refused insert. */
    function Code(): string {
      if UniqueViolation? then "23505" else "00000"
    }
  }

  /** The row an INSERT (profile_id, pallet_no, serial_code) creates: unplaced and unscanned. */
  function NewPanel(id: nat, profileId: int, palletNo: string, serialCode: string, now: Timestamp): Panel {
    Panel(id, profileId, palletNo, serialCode, None, None, None, None, now, now)
  }

  /**
   * INSERT ... RETURNING *, refused when the (profile, serial) key already exists. The
   * SERIAL default is drawn before the key is checked, so a refused insert still uses up
   * the id it drew: the sequence advances either way.
   */
  function InsertRow(t: Table, profileId: int, palletNo: string, serialCode: string, now: Timestamp)
    : (r: (Table, InsertOutcome))
    ensures r.1.UniqueViolation? <==> exists j :: 0 <= j < |t.panels| && SameSerial(t.panels[j], profileId, serialCode)
    ensures r.1.UniqueViolation? ==> r.0 == Table(t.panels, t.nextId + 1)
    ensures r.1.Inserted? ==>
      r.1.row == NewPanel(t.nextId, profileId, palletNo, serialCode, now)
      && r.0 == Table(t.panels + [r.1.row], t.nextId + 1)
  {
    if FindSerial(t.panels, profileId, serialCode).Some? then (Table(t.panels, t.nextId + 1), UniqueViolation)
    else
      var row := NewPanel(t.nextId, profileId, palletNo, serialCode, now);
      (Table(t.panels + [row], t.nextId + 1), Inserted(row))
  }

  lemma InsertRowConsistent(t: Table, profileId: int, palletNo: string, serialCode: string, now: Timestamp)
    requires Consistent(t)
    ensures Consistent(InsertRow(t, profileId, palletNo, serialCode, now).0)
  {
    var (t', r) := InsertRow(t, profileId, palletNo, serialCode, now);
    if r.Inserted? {
      var ps := t'.panels;
      assert Occupied(ps[|ps| - 1]).None?;
      forall i, j | 0 <= i < |ps| && 0 <= j < |ps| && i != j && ps[i].profileId == ps[j].profileId
        && Occupied(ps[i]).Some?
        ensures Occupied(ps[i]) != Occupied(ps[j])
      {
        if j < |t.panels| && i < |t.panels| {
          assert ps[i] == t.panels[i] && ps[j] == t.panels[j];
        }
      }
    }
  }

  /** The scan's UPDATE: place the panel and stamp it scanned. */
  function Place(p: Panel, section: string, row: int, column: Option<int>, now: Timestamp): (q: Panel) {
    p.(section := Some(section), rowNumber := Some(row), columnNumber := column,
       scannedAt := Some(now), updatedAt := now)
  }

  /** Some scanned panel of the profile occupies the location. */
  predicate LocationTaken(ps: seq<Panel>, profileId: int, loc: Location) {
    exists j :: 0 <= j < |ps| && Occupies(ps[j], profileId, loc)
  }

  /** Placing an unscanned panel keeps the store consistent when its location is free. */
  lemma PlaceConsistent(t: Table, i: nat, section: string, row: int, column: Option<int>, now: Timestamp)
    requires Consistent(t) && i < |t.panels| && !IsScanned(t.panels[i])
    requires column.Some? ==> !LocationTaken(t.panels, t.panels[i].profileId, Location(section, row, column.value))
    ensures Consistent(Table(t.panels[i := Place(t.panels[i], section, row, column, now)], t.nextId))
  {
    var ps := t.panels[i := Place(t.panels[i], section, row, column, now)];
    forall a, b | 0 <= a < |ps| && 0 <= b < |ps| && a != b && ps[a].profileId == ps[b].profileId
      && Occupied(ps[a]).Some?
      ensures Occupied(ps[a]) != Occupied(ps[b])
    {
      if a == i {
        assert Occupied(ps[b]) == Occupied(t.panels[b]);
      } else if b == i {
        assert Occupied(ps[a]) == Occupied(t.panels[a]);
      } else {
        assert ps[a] == t.panels[a] && ps[b] == t.panels[b];
      }
    }
    assert SerialsUnique(ps) by {
      forall a, b | 0 <= a < b < |ps| ensures !SameSerial(ps[b], ps[a].profileId, ps[a].serialCode) {
        assert SameSerial(ps[b], ps[a].profileId, ps[a].serialCode)
          ==> SameSerial(t.panels[b], t.panels[a].profileId, t.panels[a].serialCode);
      }
    }
    assert IdsBelow(ps, t.nextId) by {
      forall a | 0 <= a < |ps| ensures ps[a].id == t.panels[a].id { }
    }
  }

  class Store {
    var panels: seq<Panel>
    var nextId: nat

    function Contents(): Table
      reads this
    {
      Table(panels, nextId)
    }

    ghost predicate Valid()
      reads this
    {
      Consistent(Contents())
    }

    /** An empty table whose SERIAL sequence starts at 1. */
    constructor ()
      ensures Valid() && panels == [] && nextId == 1
    {
      panels := [];
      nextId := 1;
    }

    /** SELECT * FROM panels WHERE profile_id = $1 AND serial_code = $2 (first row). */
    method SelectBySerial(profileId: int, serial: string) returns (r: Option<nat>)
      ensures r == FindSerial(panels, profileId, serial)
    {
      var i := 0;
      while i < |panels|
        invariant 0 <= i <= |panels|
        invariant forall j :: 0 <= j < i ==> !SameSerial(panels[j], profileId, serial)
      {
        if panels[i].profileId == profileId && panels[i].serialCode == serial {
          return Some(i);
        }
        i := i + 1;
      }
      return None;
    }

    /**
     * SELECT * FROM panels WHERE profile_id, section, row_number and column_number match
     * AND scanned_at IS NOT NULL: is the location taken?
     */
    method SelectOccupant(profileId: int, loc: Location) returns (found: bool)
      ensures found <==> LocationTaken(panels, profileId, loc)
    {
      var i := 0;
      while i < |panels|
        invariant 0 <= i <= |panels|
        invariant forall j :: 0 <= j < i ==> !Occupies(panels[j], profileId, loc)
      {
        var p := panels[i];
        if p.profileId == profileId && p.section == Some(loc.section) && p.rowNumber == Some(loc.row)
          && p.columnNumber == Some(loc.column) && p.scannedAt.Some?
        {
          assert Occupies(p, profileId, loc);
          return true;
        }
        i := i + 1;
      }
      return false;
    }

    /** INSERT INTO panels (profile_id, pallet_no, serial_code) VALUES (...) RETURNING *. */
    method Insert(profileId: int, palletNo: string, serialCode: string, now: Timestamp)
      returns (r: InsertOutcome)
      requires Valid()
      modifies this
      ensures Valid()
      ensures (Contents(), r) == InsertRow(old(Contents()), profileId, palletNo, serialCode, now)
    {
      InsertRowConsistent(Contents(), profileId, palletNo, serialCode, now);
      var existing := SelectBySerial(profileId, serialCode);
      if existing.Some? {
        nextId := nextId + 1;
        return UniqueViolation;
      }
      var row := NewPanel(nextId, profileId, palletNo, serialCode, now);
      panels := panels + [row];
      nextId := nextId + 1;
      return Inserted(row);
    }

    /** UPDATE panels SET section, row_number, column_number, scanned_at, updated_at WHERE id = ... RETURNING *. */
    method UpdatePlacement(i: nat, section: string, row: int, column: Option<int>, now: Timestamp)
      returns (updated: Panel)
      requires Valid() && i < |panels| && !IsScanned(panels[i])
      requires column.Some? ==> !LocationTaken(panels, panels[i].profileId, Location(section, row, column.value))
      modifies this
      ensures Valid()
      ensures updated == Place(old(panels[i]), section, row, column, now)
      ensures panels == old(panels)[i := updated] && nextId == old(nextId)
    {
      PlaceConsistent(Contents(), i, section, row, column, now);
      updated := Place(panels[i], section, row, column, now);
      panels := panels[i := updated];
    }
  }
}
