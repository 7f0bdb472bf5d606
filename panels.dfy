/**
 * The rows of the `panels` and `profiles` tables (the Panel and Profile types of
 * lib/db.ts) and the integrity properties a store of panels keeps.
 */
module Panels {
  import opened Wrappers

  /** An instant as the database's NOW() gives it. */
  type Timestamp = nat

  datatype Panel = Panel(
    id: nat,
    profileId: int,
    palletNo: string,
    serialCode: string,
    section: Option<string>,
    rowNumber: Option<int>,
    columnNumber: Option<int>,
    scannedAt: Option<Timestamp>,
    createdAt: Timestamp,
    updatedAt: Timestamp)

  datatype Profile = Profile(
    id: int,
    name: string,
    description: Option<string>,
    createdAt: Timestamp,
    updatedAt: Timestamp)

  /** The bounds of PostgreSQL's `integer` type (32-bit two's complement), which every integer column here has. */
  const IntegerMin: int := -0x8000_0000
  const IntegerMax: int := 0x7FFF_FFFF

  /** A value an `integer` column or query parameter accepts; outside it the database reports 22003. */
  predicate FitsInteger(n: int) {
    IntegerMin <= n <= IntegerMax
  }

  /** `panel.scanned_at` is truthy. */
  predicate IsScanned(p: Panel) {
    p.scannedAt.Some?
  }

  /** `panel.section` is truthy: present and not empty. */
  predicate HasSection(p: Panel) {
    p.section.Some? && p.section.value != ""
  }

  /** A place in a profile's layout. */
  datatype Location = Location(section: string, row: int, column: int)

  /** The location a scanned panel holds, when section, row and column are all set. */
  function Occupied(p: Panel): Option<Location> {
    if IsScanned(p) && p.section.Some? && p.rowNumber.Some? && p.columnNumber.Some? then
      Some(Location(p.section.value, p.rowNumber.value, p.columnNumber.value))
    else None
  }

  /** The panel is a scanned panel of `profileId` at `loc`. */
  predicate Occupies(p: Panel, profileId: int, loc: Location) {
    p.profileId == profileId && Occupied(p) == Some(loc)
  }

  /** No two scanned panels of one profile share a (section, row, column). */
  predicate LocationsExclusive(ps: seq<Panel>) {
    forall i, j ::
      (0 <= i < |ps| && 0 <= j < |ps| && i != j && ps[i].profileId == ps[j].profileId
       && Occupied(ps[i]).Some?) ==> Occupied(ps[i]) != Occupied(ps[j])
  }

  predicate SameSerial(p: Panel, profileId: int, serial: string) {
    p.profileId == profileId && p.serialCode == serial
  }

  /** The unique key (profile_id, serial_code). */
  predicate SerialsUnique(ps: seq<Panel>) {
    forall i, j :: 0 <= i < j < |ps| ==> !SameSerial(ps[j], ps[i].profileId, ps[i].serialCode)
  }

  /** Every id was handed out by the SERIAL sequence before `nextId`, each once. */
  predicate IdsBelow(ps: seq<Panel>, nextId: nat) {
    (forall i :: 0 <= i < |ps| ==> ps[i].id < nextId)
    && (forall i, j :: 0 <= i < j < |ps| ==> ps[i].id != ps[j].id)
  }

  /** The contents of the panels table and its id sequence. */
  datatype Table = Table(panels: seq<Panel>, nextId: nat)

  predicate Consistent(t: Table) {
    IdsBelow(t.panels, t.nextId) && SerialsUnique(t.panels) && LocationsExclusive(t.panels)
  }

  /** The first row with the given (profile, serial), as a SELECT without ORDER BY takes it. */
  function FindSerial(ps: seq<Panel>, profileId: int, serial: string): (r: Option<nat>)
    ensures r.Some? ==> r.value < |ps| && SameSerial(ps[r.value], profileId, serial)
    ensures r.Some? ==> forall j :: 0 <= j < r.value ==> !SameSerial(ps[j], profileId, serial)
    ensures r.None? <==> forall j :: 0 <= j < |ps| ==> !SameSerial(ps[j], profileId, serial)
  {
    if ps == [] then None
    else if SameSerial(ps[0], profileId, serial) then Some(0)
    else match FindSerial(ps[1..], profileId, serial)
      case None => None
      case Some(i) => Some(i + 1)
  }

  /** With the unique key in force, the row found is the only one with that key. */
  lemma FindSerialUnique(ps: seq<Panel>, profileId: int, serial: string)
    requires SerialsUnique(ps)
    requires FindSerial(ps, profileId, serial).Some?
    ensures forall j :: 0 <= j < |ps| && SameSerial(ps[j], profileId, serial) ==>
      j == FindSerial(ps, profileId, serial).value
  {
  }
}
