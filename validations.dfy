/**
 * The zod schemas of lib/validations.ts (and the mapping schema of the nfc-mappings
 * route) as checks on a JSON request body. A check either yields the typed input or
 * names the first field that fails; string lengths are UTF-16 lengths, as zod
 * measures them, and no schema trims.
 */
module Validations {
  import opened Wrappers
  import opened Json
  import opened Text

  datatype Checked<+T> = Valid(value: T) | Invalid(field: string)

  datatype ProfileInput = ProfileInput(name: string, description: Option<string>)
  datatype PanelUploadInput = PanelUploadInput(palletNo: string, serialCode: string)
  datatype ScanInput = ScanInput(
    profileId: string, serialCode: string, section: string, row: int, column: Option<int>)
  datatype MappingInput = MappingInput(
    profileId: int, recordType: string, fieldPath: string, description: Option<string>)

  /** `z.string().min(1)` on a required member. */
  function RequiredString(j: Json, key: string): (r: Option<string>)
    ensures r.Some? <==>
      (Property(j, key).Some? && Property(j, key).value.JString? && Property(j, key).value.s != "")
    ensures r.Some? ==> Property(j, key) == Some(JString(r.value))
  {
    match Property(j, key)
    case Some(JString(s)) => if JsLength(s) >= 1 then Some(s) else None
    case _ => None
  }

  /** `z.string().optional()`: absent is fine, present must be a string (null is not). */
  function OptionalString(j: Json, key: string): Checked<Option<string>> {
    match Property(j, key)
    case None => Valid(None)
    case Some(JString(s)) => Valid(Some(s))
    case Some(_) => Invalid(key)
  }

  /** `z.number().min(1)` on a required member. */
  function RequiredPositive(j: Json, key: string): Option<int> {
    match Property(j, key)
    case Some(JNumber(n)) => if n >= 1 then Some(n) else None
    case _ => None
  }

  /** `z.number().min(1).optional()`. */
  function OptionalPositive(j: Json, key: string): Checked<Option<int>> {
    match Property(j, key)
    case None => Valid(None)
    case Some(JNumber(n)) => if n >= 1 then Valid(Some(n)) else Invalid(key)
    case Some(_) => Invalid(key)
  }

  /** profileSchema: a name of 1 to 255 characters and an optional description. */
  function ProfileSchema(j: Json): (r: Checked<ProfileInput>)
    ensures r.Valid? <==>
      (exists name :: Property(j, "name") == Some(JString(name)) && 1 <= JsLength(name) <= 255)
      && OptionalString(j, "description").Valid?
  {
    match Property(j, "name")
    case Some(JString(name)) =>
      if 1 <= JsLength(name) <= 255 then
        match OptionalString(j, "description")
        case Valid(d) => Valid(ProfileInput(name, d))
        case Invalid(f) => Invalid(f)
      else Invalid("name")
    case _ => Invalid("name")
  }

  /** panelUploadSchema: non-empty pallet_no and serial_code, taken as they are. */
  function PanelUploadSchema(j: Json): (r: Checked<PanelUploadInput>)
    ensures r.Valid? <==> RequiredString(j, "pallet_no").Some? && RequiredString(j, "serial_code").Some?
    ensures r.Valid? ==>
      Property(j, "pallet_no") == Some(JString(r.value.palletNo))
      && Property(j, "serial_code") == Some(JString(r.value.serialCode))
  {
    match RequiredString(j, "pallet_no")
    case None => Invalid("pallet_no")
    case Some(pallet) =>
      match RequiredString(j, "serial_code")
      case None => Invalid("serial_code")
      case Some(serial) => Valid(PanelUploadInput(pallet, serial))
  }

  /** A blank pallet number passes: the schema does not trim. */
  lemma UploadSchemaDoesNotTrim()
    ensures PanelUploadSchema(JObject(map["pallet_no" := JString(" "), "serial_code" := JString("S1")]))
         == Valid(PanelUploadInput(" ", "S1"))
  {
  }

  /**
   * scanSchema: a non-empty string profileId (a number is refused), non-empty
   * serial_code and section, row at least 1 and an optional column at least 1.
   */
  function ScanSchema(j: Json): (r: Checked<ScanInput>)
    ensures r.Valid? <==>
      && RequiredString(j, "profileId").Some?
      && RequiredString(j, "serial_code").Some?
      && RequiredString(j, "section").Some?
      && RequiredPositive(j, "row").Some?
      && OptionalPositive(j, "column").Valid?
    ensures r.Valid? ==>
      && Property(j, "profileId") == Some(JString(r.value.profileId))
      && Property(j, "serial_code") == Some(JString(r.value.serialCode))
      && Property(j, "section") == Some(JString(r.value.section))
      && Property(j, "row") == Some(JNumber(r.value.row)) && r.value.row >= 1
      && (r.value.column.None? <==> Property(j, "column").None?)
      && (r.value.column.Some? ==> Property(j, "column") == Some(JNumber(r.value.column.value))
                                   && r.value.column.value >= 1)
  {
    match RequiredString(j, "profileId")
    case None => Invalid("profileId")
    case Some(profileId) => ScanFields(j, profileId)
  }

  /** The members of scanSchema after profileId. */
  function ScanFields(j: Json, profileId: string): Checked<ScanInput> {
    match RequiredString(j, "serial_code")
    case None => Invalid("serial_code")
    case Some(serial) =>
      match RequiredString(j, "section")
      case None => Invalid("section")
      case Some(section) =>
        match RequiredPositive(j, "row")
        case None => Invalid("row")
        case Some(row) =>
          match OptionalPositive(j, "column")
          case Invalid(f) => Invalid(f)
          case Valid(column) => Valid(ScanInput(profileId, serial, section, row, column))
  }

  /**
   * scanSchema with profileId coerced to a string, so that the numeric id the Scanner
   * component sends is accepted (as `z.coerce.string().min(1)` would).
   */
  function ScanSchemaCoercing(j: Json): (r: Checked<ScanInput>)
    ensures (exists n :: Property(j, "profileId") == Some(JNumber(n))) ==>
      (r.Valid? <==> ScanFields(j, "").Valid?)
    ensures forall n :: Property(j, "profileId") == Some(JNumber(n)) && r.Valid? ==>
      r.value.profileId == IntToString(n)
    ensures RequiredString(j, "profileId").Some? ==> r == ScanSchema(j)
  {
    match Property(j, "profileId")
    case Some(JNumber(n)) => ScanFields(j, IntToString(n))
    case _ => ScanSchema(j)
  }

  /** The nfc-mappings POST schema: profileId a number at least 1, non-empty type and path. */
  function MappingSchema(j: Json): (r: Checked<MappingInput>)
    ensures r.Valid? <==>
      && RequiredPositive(j, "profileId").Some?
      && RequiredString(j, "recordType").Some?
      && RequiredString(j, "fieldPath").Some?
      && OptionalString(j, "description").Valid?
    ensures r.Valid? ==>
      && Property(j, "profileId") == Some(JNumber(r.value.profileId)) && r.value.profileId >= 1
      && Property(j, "recordType") == Some(JString(r.value.recordType))
      && Property(j, "fieldPath") == Some(JString(r.value.fieldPath))
      && r.value.description == OptionalString(j, "description").value
  {
    match RequiredPositive(j, "profileId")
    case None => Invalid("profileId")
    case Some(profileId) =>
      match RequiredString(j, "recordType")
      case None => Invalid("recordType")
      case Some(recordType) =>
        match RequiredString(j, "fieldPath")
        case None => Invalid("fieldPath")
        case Some(fieldPath) =>
          match OptionalString(j, "description")
          case Invalid(f) => Invalid(f)
          case Valid(d) => Valid(MappingInput(profileId, recordType, fieldPath, d))
  }
}
