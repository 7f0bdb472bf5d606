# pv-tracker core, modelled in Dafny

pv-tracker records where photovoltaic panels are installed on a site. A profile is one site. It owns a table of
panels, and each panel starts out unplaced. The packing list (a CSV or spreadsheet) is read and bulk-uploaded with
one row per (pallet, serial). An installer then scans each panel at a (section, row, column). The scan runs
through the Scanner component into the scan route, which marks the panel scanned and placed, and refuses a panel
that is already scanned or a location that is already taken. The dashboard groups the panels by section and draws
one grid per section. The panels table lists and filters them. An NFC test tool shows what a tag holds. The NFC
mapping rules and the export route list a profile's data, and a migration runner sets up the database.

The model has one module per source file, plus shared helper modules:
- `Wrappers`, `Json` and `Http`: Option, JSON values, response shapes.
- `Text`: JavaScript `trim`, `parseInt`, `toLowerCase`, `split`, and the printing of integers.
- `Seqs`: `filter`, `map`, `find`.
- `Sorting`: the default `Array.prototype.sort` on strings, and `ORDER BY` on an integer key.
- `Panels`: the `Panel` and `Profile` rows of `lib/db.ts`, and the integrity properties of the panels table.
- `PanelStore`: the panels table as a class with its queries and its two writes.

Parts that change state are imperative Dafny:
- the scan and upload routes are methods on a `Store` object;
- the Scanner and the NFC test tool are classes whose fields are the component's state variables;
- the section grid is built in an `array2`;
- the migration runner issues statements against a `MigrationDb` object.

Each method is proved equal to a pure specification function of the old state, for example `ScanSpec`,
`UploadSpec`, `PostSpec` and `RunSpec`. The properties the code promises are proved as lemmas about those functions.

Three things outside the model become explicit parameters:
- **Failures:** the thrown store errors (`StoreFault`, the `faulty` set of upload indices, `fails` flags), a body that is not JSON (`None`), and the failing migration statement.
- **Foreign code:** `JSON.parse` and `TextDecoder` become function-typed parameters.
- **The clock:** `NOW()` is a `now: Timestamp` parameter.

The panel store's unique key on (profile_id, serial_code) is stated as the store's own contract. An insert that
would repeat the key is refused with SQLSTATE 23505. The migration files that declare the key are not part of this
model.

## Model

| member | source | states |
|---|---|---|
| Panels.FindSerial | app/api/panels/scan/route.ts:11-15 | the lookup finds the first row with the profile and serial, and None exactly when no row has them |
| Panels.FindSerialUnique | app/api/panels/scan/route.ts:11-15 | under the unique key the row found is the only row with that (profile, serial) |
| PanelStore.IntegerTextRoundTrip | app/api/panels/scan/route.ts:13 | the database's cast of the string profileId reads a printed integer back as itself exactly when it fits the 32-bit integer column, and refuses it (22003) otherwise |
| PanelStore.IntegerText | app/api/panels/scan/route.ts:13 | the text is accepted exactly when it is a well-formed numeral whose value fits the integer column, and then gives that value |
| PanelStore.CastToInteger | app/api/panels/upload/route.ts:23 | a bound parameter is read into the integer column only as a value within its 32-bit range |
| PanelStore.InsertRow | app/api/panels/upload/route.ts:21-35 | the INSERT is refused (23505) exactly when the profile already holds the serial, and then only the id sequence advances; otherwise it appends one unplaced, unscanned row with the next id; either way one id is used up |
| PanelStore.InsertRowConsistent | app/api/panels/upload/route.ts:21-25 | an insert keeps ids unique and below the sequence, the (profile, serial) key unique and scanned locations exclusive |
| PanelStore.PlaceConsistent | app/api/panels/scan/route.ts:27-53 | placing an unscanned panel at a free location (or without a column) keeps the table consistent |
| PanelStore.Store.SelectBySerial | app/api/panels/scan/route.ts:11-15 | the loop returns the first row with the profile and serial, or None |
| PanelStore.Store.SelectOccupant | app/api/panels/scan/route.ts:28-35 | the loop answers true exactly when a scanned panel of the profile holds that section, row and column |
| PanelStore.Store.Insert | app/api/panels/upload/route.ts:21-25 | the store's new contents and the outcome are InsertRow of the old contents, and consistency is kept |
| PanelStore.Store.UpdatePlacement | app/api/panels/scan/route.ts:43-53 | only row i changes: it gets the section, row, column, scan time and update time; the rest and the id sequence are kept |
| ScanRoute.Scan | app/api/panels/scan/route.ts:5-60 | the handler's answer and the new table are ScanSpec of the old table, and the store stays consistent |
| ScanRoute.ScanErrorChangesNothing | app/api/panels/scan/route.ts:17-40 | every refusal (400-level or 500) leaves the table unchanged |
| ScanRoute.ScanInvalidBody | app/api/panels/scan/route.ts:7-8 | a body that is not JSON or that the schema refuses answers 500 "Failed to record scan" and writes nothing |
| ScanRoute.ScanNumericProfileIdFails | app/api/panels/scan/route.ts:8 | a numeric profileId fails scanSchema, so the request answers 500 and writes nothing |
| ScanRoute.ScanUnknownSerial | app/api/panels/scan/route.ts:11-19 | when no row of the profile has the serial, the answer is 404 "Panel not found in database" and nothing changes |
| ScanRoute.ScanAlreadyScanned | app/api/panels/scan/route.ts:22-24 | a panel already scanned answers 409 "Panel already scanned" before any location check, and is not overwritten |
| ScanRoute.ScanLocationOccupied | app/api/panels/scan/route.ts:27-40 | with a column and an in-range row and column, a location held by another scanned panel of the profile answers 409 "Location already occupied by another panel" and nothing changes |
| ScanRoute.ScanWithoutColumn | app/api/panels/scan/route.ts:27-48 | without a column, the scan of an unscanned panel at an in-range row succeeds with no occupancy check and stores the column as null |
| ScanRoute.ScanProfileIdOutOfRange | app/api/panels/scan/route.ts:11-15 | a profileId numeral past the integer range makes the lookup fail: 500 and nothing written, whatever else fails |
| ScanRoute.ScanPositionOutOfRange | app/api/panels/scan/route.ts:27-53 | for a found unscanned panel, a row or column past the integer range fails the conflict query or the UPDATE: 500 and nothing written |
| ScanRoute.ScanSuccessChangesOnlyTarget | app/api/panels/scan/route.ts:43-55 | on success exactly the matching unscanned panel changes, to the given section, row and column with scanned and updated time now; every other row and the id sequence are untouched |
| ScanRoute.ScanPreservesConsistency | app/api/panels/scan/route.ts:27-53 | any scan request keeps "no two scanned panels of a profile share a location" and the unique key |
| ScanRoute.ScanTwiceRefused | app/api/panels/scan/route.ts:22-24 | repeating a successful scan answers 409 "Panel already scanned" and changes nothing |
| UploadRoute.ValidateAll | app/api/panels/upload/route.ts:15 | every record is validated: a result exactly when each record passes panelUploadSchema, holding each parsed record in order |
| UploadRoute.Upload | app/api/panels/upload/route.ts:5-47 | the answer and the new table are UploadSpec of the old table; the loop keeps the store consistent |
| UploadRoute.Accepted | app/api/panels/upload/route.ts:19-35 | reference definition of the inserted records: each comes from the batch and its serial was neither held nor earlier in the batch |
| UploadRoute.Rows | app/api/panels/upload/route.ts:19-35 | reference rows: as many as the accepted records, when every record of the batch is tried in turn and draws one id |
| UploadRoute.RowsOfAccepted | app/api/panels/upload/route.ts:19-35 | row k is a fresh unplaced row of the profile holding the k-th accepted record; the ids increase and lie among the ids the batch drew, so a refused record leaves a gap |
| UploadRoute.TakenMeansDuplicate | app/api/panels/upload/route.ts:29 | a serial the profile holds is exactly one whose insert is refused with 23505 |
| UploadRoute.InsertFromAccepts | app/api/panels/upload/route.ts:18-36 | without other insert errors the loop appends exactly Rows(...) after the existing rows, advances the id sequence by one per record tried, and insertedPanels holds exactly the new rows |
| UploadRoute.InsertFromAbortKeepsPrefix | app/api/panels/upload/route.ts:32-34 | the first failing insert at f stops the loop, keeping exactly what the records before f inserted |
| UploadRoute.AcceptedCovers | app/api/panels/upload/route.ts:19-31 | after a batch every serial of the batch is held by the profile |
| UploadRoute.AcceptedNone | app/api/panels/upload/route.ts:27-31 | a batch whose serials are all held inserts nothing |
| UploadRoute.TakenRows | app/api/panels/upload/route.ts:21-26 | the serials held after the loop are those held before plus the accepted ones |
| UploadRoute.UploadRequiredFields | app/api/panels/upload/route.ts:10-12 | the answer is 400 "Profile ID and panels array are required" exactly when profileId is falsy or panels is not an array, and then nothing changes |
| UploadRoute.UploadInvalidRecordWritesNothing | app/api/panels/upload/route.ts:15 | one record failing the schema refuses the whole batch with 500 before any row is written |
| UploadRoute.UploadSuccess | app/api/panels/upload/route.ts:18-42 | a success inserts exactly the accepted records after the existing rows and uses up one id per record sent; count is the number of accepted records, total is the number sent, count <= total |
| UploadRoute.NoAbortMeansFaultFree | app/api/panels/upload/route.ts:32-34 | a loop that did not abort met no failing insert |
| UploadRoute.UploadUnreadableProfileId | app/api/panels/upload/route.ts:21-23 | a profileId that the database cannot read as an integer fails every non-empty batch with 500 and writes nothing |
| UploadRoute.UploadTwiceInsertsNothing | app/api/panels/upload/route.ts:27-31 | uploading the same body again answers count 0 of the same total and leaves the panels unchanged, while each refused insert uses up one id |
| UploadRoute.HeldBatchInsertsNothing | app/api/panels/upload/route.ts:27-31 | a batch whose serials are all held inserts no row and advances the id sequence by the batch length |
| UploadRoute.InsertFromConsistent | app/api/panels/upload/route.ts:18-36 | the insert loop keeps the table consistent, whether it aborts or not |
| UploadRoute.UploadPreservesConsistency | app/api/panels/upload/route.ts:5-47 | every upload outcome keeps the unique key, the id sequence and location exclusivity |
| UploadRoute.UploadAbortKeepsEarlierRows | app/api/panels/upload/route.ts:32-34 | an insert failing at record f answers 500 and keeps exactly the rows of the accepted records before f and the f ids those records drew (no transaction) |
| UploadRoute.AbortedBatch | app/api/panels/upload/route.ts:19-36 | the loop over a batch whose first failure is at f ends aborted, with the table extended by the rows of the records before f and the sequence by f |
| Validations.RequiredString | lib/validations.ts:9 | `z.string().min(1)`: a value exactly when the member is a non-empty string, and the value is that string |
| Validations.ProfileSchema | lib/validations.ts:3-6 | valid exactly when name is a string of 1 to 255 UTF-16 units and description is absent or a string |
| Validations.PanelUploadSchema | lib/validations.ts:8-11 | valid exactly when pallet_no and serial_code are non-empty strings, taken as given |
| Validations.UploadSchemaDoesNotTrim | lib/validations.ts:9-10 | a pallet number of one space passes unchanged |
| Validations.ScanSchema | lib/validations.ts:13-19 | valid exactly when profileId, serial_code and section are non-empty strings, row is a number >= 1 and column is absent or a number >= 1; the result carries those values |
| Validations.ScanSchemaCoercing | lib/validations.ts:14 | corrected schema: a numeric profileId is accepted as its decimal text; on a string profileId it agrees with ScanSchema |
| Validations.MappingSchema | app/api/nfc-mappings/route.ts:6-11 | valid exactly when profileId is a number >= 1, recordType and fieldPath are non-empty strings and description is absent or a string |
| Json.Property | app/api/panels/upload/route.ts:8 | member access gives the member's value exactly when the value is an object with that member, else undefined |
| ScannerComponent.BodyOf | components/scanner.tsx:116-122 | the posted body has profileId as a number, serial_code and section as strings, row and column as numbers |
| ScannerComponent.TypedNumber | components/scanner.tsx:218 | `parseInt(text) \|\| 1`: the parsed integer when non-zero, else 1; never 0 |
| ScannerComponent.FirstTextRecord | components/scanner.tsx:83 | the first record of type "text", or None exactly when there is none |
| ScannerComponent.Scanner.constructor | components/scanner.tsx:49-56 | the initial state: row 1, column 1, empty serial and section |
| ScannerComponent.Scanner.DetectNfc | components/scanner.tsx:59-64 | NFC support is set only when NDEFReader is present, nothing else changes |
| ScannerComponent.Scanner.Submit | components/scanner.tsx:107-149 | posts the body exactly when the guard holds, and moves to AfterSubmit of the old state |
| ScannerComponent.Scanner.RecordSuccess | components/scanner.tsx:136-138 | column + 1, serial cleared, the success text set; all else kept |
| ScannerComponent.Scanner.Next | components/scanner.tsx:151-154 | the state becomes AfterNext of the old state |
| ScannerComponent.Scanner.Previous | components/scanner.tsx:156-161 | the state becomes AfterPrevious of the old state |
| ScannerComponent.Scanner.TypeRow | components/scanner.tsx:218 | the row becomes TypedNumber of the text, nothing else changes |
| ScannerComponent.Scanner.TypeColumn | components/scanner.tsx:233 | the column becomes TypedNumber of the text, nothing else changes |
| ScannerComponent.Scanner.StartNfcScan | components/scanner.tsx:66-105 | nothing happens without support; otherwise scanning is on exactly when scan() resolved |
| ScannerComponent.Scanner.OnNfcReading | components/scanner.tsx:82-91 | the state becomes AfterNfcRead of the records |
| ScannerComponent.SubmitFailureKeepsPosition | components/scanner.tsx:107-149 | a submit the guard stops, or that fails, leaves the whole state as it was |
| ScannerComponent.SubmitSuccessAdvances | components/scanner.tsx:136-137 | after a success: same section and row, next column, empty serial, so the guard is closed until a serial is entered |
| ScannerComponent.SubmitPostsTrimmed | components/scanner.tsx:109-122 | the posted serial and section are the trimmed inputs and pass the non-empty string checks |
| ScannerComponent.ButtonsKeepColumnPositive | components/scanner.tsx:151-161 | Next and Previous never take a column >= 1 below 1; Previous at 1 stays at 1 |
| ScannerComponent.NextPreviousInverse | components/scanner.tsx:151-161 | Previous undoes Next from column 1 on, and Next undoes Previous above column 1, up to the cleared serial |
| ScannerComponent.NextTimesColumn | components/scanner.tsx:151-154 | n presses of Next move the column n places, keeping section and row |
| ScannerComponent.TypedNumberOfNumeral | components/scanner.tsx:218-233 | a typed non-zero integer is read back as itself |
| ScannerComponent.NfcReadsFirstTextRecord | components/scanner.tsx:83-89 | the serial becomes the decoded text of the first text record, keeping section, row and column |
| ScannerComponent.ScannerBodyRejected | components/scanner.tsx:116-122 | as written, every body the Scanner posts answers 500 "Failed to record scan" and stores nothing |
| ScannerComponent.ScannerBodyAcceptedWhenCoerced | components/scanner.tsx:109-122 | with the corrected schema, a guarded body at row and column >= 1 is accepted with the trimmed serial and section and the position |
| SectionGrid.PanelsIn | components/section-grid.tsx:14-25 | a section's group holds only panels of that section, and is empty exactly when no panel has that section |
| SectionGrid.PanelsInMembers | components/section-grid.tsx:14-25 | a panel is in a group exactly when it is one of the panels and carries that (non-empty) section |
| SectionGrid.GroupsDisjoint | components/section-grid.tsx:14-25 | a panel lies in one group only |
| SectionGrid.PanelsInIsFilter | components/section-grid.tsx:14-25 | each group keeps the input order: it is the filter of the panels by section |
| SectionGrid.GroupBySection | components/section-grid.tsx:14-25 | the reduce loop builds one group per truthy section, each equal to PanelsIn, with distinct keys |
| SectionGrid.SectionOrder | components/section-grid.tsx:27 | the sections are the keys, each once, in strictly ascending plain string order |
| SectionGrid.SectionOrderIsNotNatural | components/section-grid.tsx:27 | "A10" is listed before "A2" |
| SectionGrid.MaxOf | components/section-grid.tsx:49-50 | Math.max: an upper bound that is one of the values |
| SectionGrid.Rows | components/section-grid.tsx:49 | the row coordinates, with null counted as 0 |
| SectionGrid.Columns | components/section-grid.tsx:50 | the column coordinates, with null counted as 0 |
| SectionGrid.LastAtIsLast | components/section-grid.tsx:56-60 | a cell holds the last panel placed at it, and is empty exactly when no panel is placed there |
| SectionGrid.BuildGrid | components/section-grid.tsx:49-60 | the grid has maxRow x maxCol cells, and cell [r][c] holds the last panel placed at (r + 1, c + 1); every write is in bounds |
| SectionGrid.CellColor | components/section-grid.tsx:87-93 | green exactly for a scanned panel, yellow exactly for an unscanned panel, grey exactly for an empty cell |
| SectionGrid.Card | components/section-grid.tsx:46-72 | the badge's scanned count is at most the section's panel count |
| SectionGrid.RenderLayout | components/section-grid.tsx:12-152 | "No sections" exactly when no panel has a section; otherwise one card per section, in ascending order, each with that section's counts and dimensions |
| SectionGrid.BuildCards | components/section-grid.tsx:44 | one card per section name, in order |
| SectionGrid.GroupsCover | components/section-grid.tsx:14-25 | every sectioned panel has its group |
| LayoutView.SelectedProfile | components/layout-view.tsx:17 | the first profile with the selected id; none for a null selection or when no id matches |
| LayoutView.PanelStats | components/layout-view.tsx:18-19 | total is the number of panels; scanned is the number with scanned_at set, so scanned <= total |
| LayoutView.SectionValues | components/layout-view.tsx:20 | exactly the non-empty section values of the panels |
| LayoutView.Dedup | components/layout-view.tsx:20 | `[...new Set(values)]`: the same values, each once |
| LayoutView.IndexOf | components/layout-view.tsx:20 | the position of a value's first occurrence |
| LayoutView.DedupFirstOccurrenceOrder | components/layout-view.tsx:20 | the distinct values are listed in the order of their first occurrence |
| LayoutView.DistinctSectionsComplete | components/layout-view.tsx:20 | every sectioned panel's section is listed, once, and nothing else is |
| PanelsTable.FilteredAreMatches | components/panels-table.tsx:34-39 | the shown rows are exactly the matching panels, as an order-preserving subsequence |
| PanelsTable.EmptyTermKeepsAll | components/panels-table.tsx:34-39 | an empty search term shows every panel |
| PanelsTable.LowerIdempotent | components/panels-table.tsx:36 | lower-casing twice is lower-casing once |
| PanelsTable.IncludesLower | components/panels-table.tsx:36-38 | a substring stays a substring after both strings are lower-cased |
| PanelsTable.SearchIgnoresCase | components/panels-table.tsx:36-38 | the term's case does not change which panels match |
| PanelsTable.SerialSubstringMatches | components/panels-table.tsx:36 | a panel whose serial contains the term verbatim is shown |
| PanelsTable.EmptyNotice | components/panels-table.tsx:221-225 | a notice exactly when no panel matches: "No panels match your search." with a term, "No panels found." without |
| PanelsTable.NoPanelsNoticeOnlyWhenEmpty | components/panels-table.tsx:221-225 | with an empty term, "No panels found." appears exactly when there are no panels |
| PanelsTable.LocationDashIffIncomplete | components/panels-table.tsx:140-142 | the location cell is "-" exactly when the section, row or column is missing or falsy |
| PanelsTable.SplitFirst | components/panels-table.tsx:141 | the text before the first separator holds no separator |
| PanelsTable.LocationTextRoundTrip | components/panels-table.tsx:140-142 | for a section without '-' and a positive row, the cell text reads back as the panel's section, row and column |
| PanelsTable.StatusLabel | components/panels-table.tsx:145-146 | "Installed" exactly when scanned, "Pending" exactly when not |
| PanelsTable.SectionField | components/panels-table.tsx:50 | an empty section field is sent as null, any other as that string |
| PanelsTable.NumberField | components/panels-table.tsx:51-52 | an empty field is null; a non-empty field is the parseInt value of the text, or null when parseInt gives NaN |
| PanelsTable.EditBody | components/panels-table.tsx:49-53 | the PUT body has exactly the members section, row_number and column_number |
| PanelsTable.NumberFieldReadsNumeral | components/panels-table.tsx:51-52 | a typed integer is sent as that number |
| PanelsTable.NumberFieldNaNIsNull | components/panels-table.tsx:51-52 | text without a leading integer (NaN) is sent as null |
| PanelsTable.EditBodyClearsEmptyFields | components/panels-table.tsx:50-52 | emptying all three fields sends null for each |
| PanelDetail.FromCharCode | components/panel-detail-dialog.tsx:31 | String.fromCharCode gives exactly one character |
| PanelDetail.SectionLetter | components/panel-detail-dialog.tsx:28-32 | a section with no leading integer, or one below 1, is shown unchanged; a leading integer >= 1 gives one character |
| PanelDetail.SectionNumberToLetter | components/panel-detail-dialog.tsx:28-31 | sections 1 to 26 become the letters A to Z in order |
| PanelDetail.SectionLettersDistinct | components/panel-detail-dialog.tsx:28-31 | distinct sections 1 to 26 get distinct letters |
| PanelDetail.FirstAndLastLetter | components/panel-detail-dialog.tsx:28-31 | "1" is "A" and "26" is "Z" |
| PanelDetail.LeadingIntegerCounts | components/panel-detail-dialog.tsx:29 | only the leading integer counts: "2B" is shown as "B" |
| PanelDetail.NonNumberedSectionsUnchanged | components/panel-detail-dialog.tsx:30 | "North" and "0" are shown as they are |
| PanelDetail.SectionPastZ | components/panel-detail-dialog.tsx:31 | section 27 is shown as "[" |
| PanelDetail.DetailView | components/panel-detail-dialog.tsx:26-62 | nothing exactly for a null panel; otherwise the serial, pallet, section letter, and "Scanned" exactly when scanned_at is set |
| FileParser.Column | lib/file-parser.ts:19-20 | the preferred column when truthy, else the alias when truthy, else "", then trimmed |
| FileParser.ParsedRowsInOrder | lib/file-parser.ts:17-22 | the output is an order-preserving subsequence of the normalised rows, no longer than the input |
| FileParser.ParsedRowsClean | lib/file-parser.ts:19-22 | every output row has a non-empty, trimmed pallet number and serial code |
| FileParser.RowKeptIffComplete | lib/file-parser.ts:22 | a row is kept exactly when both normalised values are non-empty |
| FileParser.PreferredHeaderWins | lib/file-parser.ts:19 | pallet_no is taken over "Pallet No" when it is non-empty, and the value is trimmed |
| FileParser.EmptyColumnFallsBack | lib/file-parser.ts:19-20 | an empty pallet_no falls back to "Pallet No", and a missing serial_code to "Serial Code" |
| FileParser.NumericCells | lib/file-parser.ts:48 | a numeric cell is written in decimal, and 0 reads as missing |
| FileParser.ReparseClean | lib/file-parser.ts:46-51 | clean rows written back as table rows are read back unchanged |
| FileParser.ParseRowsIdempotent | lib/file-parser.ts:17-22 | normalising already-normalised rows gives them back unchanged (the CSV and spreadsheet paths share the normalisation) |
| Nfc.HexDigit | components/nfc-test-tool.tsx:99 | a lower-case hexadecimal digit |
| Nfc.HexValue | components/nfc-test-tool.tsx:99 | the inverse of HexDigit |
| Nfc.HexByte | components/nfc-test-tool.tsx:99 | `toString(16).padStart(2, "0")`: two hex digits whose value is the byte |
| Nfc.HexBytes | components/nfc-test-tool.tsx:98-99 | one entry per byte |
| Nfc.HexDumpLength | components/nfc-test-tool.tsx:98-100 | the dump of n bytes has 3n - 1 characters, and "" for none |
| Nfc.HexDumpAlphabet | components/nfc-test-tool.tsx:98-100 | only lower-case hex digits and spaces appear |
| Nfc.HexDumpRoundTrip | components/nfc-test-tool.tsx:98-100 | reading a dump back gives the bytes |
| Nfc.HexItemsRoundTrip | components/nfc-test-tool.tsx:98-100 | the pairs of a non-empty dump read back as the bytes |
| Nfc.ParseHexDumpSound | components/nfc-test-tool.tsx:98-100 | every text that reads back as bytes is the dump of those bytes |
| Nfc.ParseHexItemsSound | components/nfc-test-tool.tsx:98-100 | every non-empty text of hex pairs is the dump of the bytes it reads as |
| Nfc.DecodeRecord | components/nfc-test-tool.tsx:88-111 | type and media type kept; text and url records are decoded or "Unable to decode"; every other type is a dump that reads back as the record's bytes |
| Nfc.DecodeRecords | components/nfc-test-tool.tsx:88-112 | one decoded record per tag record, in order |
| Nfc.Yields | components/nfc-test-tool.tsx:165-181 | reference definition per record: a url record yields its text, a type other than text and url yields nothing, a parsed object yields exactly when the member is truthy |
| Nfc.SearchFindsFirstYield | components/nfc-test-tool.tsx:155-185 | getMappedValue's loop answers with the first record that yields a value, and "" when none does |
| Nfc.MappedWithoutData | components/nfc-test-tool.tsx:156 | without scan data the value is "" |
| Nfc.MappedSerialNumber | components/nfc-test-tool.tsx:158-162 | the field "serialNumber", chosen directly or as the custom field, gives the tag serial whatever the records hold |
| Nfc.MappedCustomField | components/nfc-test-tool.tsx:158 | "custom" stands for the custom field's name |
| Nfc.MappedLeadingUrl | components/nfc-test-tool.tsx:165-181 | a url record with no text or url record before it answers with its text, whatever the field |
| Nfc.NfcTestTool.constructor | components/nfc-test-tool.tsx:53-57 | the initial state: not scanning, no data, no field chosen |
| Nfc.NfcTestTool.StartScan | components/nfc-test-tool.tsx:60-83 | the support flag is recorded; without support nothing else changes, with it old data is cleared and scanning follows scan() |
| Nfc.NfcTestTool.OnReading | components/nfc-test-tool.tsx:85-116 | the decoded tag becomes the data and scanning stops; the field choice is kept |
| Nfc.NfcTestTool.StopScan | components/nfc-test-tool.tsx:147-153 | scanning stops and the data and field choice are kept |
| NfcMappings.SelectByProfile | app/api/nfc-mappings/route.ts:27-31 | the profile's mappings (as a multiset), newest first |
| NfcMappings.GetWithoutProfileId | app/api/nfc-mappings/route.ts:18-20 | an absent or empty parameter answers 400 "Profile ID is required" |
| NfcMappings.GetInvalidProfileId | app/api/nfc-mappings/route.ts:22-25 | every non-empty parameter with no leading integer, "abc" among them, answers 400 "Invalid Profile ID" whether or not the query would fail |
| NfcMappings.GetOfReadableId | app/api/nfc-mappings/route.ts:22-33 | a parameter that reads as n lists profile n, or 500 when the query throws or n is past the integer range |
| NfcMappings.GetReadsLeadingInteger | app/api/nfc-mappings/route.ts:22 | "12abc" is answered as "12" would be |
| NfcMappings.SelectedMembers | app/api/nfc-mappings/route.ts:27-31 | the listing holds every mapping of the profile and no other |
| NfcMappings.GetListsProfileNewestFirst | app/api/nfc-mappings/route.ts:27-33 | a successful GET lists exactly the profile's mappings, newest first |
| NfcMappings.NewMapping | app/api/nfc-mappings/route.ts:45-49 | the inserted row takes the next id and the time now |
| NfcMappings.PostErrorWritesNothing | app/api/nfc-mappings/route.ts:54-57 | a failed POST leaves the table as it was |
| NfcMappings.PostInvalidBody | app/api/nfc-mappings/route.ts:43-57 | a body the schema refuses answers 500 "Failed to create NFC mapping" and writes nothing |
| NfcMappings.PostProfileIdOutOfRange | app/api/nfc-mappings/route.ts:45-49 | a profileId past the integer range passes the schema but fails the INSERT: 500 and nothing written |
| NfcMappings.PostAppendsOne | app/api/nfc-mappings/route.ts:45-53 | a success appends exactly one row built from the body, with a profileId from 1 to the integer maximum and an empty or absent description stored as null, and answers with it |
| NfcMappings.PostAllowsDuplicates | app/api/nfc-mappings/route.ts:45-49 | posting the same rule twice stores two rows |
| NfcMappings.PostKeepsIdsIssued | app/api/nfc-mappings/route.ts:45-49 | every id stays below the SERIAL sequence |
| NfcMappings.NewestHeadsListing | app/api/nfc-mappings/route.ts:30 | a row newer than every other heads its profile's listing |
| NfcMappings.PostedRuleListedFirst | app/api/nfc-mappings/route.ts:27-49 | a rule posted later than every stored one heads the next listing of its profile |
| NfcMappings.MappingStore.Insert | app/api/nfc-mappings/route.ts:45-49 | appends NewMapping of the old table and advances the sequence |
| NfcMappings.Post | app/api/nfc-mappings/route.ts:40-58 | the answer and the new table are PostSpec of the old table |
| Export.Project | app/api/panels/export/route.ts:31-39 | the eight selected columns of each panel, in order |
| Export.ProfilePanels | app/api/panels/export/route.ts:40-42 | the profile's panels (as a multiset), oldest first |
| Export.ExportRequiresBoth | app/api/panels/export/route.ts:16-18 | 400 "Profile ID and format are required" exactly when either parameter is absent or empty |
| Export.ExportChecksIdBeforeFormat | app/api/panels/export/route.ts:20-23 | every non-empty id with no leading integer, "abc" among them, is reported ("Invalid Profile ID") whatever the non-empty format |
| Export.ExportRefusesOtherFormats | app/api/panels/export/route.ts:25-27 | with any id that has a leading integer, a format other than csv and xlsx is refused with 400 before the query runs |
| Export.ExportProfileIdOutOfRange | app/api/panels/export/route.ts:29-43 | a readable id past the integer range makes the query fail: 500 for either format |
| Export.ProfilePanelsMembers | app/api/panels/export/route.ts:40-41 | the selection holds every panel of the profile and no other |
| Export.ProjectMembers | app/api/panels/export/route.ts:31-39 | every projected row comes from a panel, and every panel gives one |
| Export.ExportedRows | app/api/panels/export/route.ts:30-43 | the exported rows are the columns of exactly the profile's panels, oldest first |
| Export.ExportSuccess | app/api/panels/export/route.ts:49-67 | a download needs an in-range id; its content type is text/csv exactly for csv and the spreadsheet type exactly for xlsx; it is named panels_profile_id.format and sent as an attachment |
| Export.FilenameRoundTrip | app/api/panels/export/route.ts:52-59 | the file name ends with the format, and the profile id reads back from after the prefix |
| Migrations.Candidates | scripts/run-migrations.js:25 | exactly the ".sql" names of the directory, each as often as there, in ascending order |
| Migrations.Statements | scripts/run-migrations.js:40 | the pieces between ';' that are not blank, in order; none holds ';' |
| Migrations.StatementsOfJoin | scripts/run-migrations.js:40 | statements joined with ';' are split back one for one |
| Migrations.Pending | scripts/run-migrations.js:30-34 | the files a run executes are exactly the candidates not recorded before it |
| Migrations.MigrateFaultFree | scripts/run-migrations.js:30-57 | without failures every pending file runs once, in order: its statements are issued, then its name is recorded |
| Migrations.MigrateStopsAtFailure | scripts/run-migrations.js:39-55 | a failing unrecorded file exits with status 1: earlier pending files recorded, its statements before the failing one issued, no later file run |
| Migrations.MigrateAllRecorded | scripts/run-migrations.js:31-34 | when every candidate is recorded, nothing is issued and nothing recorded |
| Migrations.RerunDoesNothing | scripts/run-migrations.js:27-34 | running again after a complete run does nothing |
| Migrations.SetupFailureExits | scripts/run-migrations.js:14-63 | a failing setup exits with status 1 and changes nothing |
| Migrations.MigrationDb.Execute | scripts/run-migrations.js:42 | the statement is appended to those issued; the records are kept |
| Migrations.MigrationDb.Record | scripts/run-migrations.js:44 | the name is appended to the records; the statements issued are kept |
| Migrations.MigrationDb.RecordedNames | scripts/run-migrations.js:27-28 | the set of recorded names |
| Migrations.RunFileIn | scripts/run-migrations.js:39-56 | one pending file: its statements up to a failure, then its record; whether the loop goes on, as RunFile |
| Migrations.RunMigrations | scripts/run-migrations.js:14-64 | the outcome and the new database are RunSpec of the old one |
| Text.Trim | lib/file-parser.ts:19-20 | the result is a contiguous piece of the input, everything dropped before and after it is white space, and neither end of the result is white space |
| Text.TrimIdempotent | lib/file-parser.ts:19-20 | trimming twice is trimming once |
| Text.TrimNoop | lib/file-parser.ts:19-20 | text without white space at its ends is unchanged |
| Text.JsLength | lib/validations.ts:4 | a string's UTF-16 length lies between its character count and twice that |
| Text.ToLower | components/panels-table.tsx:36-38 | lower-casing keeps the length |
| Text.IncludesEmpty | components/panels-table.tsx:36 | every string includes "" |
| Text.Split | scripts/run-migrations.js:40 | at least one piece; no piece holds the separator; joining them gives the input |
| Text.SplitJoin | scripts/run-migrations.js:40 | pieces free of the separator are split back out of their join |
| Text.NatToString | app/api/panels/export/route.ts:52 | the numeral has no leading zero and its digits have the number's value |
| Text.ParseIntReadsLeadingNumber | app/api/nfc-mappings/route.ts:22 | parseInt skips leading white space and reads the leading integer, whatever follows it |
| Text.ParseIntLeading | app/api/nfc-mappings/route.ts:22 | a numeral followed by a non-digit is read as its integer |
| Text.ParseIntRoundTrip | app/api/panels/export/route.ts:20 | every printed integer is read back by parseInt |
| Text.ParseIntNoDigits | app/api/panels/export/route.ts:20-21 | "abc" gives NaN |
| Seqs.Filter | components/layout-view.tsx:19 | the kept elements satisfy the predicate, and every element that does is kept |
| Seqs.Count | components/section-grid.tsx:46 | the count is 0 exactly when no element passes, and the length exactly when all do |
| Seqs.FilterLength | components/layout-view.tsx:19 | `filter(p).length` is the count of p |
| Seqs.FirstIndex | components/layout-view.tsx:17 | the first index whose element passes, and None exactly when none does |
| Sorting.SortStrings | components/section-grid.tsx:27 | the default sort returns a sorted permutation of its input |
| Sorting.SortDistinct | components/section-grid.tsx:27 | distinct strings come out strictly ascending, each once |
| Sorting.LexLessTotal | components/section-grid.tsx:27 | plain string order is total on distinct strings |
| Sorting.LexLessTransitive | components/section-grid.tsx:27 | plain string order is transitive |
| Sorting.SortBy | app/api/panels/export/route.ts:42 | ORDER BY an integer key, ascending: a permutation sorted by the key |

## Left out

- Rendering:
  - JSX rendering, styling, toasts, dialogs opening and closing, and the Scanner's `isSubmitting` flag.
  - `Date` and `toLocaleString` formatting of timestamps.
  - The completion percentage of the dashboard (floating point).
- Foreign code modelled only through its results:
  - I/O: the network and `fetch`, and the file system (`readdirSync`, `readFileSync`).
  - The readers and serialisers: Papa/XLSX parsing and serialisation, and the FileReader promise plumbing of `parseCSV` and `parseExcel`.
  - Decoders: `TextDecoder` and `JSON.parse`, which are function parameters.
  - SQL: it is not executed. The migration runner logs the statements it issues, and the migrations table is a list of names.
- Concurrency: scan and upload requests are modelled one at a time. The scan route's check and update are separate statements with no transaction.
- Panel rows keep one `now` per request. The upload uses one `now` for its whole batch. Mapping rows keep only `created_at` among their timestamps.
- `revalidatePath` in the mapping POST and all console logging have no effect on the model.
- The PUT and DELETE routes behind the panels table's edit and delete buttons are not part of this model. The model builds only the PUT body. A PUT can set a location that another scanned panel already holds, so location exclusivity is proved for the scan and upload routes only.
- JSON numbers are integers. Fractional numbers (a row of 1.5) are not modelled.
- FileParser.CellString: a numeric spreadsheet cell holds an integer and is printed in plain decimal. Spreadsheet numbers are doubles, so fractional values ("1.5"), values from 10^21 up ("1e+21") and integers past 2^53 are not modelled.
- FileParser.NumericCells: states the decimal text of integer cells only, for the reason in the line above.
- InsertFrom: an upload INSERT that fails with an error other than 23505 (an index in `faulty`) is modelled as drawing no id. PostgreSQL draws one when the failing check comes after the SERIAL default, as a foreign-key violation does. The same holds for a failing mapping INSERT (`fails` in `NfcMappings.PostSpec`). A value past the integer range fails before any id is drawn, as the model has it.
- The SERIAL sequences are unbounded: running out of 32-bit ids is not modelled.
- Property access `j[key]` models the own members of objects only. Prototype members such as `constructor` are not modelled, in the upload body, in `getMappedValue` or in the section grid's `reduce` accumulator.
- PanelDetail.FromCharCode: a code point of the model stands for one UTF-16 unit. A lone surrogate unit becomes U+FFFD, because Dafny characters cannot hold one.
- Text.ParseIntReadsLeadingNumber: parseInt is modelled as decimal only. The "0x" prefix that parseInt without a radix accepts is not modelled.
- Text.ParseInt: gives an exact integer. Number.parseInt gives a double, so a numeral past 2^53 is rounded (9007199254740993 reads as 9007199254740992); the model does not round, which only changes PanelDetail.SectionLetter for such numbers.
- PanelStore.IntegerText: follows PostgreSQL's integer input before version 16 (optional sign, decimal digits, surrounding white space). The underscores between digits and the 0x, 0o and 0b prefixes that version 16 also accepts are not modelled: the model refuses such text with a 500 where the database would read it.
- Text.ToLower: lower-cases ASCII letters only, not the full Unicode case mapping.
- Sorting.SortStrings: compares Unicode scalar values, while JavaScript compares UTF-16 units. The two orders differ only between astral characters and U+E000 to U+FFFF.
- SectionGrid.BuildGrid: requires row and column numbers that are not negative. A negative maximum makes `Array(maxRow)` throw in the source, and that render error is not modelled.
- Two checks are taken as written:
  - The scan route's conflict query does not exclude the scanned panel itself. That panel is unscanned at that point, so it can never be the occupant.
  - `profileId` is compared by the database's text-to-integer cast (`PanelStore.IntegerText`).

## Findings

| source | as written | input that shows it | evidently intended | confidence | as-written member | corrected member |
|---|---|---|---|---|---|---|
| lib/validations.ts:14 | scanSchema requires profileId to be a string, but the Scanner (components/scanner.tsx:116-117) posts its numeric prop | Scanner state serial "S1", section "A", row 1, column 1, profileId 7: the body `{"profileId": 7, ...}` fails scanSchema and the route answers 500 "Failed to record scan" | the numeric id is accepted, as `z.coerce.string()` would accept it, and the scan is recorded | not executed | ScannerComponent.ScannerBodyRejected | ScannerComponent.ScannerBodyAcceptedWhenCoerced |
