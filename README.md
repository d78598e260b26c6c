# Warehouse inventory: the store, the scan resolver, the ledger and the CSV export

This project models the inventory logic of a single-page warehouse inventory
app, `src/App.js`. The app keeps one object that maps each warehouse name to
the items stored in that warehouse, keyed by scan code. The user picks a role
and a warehouse and then scans codes:

- A code already stocked in the selected warehouse opens the check-in/out
  dialog. Check-in adds the amount, check-out subtracts it, and the result is
  clamped at 0.
- A code stocked only in another warehouse opens the item form, prefilled
  from that warehouse's record with quantity 0.
- An unknown code opens a blank item form.

The item form saves only when the item number, description and color are all
filled in. New warehouses can be added by name. The export groups every record
of every warehouse by item number and color and writes one CSV line per group,
with a column per warehouse.

Modules:

- `Registry` (`registry.dfy`): the store. It keeps warehouse names and codes
  in insertion order, because JavaScript object order drives both the
  resolver's search and the report's columns. It also holds the write
  operation and the item form's data, initial state and submit guard.
- `Resolver` (`resolver.dfy`): what a scan shows.
- `Ledger` (`ledger.dfy`): check-in/out arithmetic and the Confirm guard.
- `Directory` (`directory.dfy`): adding a warehouse.
- `Aggregator` (`aggregator.dfy`): the grouping behind the export. It has
  reference definitions (first occurrence, per-key sums, last record per
  warehouse) that state what each report row holds, independently of how the
  rows are built.
- `Csv` (`csv.dfy`): the CSV text, and what a reader splitting it at commas
  gets back.
- `Inventory` (`inventory.dfy`): the `InventoryApp` class. Its fields are the
  app state the handlers read and write. Its methods are the handlers, each
  proved against the functions above. The file ends with a scripted session
  whose assertions state the expected outcome of each step.

Two facts about the stored records shape the model:

- Quantities can be negative. The item form passes its quantity through
  unchecked (src/App.js:635), so a saved record can hold a negative number.
  Only the ledger clamps at 0, and it clamps check-ins as well as check-outs
  (src/App.js:182).
- Records written by check-in/out carry the scanned code (`qrCode`) because
  they copy the current item (src/App.js:180-181). Records written by the item
  form do not (src/App.js:165-169).

## Model

| member | source | states |
|---|---|---|
| Registry.Put | src/App.js:160-170 | Writing a record keeps the store well formed. The written warehouse/code now holds exactly that record. Every other warehouse/code lookup is unchanged. A missing warehouse is created and its name appended. |
| Registry.PutShape | src/App.js:160-170 | After a write, the store has at most the one new warehouse. Other warehouses are untouched. A new code is appended after the existing codes, and a rewritten code keeps its place. |
| Resolver.FindItemInOtherWarehouses | src/App.js:151-158 | No result exactly when no warehouse other than the selected one holds the code. Otherwise the result is the record of the first such warehouse in directory order. |
| Resolver.Resolve | src/App.js:132-149 | A code held by the selected warehouse opens check-in/out on that record, with the scanned code attached. Otherwise, a code held elsewhere opens a form prefilled from the first holder's record, with quantity 0. Otherwise the form is blank. The three cases are exclusive and exhaustive (each as an if-and-only-if). The shown item always carries the scanned code. |
| Resolver.PrefillForm | src/App.js:139-143 | In the prefill case, the form starts with another warehouse's item number, description and color, and quantity 0. |
| Resolver.BlankFormIncomplete | src/App.js:144-146 | In the blank case, the form starts empty with quantity 0, and its submit guard refuses it. |
| Ledger.Apply | src/App.js:175-185 | A transaction's quantity is never negative. A check-in adds the amount, or gives 0 if the sum is negative. A check-out subtracts the amount while stock covers it, and gives 0 otherwise. All other fields are carried over, and the time and user are re-stamped. |
| Ledger.CheckOutUndoesCheckIn | src/App.js:177-182 | Checking out exactly what was just checked in restores a non-negative stock. |
| Ledger.CheckInUndoesCheckOut | src/App.js:177-182 | For any stored stock, negative included: checking in what was just checked out restores the stock only if the stock covered the check-out. Otherwise the clamp loses the shortfall, and the result is the amount. |
| Ledger.ReplayBounds | src/App.js:175-185 | An empty run changes nothing. After a non-empty run of confirmed transactions, from any stored stock, the quantity is between 0 and the starting stock (0 if it was negative) plus everything checked in. Item number, description and color are unchanged. |
| Ledger.CheckOutBeyondStock | src/App.js:177-182 | Checking out 60 from a stock of 50 leaves 0. |
| Directory.WithWarehouse | src/App.js:193-198 | Adding a warehouse keeps the store well formed. The name is appended to the directory with an empty warehouse. Every existing warehouse, and every lookup, is unchanged. |
| Directory.NewWarehouseKeepsResolution | src/App.js:193-198 | After a warehouse is added, every scan in every selected warehouse resolves exactly as before. |
| Directory.NewWarehouseKeepsReport | src/App.js:193-222 | After a warehouse is added, the report rows are exactly as before. |
| Aggregator.GroupShape | src/App.js:205-222 | The grouped keys are distinct. They are exactly the keys of the filed rows, and exactly the keys that occur among the records. |
| Aggregator.GroupTotals | src/App.js:209-219 | Each group's total is the sum of the quantities of all records with its key. |
| Aggregator.GroupFirstFields | src/App.js:209-217 | Each group keeps the item number, description and color of the first record with its key. |
| Aggregator.GroupOrder | src/App.js:205-222 | Groups are listed in the order in which their keys first occur among the records. |
| Aggregator.GroupCells | src/App.js:207-220 | A group has a quantity for a warehouse exactly when some record with its key is in that warehouse. That quantity is the last such record's, because later records overwrite the cell rather than add to it. |
| Aggregator.EntriesAreRecords | src/App.js:207-208 | For a well-formed store, the visited records are exactly its (warehouse, code, record) triples, and no two visited positions share both warehouse and code. |
| Aggregator.EmptyWarehouseAddsNoEntries | src/App.js:207-208 | A warehouse with no codes adds no records to the visit. |
| Aggregator.ReportKeys | src/App.js:228 | There is one report row per key occurring in the store, no key twice, in order of first occurrence. |
| Aggregator.ReportTotals | src/App.js:228-229 | Each report row carries its key's first record's text fields and the sum of all its key's quantities. |
| Aggregator.ReportCells | src/App.js:230 | Each report row's column for a warehouse is the quantity of the last record with its key in that warehouse, or 0 when there is none. |
| Aggregator.KeySeparatesPairs | src/App.js:209 | When neither color contains '-', two records share a group exactly when they share item number and color. |
| Aggregator.PaletteKeysSeparatePairs | src/App.js:14-17 | For colors from the app's palette, grouping is exactly by item number and color. |
| Aggregator.KeysCollideOffPalette | src/App.js:209 | Off the palette, item "A" in color "B-C" and item "A-B" in color "C" fall into one group. |
| Aggregator.Aggregate | src/App.js:205-222 | The two nested loops build exactly the grouping of all records, visited in warehouse order and then code order. |
| Aggregator.AggregateWarehouse | src/App.js:208-221 | The inner loop over one warehouse's records extends the grouping by exactly that warehouse's records. |
| Aggregator.AddRecord | src/App.js:209-220 | One record opens its group if its key is new, adds its quantity to the total, and sets its warehouse's cell. |
| Csv.SplitJoin | src/App.js:226 | Splitting at the separator recovers fields joined with it, as long as no field contains the separator. |
| Csv.IntToStringValue | src/App.js:229-230 | A rendered number reads back as the number: its decimal digits, after a '-' when it is negative. |
| Csv.IntToStringPlain | src/App.js:229-230 | A rendered number contains no comma and no line break. |
| Csv.HeaderFields | src/App.js:225-226 | When no warehouse name contains a comma or a line break, the header is one line: it ends in its only line break. Split at commas, it gives the four column titles and then the warehouse names in directory order. |
| Csv.LineFields | src/App.js:229-230 | When the text fields contain no comma or line break, each row's line is one line: it ends in its only line break. Split at commas, it gives item number, description, color, total and one quantity per warehouse in directory order (4 + number of warehouses fields). |
| Csv.LineFieldCount | src/App.js:229-230 | Fields are not escaped, so every comma in the item number, description or color adds a field to the line. |
| Csv.LineWithoutWarehouses | src/App.js:229-230 | With no warehouses, a line still ends in a comma, which gives an empty fifth field. |
| Csv.WriteLines | src/App.js:228-231 | The loop over the groups appends exactly one line per group, in group order. |
| Csv.ExportCsv | src/App.js:203-231 | The exported text is the header followed by the lines of the report rows. |
| Registry.InitialForm | src/App.js:591-596 | The form's starting data: the shown item's item number, description, quantity and color. Its meaning is stated by Resolver.PrefillForm and Resolver.BlankFormIncomplete. |
| Registry.FormComplete | src/App.js:599 | The submit guard: item number, description and color are all non-empty. Inventory.InventoryApp.SubmitItem accepts exactly when it holds, and Resolver.BlankFormIncomplete shows that the blank form fails it. |
| Registry.Stamp | src/App.js:165-169 | The stored record for a submitted form: its four fields, the time and the user, and no scanned code. Inventory.InventoryApp.SubmitItem writes exactly this record. |
| Resolver.BlankTemplate | src/App.js:145 | The item shown for an unknown code: empty text fields, quantity 0 and the scanned code. Resolver.Resolve returns it in the blank case, and Resolver.BlankFormIncomplete shows that its form cannot be submitted. |
| Ledger.CanConfirm | src/App.js:569 | The Confirm guard: a positive amount. Inventory.InventoryApp.ConfirmTransaction accepts exactly when it holds, and Ledger.ReplayBounds assumes it of every transaction. |
| Directory.CanAdd | src/App.js:194 | The add guard: a non-empty name that is not yet a warehouse. Inventory.InventoryApp.AddWarehouse accepts exactly when it holds. |
| Aggregator.Key | src/App.js:209 | The grouping key. Aggregator.KeySeparatesPairs, Aggregator.PaletteKeysSeparatePairs and Aggregator.KeysCollideOffPalette state when it does and does not separate (item number, color) pairs. |
| Aggregator.Entries | src/App.js:207-208 | The records in visiting order. Aggregator.EntriesAreRecords states that they are exactly the store's records, each (warehouse, code) pair once. |
| Aggregator.AddEntry | src/App.js:209-220 | One step of the grouping. Aggregator.AddRecord implements it. |
| Aggregator.Group | src/App.js:207-221 | The grouping of a sequence of records. Aggregator.GroupShape, Aggregator.GroupTotals, Aggregator.GroupFirstFields, Aggregator.GroupOrder and Aggregator.GroupCells state what it holds, against reference definitions. |
| Csv.Header | src/App.js:225-226 | The header line. Csv.HeaderFields states what a reader gets back from it. |
| Csv.Cells | src/App.js:230 | A row's warehouse columns: one per warehouse, in directory order, each the row's quantity there or 0. Csv.LineFields states that they come back from a split line in that order. |
| Csv.Line | src/App.js:229-230 | A row's line. Csv.LineFields, Csv.LineFieldCount and Csv.LineWithoutWarehouses state what a reader gets back from it. |
| Registry.Lookup | src/App.js:134 | The record under a code in a warehouse, if both exist; also the test at src/App.js:153. Registry.Put states that it reads back the written record and is otherwise unchanged. Aggregator.EntriesAreRecords states that the visited records are exactly its hits. |
| Resolver.HoldsElsewhere | src/App.js:153 | The loop's test: a warehouse other than the selected one holds the code. Resolver.FindItemInOtherWarehouses states that there is no result exactly when no warehouse passes it, and otherwise returns the first that does. |
| Aggregator.ShelfEntries | src/App.js:208 | One warehouse's records in code order. Aggregator.EntriesAreRecords, through ShelfEntriesMembers and ShelfEntriesOnce, states that it holds exactly that warehouse's records, each code once. |
| Aggregator.QuantityIn | src/App.js:230 | A row's quantity for a warehouse, or 0 when it has none. Aggregator.ReportCells states that this is the last record's quantity with the row's key in that warehouse, or 0 when there is none. |
| Aggregator.PaletteHasNoDash | src/App.js:14-17 | No color of the item form's palette contains '-'. |
| Aggregator.RowsOf | src/App.js:228 | The rows of `allItems` in key order, one per key. Aggregator.ReportOrderIsGroupOrder states that they are listed in the order of `allItems`'s keys. |
| Aggregator.Report | src/App.js:205-228 | The report rows, one per grouped key. Aggregator.ReportKeys, Aggregator.ReportTotals and Aggregator.ReportCells state what each row holds. |
| Csv.Join | src/App.js:226 | Fields separated by a comma, with none before the first or after the last; also the join at src/App.js:230. Csv.SplitJoin states that splitting recovers the fields. |
| Csv.IntToString | src/App.js:229-230 | The rendering of a number. Csv.IntToStringValue and Csv.IntToStringPlain state that it reads back as the number and contains no comma or line break. |
| Csv.LeadingFields | src/App.js:229 | The item number, description, color and total, each followed by a comma. Csv.LineFields states that they come back as the first four fields of the line. |
| Csv.Lines | src/App.js:228-231 | The lines of the report rows, in order. Csv.WriteLines computes it with the forEach loop. |
| Csv.CsvText | src/App.js:224-231 | The whole exported text. Csv.ExportCsv computes it, and Csv.HeaderFields and Csv.LineFields state what a reader gets back from each of its lines. |
| Inventory.InventoryApp.constructor | src/App.js:5-23 | The app starts with one empty "Main Warehouse", no user, no warehouse selected, no code scanned and no current item. |
| Inventory.InventoryApp.SelectUser | src/App.js:257 | Choosing a role sets the acting user. |
| Inventory.InventoryApp.SelectWarehouse | src/App.js:302 | Choosing a warehouse sets the selected warehouse. |
| Inventory.InventoryApp.ScanCode | src/App.js:132-149 | A scan records the code, returns the resolver's decision and installs the item it shows as the current item. |
| Inventory.InventoryApp.SubmitItem | src/App.js:160-173 | Save is accepted exactly when the form is complete (guard at src/App.js:598-602). On acceptance, the stamped form is written under the selected warehouse and scanned code and the dialog closes. Otherwise nothing changes. The store stays well formed and non-empty. |
| Inventory.InventoryApp.ConfirmTransaction | src/App.js:175-191 | Confirm is accepted exactly for a positive amount (guard at src/App.js:569). On acceptance, the current item is written back with the ledger's new quantity and stamps and the dialog closes. Otherwise nothing changes. The store stays well formed. |
| Inventory.InventoryApp.AddWarehouse | src/App.js:193-201 | The add is accepted exactly for a non-empty name that is not yet a warehouse. On acceptance, the empty warehouse is appended. Otherwise the store is unchanged. |

## Left out

- Rendering, modal flags, text-input state and the camera, the prompt-based scanning and the demo seed data are not modelled. They are UI, device I/O or fixture data.
- The browser download (Blob, object URL, link click) and the date in the file name are left out. `Csv.ExportCsv` stops at the CSV text.
- Clock and user identity: `new Date().toISOString()` is a `now` parameter, and the acting user is the `currentUser` field.
- `parseInt` of the quantity text is not modelled. The amount reaches `ConfirmTransaction` as an integer, and the enabled-button guard is `CanConfirm`. Text that `parseInt` cannot read but that is non-empty, such as ".5", still enables Confirm (src/App.js:569), and the ledger then stores NaN (src/App.js:178, :182). Nothing in the model produces NaN.
- The item form's field editing is not modelled. `ItemForm` is the form's final data, and `InitialForm` is where it starts.
- Inventory.InventoryApp.ConfirmTransaction: requires a current item and an existing selected warehouse. The dialog opens only on a record found in the selected warehouse, and the app throws without one.
- The blank template carries no time stamps in the app. The model gives it empty ones, which the form never reads.
- Csv.IntToString: renders an unbounded integer in plain decimal. JavaScript quantities are doubles, so a value of 10^21 or more prints as, for example, "1e+21" (src/App.js:229-230). A 22-digit quantity typed into the item form (src/App.js:635) reaches the export. Exponent notation is not modelled.
- Ledger.Apply: adds and subtracts exactly. In the app, quantities are doubles, and sums above 2^53 round (src/App.js:178), as do the export's totals (src/App.js:219). This rounding is not modelled.
- Object keys are plain strings here. JavaScript's inherited prototype keys and its ordering of integer-like keys before others are not modelled.
- In the app, the shallow copy of the warehouses object shares each warehouse's inner object with the previous state. The model writes a new value, so this aliasing is not modelled.
- The Cancel buttons only close dialogs and change no inventory state, so they are not modelled.
