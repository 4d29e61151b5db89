# Load tracker: a verified model of the import and the web application's data rules

The load tracker keeps one SQL Server table, `dbo.LoadTracker`, with one row
per shipment line (`DETAIL_LINE_ID`). Two programs share it:

- **The importer** (`LoadTrackerImporter`) reads the CSV of the live sheet
  on a schedule. It collapses the records by id, with the later record
  winning. It then reconciles the table with them in one transaction, under
  an application lock. Rows whose 27 feed-owned columns changed are
  updated and new ids are inserted. Nothing is deleted, and the columns the
  web users edit are never written.
- **The web application** (`LoadTrackerRepository`, `LoadTrackerHub`)
  lists a customer's loads for a month and derives the texts it shows. It
  writes three user-owned columns of one row of the caller's customer. It
  lists the customers with their call names. It lets a SignalR
  connection join a customer's notification group only when the session
  may see that customer.

The model is in Dafny. It has one module per concern:

| module | file | what it holds |
|---|---|---|
| `Wrappers` | Wrappers.dfy | `Option` and `Result` |
| `Text` | Text.dfy | .NET white space, `Trim`, `IsNullOrWhiteSpace`, ordinal-ignore-case equality, `int.TryParse`, `bool.TryParse` |
| `Schema` | Schema.dfy | the table's columns, split into feed-owned `SyncCols` and user-owned `EditCols`; the class `LoadTable` holding the rows; the importer's change test |
| `Coercion` | Coercion.dfy | `DbStr`, `DbDt`, `DbDbl`, `TryInt` |
| `Snapshot` | Snapshot.dfy | `ReadCsvToDataTable`: keep-last deduplication and the staging rows |
| `Reconciliation` | Reconciliation.dfy | `UpsertAsync`'s UPDATE and INSERT, and `TryAcquireAppLockAsync` |
| `ImportRun` | ImportRun.dfy | `ImportOnceAsync`: run guard, short-circuit, retry loop; the class `ImportCoordinator` holds the two static fields |
| `Ordering` | Ordering.dfy | what an `ORDER BY` promises, and the ordinal string order |
| `Repository` | Repository.dfy | the month query, the row mapping, `ComputeOnTime`, `BuildRadText`, the edit, the customer list and the customer name |
| `Hub` | Hub.dfy | `JoinGroup` |
| `Ownership` | Ownership.dfy | the importer and the edit never overwrite each other's work |

State is modelled as it is in the program:

- The process-wide `_runLock` and `_lastImportedWriteUtc` are fields of
  `ImportCoordinator`.
- The table is the `rows` map of a `LoadTable` object. `Upsert` and
  `UpdateEditableFields` update it in place.
- The two loops of `ReadCsvToDataTable`, the retry loop and the `foreach`
  of `GetLoadsForMonthAsync` are `while`/`for` loops. Each is proved
  against a specification function.

The SQL statements have no loops in the program, so they are modelled as
functions on the row map: `Reconcile`, `ApplyEdit`, `InMonth`. The reads
are modelled as predicates that describe every result SQL Server may
return (`IsMonthQuery`, `IsCustomerList`). Lemmas prove that such a result
always exists, and that it is unique where the `ORDER BY` leaves no ties.

What the environment supplies is passed in as parameters:

- **The file system** is a `SourceFile` value: whether the file exists, its
  write time, whether the copy throws, and the records CsvHelper reads.
- **The database** supplies each attempt's outcome (returned with an
  `sp_getapplock` code, threw a `SqlException` with a number, or threw
  something else) as a function from attempt number to `AttemptOutcome`.
- **The culture-specific date and number parsers** are a `Parsers` value.
- **Date formatting** is a `Formats` value.

Instants are `nat` ticks. There are 864 000 000 000 ticks in a day, and
`CalendarDay` is the integer quotient.

## Model

| member | source | states |
|---|---|---|
| Text.NullIfBlank | LoadTrackerExcelImport/Services/LoadTrackerImporter.cs:416 | `DbStr`: null exactly for null or all-white-space input; otherwise the `Trim`med text, which is never empty and neither starts nor ends with white space |
| Text.NullIfBlankIdempotent | app/LoadTrackerWeb/Data/LoadTrackerRepository.cs:202-203 | normalising a value that is already normalised leaves it unchanged |
| Text.TrimWherePadded | LoadTrackerExcelImport/Services/LoadTrackerImporter.cs:416 | trimming text padded on both sides with trimmed characters gives the trimmed text itself |
| Text.ParseInteger | LoadTrackerExcelImport/Services/LoadTrackerImporter.cs:438 | `int.TryParse` with `NumberStyles.Integer`: white space, an optional sign, digits, white space and trailing NULs; it succeeds only with a value inside the 32-bit range and never on white space alone |
| Text.ParseIntegerPadded | LoadTrackerExcelImport/Services/LoadTrackerImporter.cs:438 | the decimal text of every 32-bit integer, with white space on either side and NUL characters at the very end, parses back to that integer |
| Text.ParseIntegerTrailingNul | LoadTrackerExcelImport/Services/LoadTrackerImporter.cs:438 | "12" followed by a NUL parses as 12 |
| Text.ParseIntegerNulThenSpace | LoadTrackerExcelImport/Services/LoadTrackerImporter.cs:438 | white space after the trailing NULs makes the parse fail |
| Text.ParseIntegerRoundTrip | LoadTrackerExcelImport/Services/LoadTrackerImporter.cs:438 | the decimal text of every 32-bit integer, negative ones included, parses back to that integer |
| Text.ParseBool | LoadTrackerExcelImport/Services/LoadTrackerImporter.cs:49 | `bool.TryParse` yields true exactly for "true" and false exactly for "false", ignoring letter case and surrounding white space and NULs; any other text and null fail |
| Coercion.Coerce | LoadTrackerExcelImport/Services/LoadTrackerImporter.cs:418-432 | `DbDt`/`DbDbl` never fail. Blank input gives null. Otherwise the first parser's value is used when it has one, then the fallback's, and null only when both fail |
| Coercion.CoerceIgnoresPadding | LoadTrackerExcelImport/Services/LoadTrackerImporter.cs:418-432 | white space added before or after any field never changes what it coerces to |
| Coercion.DbDt | LoadTrackerExcelImport/Services/LoadTrackerImporter.cs:418-424 | en-US first, then the invariant culture; its behaviour is the contract of `Coerce` and `CoerceIgnoresPadding` |
| Coercion.DbDbl | LoadTrackerExcelImport/Services/LoadTrackerImporter.cs:426-432 | the invariant culture first, then en-US; its behaviour is the contract of `Coerce` and `CoerceIgnoresPadding` |
| Coercion.TryInt | LoadTrackerExcelImport/Services/LoadTrackerImporter.cs:434-439 | an id is produced only from non-blank text, and always fits in 32 bits |
| Coercion.TryIntRoundTrip | LoadTrackerExcelImport/Services/LoadTrackerImporter.cs:434-439 | every 32-bit id written in decimal, negative ids included, is accepted with its value |
| Schema.Changed | LoadTrackerExcelImport/Services/LoadTrackerImporter.cs:332-359 | the UPDATE's WHERE clause holds exactly when the two rows differ once every null is replaced by '', 0 or 1900-01-01 |
| Schema.ChangedIsADifference | LoadTrackerExcelImport/Services/LoadTrackerImporter.cs:332-359 | identical rows are never a change, and the test is symmetric |
| Schema.NullAndZeroPalletsAreNoChange | LoadTrackerExcelImport/Services/LoadTrackerImporter.cs:351 | a NULL PALLETS replaced by 0 is not a change |
| Schema.NullAndEpochDateAreNoChange | LoadTrackerExcelImport/Services/LoadTrackerImporter.cs:348 | a NULL DELIVER_BY replaced by 1900-01-01 is not a change |
| Snapshot.BuildColsNormalised | LoadTrackerExcelImport/Services/LoadTrackerImporter.cs:143-176 | every text column of a staged row is null or trimmed non-empty text |
| Snapshot.BuildCols | LoadTrackerExcelImport/Services/LoadTrackerImporter.cs:140-177 | the staged row built from one record; `BuildColsNormalised` and `BuildColsIgnoresUnownedFields` state what it keeps |
| Snapshot.BuildColsIgnoresUnownedFields | LoadTrackerExcelImport/Services/LoadTrackerImporter.cs:140-177 | PO #, ACTUAL_PICKUP, ACTUAL_DELIVERY and SF_SHORT_DESC in the CSV never reach the staged row |
| Snapshot.NormalisedTextComparesExactly | LoadTrackerExcelImport/Services/LoadTrackerImporter.cs:333 | for normalised text, `ISNULL(a,'') <> ISNULL(b,'')` is exactly inequality |
| Snapshot.LastByKeyKeepsLast | LoadTrackerExcelImport/Services/LoadTrackerImporter.cs:129-135 | an id is kept exactly when some record's id parses to it, and it is kept with the last such record in file order; records whose id does not parse are dropped |
| Snapshot.LastByKey | LoadTrackerExcelImport/Services/LoadTrackerImporter.cs:129-135 | the keep-last dictionary; `LastByKeyKeepsLast` states which record each id keeps, and `IndexByKey` proves the loop equal to it |
| Snapshot.FirstSeenKeys | LoadTrackerExcelImport/Services/LoadTrackerImporter.cs:138 | the dictionary's enumeration order lists every kept id exactly once |
| Snapshot.StagingOf | LoadTrackerExcelImport/Services/LoadTrackerImporter.cs:287-297 | the bulk copy makes `#staging` hold each staged row under its id and nothing else |
| Snapshot.IndexByKey | LoadTrackerExcelImport/Services/LoadTrackerImporter.cs:129-135 | the first loop leaves `byId` equal to the keep-last deduplication, and its keys in first-insertion order |
| Snapshot.StageInOrder | LoadTrackerExcelImport/Services/LoadTrackerImporter.cs:137-181 | the second loop builds one row per kept id, in dictionary order, with distinct ids; staged, it is the built columns of each kept record |
| Snapshot.ReadCsvToDataTable | LoadTrackerExcelImport/Services/LoadTrackerImporter.cs:112-182 | the table has exactly one row per distinct parsed id, in first-seen order, and its staging is the columns built from the last record of each id |
| Reconciliation.UpdatePassKeepsIds | LoadTrackerExcelImport/Services/LoadTrackerImporter.cs:300-331 | the UPDATE neither adds nor removes rows |
| Reconciliation.UpdatePass | LoadTrackerExcelImport/Services/LoadTrackerImporter.cs:300-359 | the UPDATE; `UpdatePassKeepsIds`, `ReconcileRewritesChanged` and `ReconcileKeepsEdits` state its effect |
| Reconciliation.InsertPass | LoadTrackerExcelImport/Services/LoadTrackerImporter.cs:366-388 | the INSERT of absent staged ids; `ReconcileIds` and `ReconcileInsertsNew` state its effect |
| Reconciliation.Reconcile | LoadTrackerExcelImport/Services/LoadTrackerImporter.cs:300-388 | the UPDATE then the INSERT; the `Reconcile…` lemmas and `ReconcileIdempotent` state the result |
| Reconciliation.ReconcileIds | LoadTrackerExcelImport/Services/LoadTrackerImporter.cs:366-388 | afterwards the ids are the old ids plus the staged ids; the added ids are exactly the staged ids that were absent; no row is deleted |
| Reconciliation.ReconcileKeepsEdits | LoadTrackerExcelImport/Services/LoadTrackerImporter.cs:300-331 | the user-owned columns of every existing row are unchanged |
| Reconciliation.ReconcileLeavesUnstaged | LoadTrackerExcelImport/Services/LoadTrackerImporter.cs:330-331 | a row whose id is not staged is untouched |
| Reconciliation.ReconcileRewritesChanged | LoadTrackerExcelImport/Services/LoadTrackerImporter.cs:300-359 | an existing row changes if and only if its id is staged and the change test holds; it then carries the staged columns |
| Reconciliation.ReconcileInsertsNew | LoadTrackerExcelImport/Services/LoadTrackerImporter.cs:366-388 | a staged id that was absent is inserted with its staged columns and the table's defaults for the rest |
| Reconciliation.ReconcileReflectsStaging | LoadTrackerExcelImport/Services/LoadTrackerImporter.cs:300-388 | afterwards every staged row is present and equal to its staged columns up to coalescing |
| Reconciliation.ReconcileIdempotent | LoadTrackerExcelImport/Services/LoadTrackerImporter.cs:300-395 | reconciling the same staging again updates nothing, inserts nothing and leaves the table as it is |
| Reconciliation.AppLockGranted | LoadTrackerExcelImport/Services/LoadTrackerImporter.cs:398-414 | the lock is held exactly when `sp_getapplock` returned a code and it is non-negative |
| Reconciliation.Upsert | LoadTrackerExcelImport/Services/LoadTrackerImporter.cs:227-396 | without the lock nothing changes and (0, 0) is returned. With it, the table becomes the reconciliation of the old table with the staging, and the counts are the number of changed rows and of new ids |
| Reconciliation.StatusChangeExample | LoadTrackerExcelImport/Services/LoadTrackerImporter.cs:300-395 | a status change on one row and a new id give one update and one insert, with the edited columns of the existing row kept |
| ImportRun.RetryBudget | LoadTrackerExcelImport/Services/LoadTrackerImporter.cs:75 | at least one attempt is always made |
| ImportRun.RetryBudgetOfSetting | LoadTrackerExcelImport/Services/LoadTrackerImporter.cs:75 | a missing setting, and every setting `int.TryParse` rejects, allows 3 attempts; a number `r` allows `max(1, r)` |
| ImportRun.FinalAttempt | LoadTrackerExcelImport/Services/LoadTrackerImporter.cs:77-91 | the loop ends at an attempt within the budget that is not a retried deadlock, after only retried deadlocks |
| ImportRun.Backoff | LoadTrackerExcelImport/Services/LoadTrackerImporter.cs:89 | after attempt `i` fails with a retried deadlock, the run sleeps `2 * i` seconds |
| ImportRun.RunSpec | LoadTrackerExcelImport/Services/LoadTrackerImporter.cs:24-103 | the whole run as a value; `BusyRunSkips`, `ShortCircuitExactly`, `AttemptsAreBounded` and `RerunChangesNothing` state its behaviour, and `ImportOnce` is proved against it |
| ImportRun.ImportSpec | LoadTrackerExcelImport/Services/LoadTrackerImporter.cs:57-94 | the run past the short-circuit; `ImportFile` and `ImportTable` are proved against it |
| ImportRun.AttemptsSpec | LoadTrackerExcelImport/Services/LoadTrackerImporter.cs:75-91 | the retry loop as a value; `AttemptsSpecBounded` and `AttemptsAfterDoneChangeNothing` state its behaviour, and `RetryUpserts` is proved against it |
| ImportRun.BusyRunSkips | LoadTrackerExcelImport/Services/LoadTrackerImporter.cs:27-31 | a run that finds the guard taken skips, sleeps for no time and leaves the table as it is |
| ImportRun.ShortCircuitExactly | LoadTrackerExcelImport/Services/LoadTrackerImporter.cs:49-55 | skipping an unchanged file happens if and only if the guard is free, the path is set, the file exists, the setting parses as true and the recorded write time equals the file's |
| ImportRun.AttemptsAreBounded | LoadTrackerExcelImport/Services/LoadTrackerImporter.cs:75-91 | a run that reaches the database makes between 1 and `retries` attempts. Every attempt but the last was a deadlock. It is done exactly when the last attempt returned. A failure was a non-deadlock or a deadlock on the final attempt. One delay is used per retry |
| ImportRun.AttemptsSpecBounded | LoadTrackerExcelImport/Services/LoadTrackerImporter.cs:75-91 | for any budget of at least one, the retry loop ends done or failed after 1 to `retries` attempts, all but the last a deadlock; done exactly on a return; its delays are the backoff |
| ImportRun.LockRefusedIsDoneWithNoChange | LoadTrackerExcelImport/Services/LoadTrackerImporter.cs:237-242 | a commit without the application lock still ends the run as done, with (0, 0) and the table unchanged |
| ImportRun.AttemptsAfterDoneChangeNothing | LoadTrackerExcelImport/Services/LoadTrackerImporter.cs:77-91 | after a locked and committed reconciliation, repeating the retry loop with the same staging counts nothing and changes nothing |
| ImportRun.RerunChangesNothing | LoadTrackerExcelImport/Services/LoadTrackerImporter.cs:49-91 | after a run done holding the lock, rerunning on the same file skips when the short-circuit is enabled; otherwise it updates and inserts nothing and leaves the table as it is |
| ImportRun.ImportCoordinator.constructor | LoadTrackerExcelImport/Services/LoadTrackerImporter.cs:15-16 | the guard starts free and no write time is recorded |
| ImportRun.ImportCoordinator.ImportOnce | LoadTrackerExcelImport/Services/LoadTrackerImporter.cs:24-103 | the outcome, the delays and the new table are those of the run specification. The guard is as free afterwards as before, so it is released on every path. The write time is recorded exactly when an attempt returned |
| ImportRun.ImportCoordinator.RunLocked | LoadTrackerExcelImport/Services/LoadTrackerImporter.cs:33-94 | the checks on path, existence and write time, in the program's order, then the import; the new state is that of the run specification |
| ImportRun.ImportCoordinator.ImportFile | LoadTrackerExcelImport/Services/LoadTrackerImporter.cs:57-94 | copy, parse, empty-table check, connection check and the retries; the new state is that of the import specification |
| ImportRun.ImportCoordinator.ImportTable | LoadTrackerExcelImport/Services/LoadTrackerImporter.cs:61-91 | given the parsed table, an empty table ends the run with no rows, a missing connection string fails it, and otherwise the retries run; the new state is that of the import specification |
| ImportRun.ImportCoordinator.RetryUpserts | LoadTrackerExcelImport/Services/LoadTrackerImporter.cs:75-91 | the retry loop ends at the final attempt. Its delays are the backoff. The write time is recorded only on a return. The table is reconciled only by a locked commit |
| Ordering.GreatestExists | app/LoadTrackerWeb/Data/LoadTrackerRepository.cs:21 | `MAX` over a non-empty group has a value that no member exceeds |
| Ordering.SortedEnumerationExists | app/LoadTrackerWeb/Data/LoadTrackerRepository.cs:113-115 | every set of rows can be listed each once in `ORDER BY` order |
| Ordering.SortedEnumerationUnique | app/LoadTrackerWeb/Data/LoadTrackerRepository.cs:113-115 | when the order has no ties the listing is unique |
| Ordering.StrLeOrdersAll | app/LoadTrackerWeb/Data/LoadTrackerRepository.cs:25 | the ordinal string order is total, transitive and antisymmetric |
| Ordering.LeastStrExists | app/LoadTrackerWeb/Data/LoadTrackerRepository.cs:36-39 | a non-empty set of names has one that sorts before or equal to every other |
| Repository.ComputeOnTime | app/LoadTrackerWeb/Data/LoadTrackerRepository.cs:238-249 | the result is "", "YES" or "NO". It is "" exactly when the actual time or the window start is null. With both window ends it is "YES" if and only if start <= actual <= end. With the start alone it is "YES" if and only if actual <= start |
| Repository.BuildRadText | app/LoadTrackerWeb/Data/LoadTrackerRepository.cs:221-236 | the delivery window text; `RadTextForm` and `RadTextSameDay` state its forms |
| Repository.RadTextForm | app/LoadTrackerWeb/Data/LoadTrackerRepository.cs:221-236 | the text is empty if and only if both ends are null. With fixed-width patterns the compact form is used exactly for a same-day window and the full two-date form exactly across days. A single end is written alone |
| Repository.RadTextSameDay | app/LoadTrackerWeb/Data/LoadTrackerRepository.cs:227-228 | the compact form is the start's full text, an en dash, then the end's clock time |
| Repository.NonCarrierDelay | app/LoadTrackerWeb/Data/LoadTrackerRepository.cs:139-141 | the user's reason when it is not blank, the feed's otherwise |
| Repository.NonCarrierDelayBlank | app/LoadTrackerWeb/Data/LoadTrackerRepository.cs:139-141 | the delay shown is blank exactly when both reasons are |
| Repository.PickupForDisplay | app/LoadTrackerWeb/Data/LoadTrackerRepository.cs:147 | the actual pickup when there is one, and PICK_UP_BY otherwise |
| Repository.InMonthByDisplayedPickup | app/LoadTrackerWeb/Data/LoadTrackerRepository.cs:108-112 | a row is selected exactly when its customer matches and the pickup shown on screen lies in [start, end) |
| Repository.InMonth | app/LoadTrackerWeb/Data/LoadTrackerRepository.cs:108-112 | the WHERE clause of the month query; `InMonthByDisplayedPickup` restates it through the displayed pickup |
| Repository.LoadOrderIsTotal | app/LoadTrackerWeb/Data/LoadTrackerRepository.cs:113-115 | ordering by shown pickup and then id is a total order without ties |
| Repository.MonthQueryDetermined | app/LoadTrackerWeb/Data/LoadTrackerRepository.cs:84-116 | the month query has a result for every table, and only one |
| Repository.GetLoadsForMonth | app/LoadTrackerWeb/Data/LoadTrackerRepository.cs:131-177 | one view model per queried row, in query order, each the mapping of that row |
| Repository.ToView | app/LoadTrackerWeb/Data/LoadTrackerRepository.cs:133-175 | the loop body mapping one row to its view model; `GetLoadsForMonth` and `MonthViewsInOrder` state what the views hold |
| Repository.MonthViewsInOrder | app/LoadTrackerWeb/Data/LoadTrackerRepository.cs:108-177 | every shown pickup is non-null and in the month, and the customer matches. The views are strictly ordered by shown pickup, then id. Exactly the selected ids appear |
| Repository.EditTargetsOne | app/LoadTrackerWeb/Data/LoadTrackerRepository.cs:198-199 | the edit matches at most one row, and one exactly when the id exists with the caller's customer |
| Repository.ApplyEdit | app/LoadTrackerWeb/Data/LoadTrackerRepository.cs:192-203 | the edit's UPDATE; `EditTargetsOne`, `EditWritesThreeColumns` and `EditIdempotent` state its effect |
| Repository.EditWritesThreeColumns | app/LoadTrackerWeb/Data/LoadTrackerRepository.cs:192-203 | only EXCEPTION, USR_SF_SHORT_DESC and COMMENTS of the matched row change; the two texts are stored normalised; every other row and column is unchanged |
| Repository.EditIdempotent | app/LoadTrackerWeb/Data/LoadTrackerRepository.cs:192-203 | repeating an edit changes nothing more |
| Repository.UpdateEditableFields | app/LoadTrackerWeb/Data/LoadTrackerRepository.cs:180-219 | the table becomes the edited table, and the result is true exactly when one row matched |
| Repository.SqlTrim | app/LoadTrackerWeb/Data/LoadTrackerRepository.cs:20 | `LTRIM(RTRIM(s))` neither starts nor ends with a space |
| Repository.MaxName | app/LoadTrackerWeb/Data/LoadTrackerRepository.cs:21 | `MAX` is null exactly for an empty group, otherwise a member no other member exceeds |
| Repository.CustomerOrderIsTotal | app/LoadTrackerWeb/Data/LoadTrackerRepository.cs:25 | ordering by call name, nulls first, is a total preorder |
| Repository.CustomerListExists | app/LoadTrackerWeb/Data/LoadTrackerRepository.cs:18-25 | every table has a customer list |
| Repository.CustomerListEntries | app/LoadTrackerWeb/Data/LoadTrackerRepository.cs:18-25 | each listed code is a trimmed non-empty CUSTOMER value. Every such value is listed. A listed call name is one of the group's trimmed names and no other is greater |
| Repository.ListedCodeIsCustomer | app/LoadTrackerWeb/Data/LoadTrackerRepository.cs:18-24 | every code in a customer list is non-empty, neither starts nor ends with a space, and is the trimmed CUSTOMER value of some row |
| Repository.CustomerIsListed | app/LoadTrackerWeb/Data/LoadTrackerRepository.cs:18-24 | every row's non-blank trimmed CUSTOMER value appears in the customer list |
| Repository.CustomerName | app/LoadTrackerWeb/Data/LoadTrackerRepository.cs:33-44 | null when the code has no rows or one of them has a null CALLNAME; otherwise a call name of the code's rows that sorts before every other |
| Repository.LeastCallNameExists | app/LoadTrackerWeb/Data/LoadTrackerRepository.cs:36-39 | `TOP 1 ... ORDER BY CALLNAME` over non-null names has a least name |
| Hub.FindFirst | app/LoadTrackerWeb/Hubs/LoadTrackerHub.cs:13 | a claim value is found exactly when the user has a claim of that type, ignoring case |
| Hub.FindIn | app/LoadTrackerWeb/Hubs/LoadTrackerHub.cs:17 | the value found is that of the first claim of the type |
| Hub.JoinGroup | app/LoadTrackerWeb/Hubs/LoadTrackerHub.cs:10-30 | the join succeeds exactly when the session's check passes, and then joins `cust:{code}:{yyyymm}` |
| Hub.GroupName | app/LoadTrackerWeb/Hubs/LoadTrackerHub.cs:29 | the group name; `GroupNameRoundTrip` and `GroupNamesCollide` state when it can be read back |
| Hub.CustomerSessionJoinsOwnCode | app/LoadTrackerWeb/Hubs/LoadTrackerHub.cs:15-20 | a customer session joins a code if and only if its CustomerCode claim exists and equals the code ignoring case |
| Hub.EmployeeSessionJoinsSelectedCode | app/LoadTrackerWeb/Hubs/LoadTrackerHub.cs:22-27 | an employee session joins a code if and only if its SelectedCustomerCode claim exists and equals the code ignoring case |
| Hub.OtherSessionJoinsAnyGroup | app/LoadTrackerWeb/Hubs/LoadTrackerHub.cs:13-29 | any other or missing session kind joins the group it asks for |
| Hub.AuthTypeIsCaseSensitive | app/LoadTrackerWeb/Hubs/LoadTrackerHub.cs:15 | the session kind is compared exactly, so "customer" is not a customer session |
| Hub.NullCodeMatchesMissingClaim | app/LoadTrackerWeb/Hubs/LoadTrackerHub.cs:15-20 | a customer session without a code claim may join with a null code |
| Hub.GroupNameRoundTrip | app/LoadTrackerWeb/Hubs/LoadTrackerHub.cs:29 | for codes without ':' the code and month can be read back from the group name |
| Hub.GroupNamesCollide | app/LoadTrackerWeb/Hubs/LoadTrackerHub.cs:29 | a ':' in the code lets two different requests share a group |
| Ownership.EditLeavesImportWorkAlone | app/LoadTrackerWeb/Data/LoadTrackerRepository.cs:192-199 | an edit changes neither which rows the next import updates nor which it inserts |
| Ownership.EditSurvivesImport | LoadTrackerExcelImport/Services/LoadTrackerImporter.cs:300-331 | what a user saved is still there after any later import |
| Ownership.ImportSurvivesEdit | app/LoadTrackerWeb/Data/LoadTrackerRepository.cs:192-199 | what the feed delivered is still there after any later edit |
| Ownership.ImportAndEditCommute | LoadTrackerExcelImport/Services/LoadTrackerImporter.cs:300-388 | when the import does not change which row the edit matches, import and edit in either order give the same table |
| Ownership.CommuteWhenCustomerKept | app/LoadTrackerWeb/Data/LoadTrackerRepository.cs:192-199 | an import that keeps the edited row's customer commutes with the edit |

## Left out

- File I/O: `File.Exists`, `GetLastWriteTimeUtc`, the copy to a temporary file and its deletion. These are the `SourceFile` value. A failed copy is its `copyFails` flag; the temporary file's name and its best-effort delete are not modelled.
- CsvHelper: delimiter detection, header matching and bad-data handling belong to the library. The model starts from the records it returns (`CsvRecord`, one optional text per field of `LoadTrackerCsvRow`). An exception while reading the CSV is not modelled.
- `DateTime.TryParse` and `double.TryParse` are culture-specific library calls on floating point. They are the `Parsers` parameter. Numbers are `real` and dates are ticks.
- `int.TryParse` for `Importer:MaxRetries` uses the current culture. The model uses the invariant culture's rules for it too.
- Ordinal-ignore-case comparison folds only ASCII letters; the invariant upper-casing of other letters is not modelled.
- Strings are sequences of Unicode scalar values, not of UTF-16 code units. A character outside the Basic Multilingual Plane is one character in the model and a surrogate pair in .NET, so string lengths, the length test of `EqualsIgnoreCase` and the ordinal order differ from .NET's for such text.
- Date formatting patterns are the `Formats` parameter. The lengths used by `RadTextForm` are a hypothesis on that parameter.
- SQL Server collation: string equality in WHERE and GROUP BY is modelled as exact. `ORDER BY`, `MAX` and `TOP 1` use the ordinal order. The case-insensitivity and trailing-space rules of the database's collation are therefore not modelled.
- SQL Server mechanics: transactions and rollback, `SqlBulkCopy`, `#staging` column widths and truncation, the `CHAR(5)` padding of DANGEROUS_GOODS, the command timeouts and the table lock. Truncation or another failure inside an attempt is an `AttemptOutcome` that threw.
- Reconciliation.Upsert: requires distinct ids in the staging table. `ReadCsvToDataTable` always produces distinct ids, which `Snapshot.ReadCsvToDataTable` proves.
- The database reads are parameters. `GetLoadsForMonth` takes the ids SQL Server returns, constrained by `IsMonthQuery`. The customer list and the customer name are described by `IsCustomerList` and `CustomerName`, with no method that returns them.
- `LoadRowRaw` is folded into the table's `Row`; PICK_UP_BY_END is read by the query but used by nothing, so it appears only in the row.
- `Task.Delay` and cancellation tokens: only the delay lengths are recorded, as `delays`.
- Logging, the scheduling worker, the program setup, sign-in and user lookup, the view models' totals, and the browser script are not part of this model.
- The `[Authorize]` attribute on the hub runs before `JoinGroup`. The model takes the connection's user as given, null included.
- Concurrency between processes is left out. So are the real contention for `_runLock` and for the application lock. The model takes the guard's state and each lock answer as given.

### Where the code and its description differ

These notes follow the code:

- `TryInt` accepts a leading sign, so negative ids are imported (`Coercion.TryIntRoundTrip`).
- `Trim` leaves NUL characters in place, and `int.TryParse` skips NULs at the end of its input, so an id such as "12" followed by NULs is imported as 12 (`Text.ParseIntegerPadded`).
- The design describes lock-wait timeouts as retried like deadlocks. The code retries only `SqlException` number 1205, the deadlock (`LoadTrackerImporter.cs:86`). The model follows the code (`ImportRun.IsRetried`), so a lock-wait timeout fails the run at once.
- The change test cannot see a NULL replaced by '', 0 or 1900-01-01. Such a row is not rewritten (`Schema.NullAndZeroPalletsAreNoChange`, `Schema.NullAndEpochDateAreNoChange`).
- The write time is recorded after `UpsertAsync` returns (0, 0) because the application lock was refused. A later run with the short-circuit enabled then skips the file unimported (`ImportRun.LockRefusedIsDoneWithNoChange`, `ImportRun.ImportCoordinator.RetryUpserts`).
- A missing code claim is a mismatch only for a non-null requested code. `string.Equals(null, null, ...)` is true, so a null code passes (`Hub.NullCodeMatchesMissingClaim`).
