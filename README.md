# Apartment availability: ledger, date normaliser, actions and admin commands

This project models the apartment-availability part of the repository and
proves properties of the model.

- **The availability service** (`ApartmentAvailabilityService`) is a table
  of `(apartmentId, date, status, notes)` rows behind a connection that is
  open or closed. It offers:
  - a transactional batch upsert;
  - a point lookup that defaults to `available`;
  - a month query by date prefix, in ascending date order;
  - a month report that groups days by status;
  - a JSON import in an array form or a `"month/year"`-keyed form.
- **The `UPDATE_AVAILABILITY` action** contains `parseHumanReadableDate`,
  the normaliser that turns `April 1, 2025` into `2025-04-01`, and the
  handler that validates its parameters and upserts one date.
- **The `CHECK_AVAILABILITY` action** validates its parameters and returns
  the month report.
- **The admin command processor** handles `!help`, `!avail`, `!book`,
  `!unbook`, `!price` and `!monthly`. It works on the availability file,
  which holds per-month `available_days` / `booked_days` lists and the
  daily and monthly rates per season.

## Modules

| module | file | what it holds |
|---|---|---|
| `Results` | `results.dfy` | `Option` and `Outcome`, where `Outcome` is a value or a thrown message; `Reply`, a handler's `{success, message \| error, data}`; and `Missing`, JavaScript's falsy parameter |
| `Text` | `text.dfy` | the JavaScript string operations the code relies on: `trim`, `split`, `join`, `padStart(2, '0')`, ASCII `toLowerCase`, `parseInt` (leading white space, sign, `0x` without a radix, leading digits), `Number.prototype.toString`, and SQLite's BINARY text order |
| `Ledger` | `ledger.dfy` | rows, statuses, and the upsert, lookup and month query over a `seq<Row>` table |
| `Report` | `report.dfy` | what `getFormattedAvailability` prints |
| `Snapshot` | `snapshot.dfy` | the JSON documents `importFromJson` accepts and what importing one does to the table |
| `Store` | `store.dfy` | the service as a class whose methods change `ready` and `rows` |
| `DateFormat` | `normalizer.dfy` | the month table, the two regular expressions and `parseHumanReadableDate` |
| `UpdateAction` | `update_action.dfy` | properties of the normaliser, and the update handler |
| `CheckAction` | `check_action.dfy` | the check handler, and how an update shows in the report |
| `DayLists` | `daylists.dfy` | filtering, appending and sorting the per-month day lists |
| `Admin` | `admin.dfy` | the admin commands: specification functions on the file's contents, and a class whose methods edit the file in place |

### Design

- **The table.** It is a `seq<Row>` in insertion order, like SQLite's rowid
  order.
  - The `UNIQUE(apartmentId, date)` constraint is the class invariant
    `Valid()`. Each operation is proved to preserve it.
  - The status column is TEXT. The array form of the import stores any
    status text, and the report silently drops statuses it does not know.
    The model keeps both behaviours.
- **Faults.**
  - A failing statement is a parameter of the method: `fault` is the index
    of the statement the engine fails, and the index `|dates|` stands for
    COMMIT. A rollback restores the snapshot taken at BEGIN.
  - Opening the database and closing it can fail. Those outcomes are
    parameters too (`InitFault`, `closeFails`).
  - A read query the engine rejects is a parameter of the reading methods
    (`readFault`, the rejection's message).
- **The admin file.** It is held as the object its JSON parses to
  (`FileData`).
  - Every command is first a function from the old contents to the answer
    and the new contents.
  - The `AvailabilityFile` class edits its fields in place as the source
    does. Each of its methods is proved to end in exactly the state that
    function describes.
  - The save stamps `updated` with today's date, which the model receives
    as a parameter.

## Model

| member | source | states |
|---|---|---|
| Store.AvailabilityService.constructor | packages/plugin-apartment-availability/src/service.ts:24-27 | a new service has no connection and holds the stored table, whose keys are unique |
| Store.AvailabilityService.Initialize | packages/plugin-apartment-availability/src/service.ts:57-85 | the answer is true exactly when nothing fails; the connection stays open even when creating the table fails after opening; the table is untouched |
| Store.AvailabilityService.Shutdown | packages/plugin-apartment-availability/src/service.ts:87-99 | closing a closed service succeeds; a failed close keeps the connection and answers false |
| Store.AvailabilityService.GetAvailability | packages/plugin-apartment-availability/src/service.ts:101-119 | throws "Database not initialized" when closed; throws the engine's error when the query is rejected; otherwise returns the month query of the table |
| Store.AvailabilityService.GetFormattedAvailability | packages/plugin-apartment-availability/src/service.ts:121-174 | the loop that fills four groups and accumulates the lines returns exactly `ReportText` of the month query; it throws while closed, and passes on a rejected query's error |
| Store.GroupByStatus | packages/plugin-apartment-availability/src/service.ts:130-152 | each group receives the day of every row with its status, in row order (`DaysWith`) |
| Store.AvailabilityService.UpdateAvailability | packages/plugin-apartment-availability/src/service.ts:176-227 | throws when closed; answers true exactly when no statement fails, and the table is then the batch upsert of every date; on any failure the table is exactly the old one; uniqueness is preserved |
| Store.AvailabilityService.GetDateStatus | packages/plugin-apartment-availability/src/service.ts:229-238 | throws when closed, and throws the engine's error when the query is rejected; otherwise the stored status of the key, or "available" when no row has it |
| Store.AvailabilityService.ImportFromJson | packages/plugin-apartment-availability/src/service.ts:240-314 | throws when closed; answers true exactly when the import completes, and the table is then `ImportResult`; on failure the table is the old one |
| Store.AvailabilityService.ImportItemsInto | packages/plugin-apartment-availability/src/service.ts:248-261 | the array-form loop completes exactly when no element is null and no statement fails, and then leaves `ImportItems` of the old table |
| Store.AvailabilityService.ImportEntries | packages/plugin-apartment-availability/src/service.ts:264-301 | the walk over the keys finishes exactly when no value throws, and leaves the table that replaying its per-date calls gives |
| Store.AvailabilityService.ImportEntry | packages/plugin-apartment-availability/src/service.ts:270-300 | one month's lists issue their calls in the order available, booked, blocked, maintenance |
| Store.AvailabilityService.ImportDays | packages/plugin-apartment-availability/src/service.ts:274-279 | one list sends each day through its own single-date update, whose answer is ignored |
| Ledger.ParseStatus | packages/plugin-apartment-availability/src/actions/updateAvailability.ts:71 | a recognised status is the one whose name the text is |
| Ledger.ParseStatusIff | packages/plugin-apartment-availability/src/service.ts:138-151 | a text selects a status exactly when it equals that status's name, in both directions |
| Ledger.Lookup | packages/plugin-apartment-availability/src/service.ts:232-235 | a found row is in the table and has the key; when none is found, no row of the table has the key |
| Ledger.LookupStored | packages/plugin-apartment-availability/src/service.ts:75 | with unique keys, the lookup of a stored row's key finds that row |
| Ledger.Upsert | packages/plugin-apartment-availability/src/service.ts:194-201 | the new row is present; every other row is an old one; every old row with another key is kept; the table grows by one exactly when the key was new |
| Ledger.UpsertUnique | packages/plugin-apartment-availability/src/service.ts:75 | an upsert keeps the key unique |
| Ledger.LookupUpsert | packages/plugin-apartment-availability/src/service.ts:195-200 | last write wins on the written key, with the new status and notes (notes are overwritten even when omitted); every other key reads as before |
| Ledger.UpsertStored | packages/plugin-apartment-availability/src/service.ts:197-199 | writing a row that is already stored leaves the table equal |
| Ledger.UpsertAllUnique | packages/plugin-apartment-availability/src/service.ts:191-205 | the batch keeps the key unique |
| Ledger.LookupUpsertAll | packages/plugin-apartment-availability/src/service.ts:191-205 | after the batch every date of it holds the batch's status and notes for the apartment; every other key is unchanged |
| Ledger.UpsertAllStored | packages/plugin-apartment-availability/src/service.ts:191-205 | a batch whose rows are all stored already changes nothing |
| Ledger.UpsertAllIdempotent | packages/plugin-apartment-availability/src/service.ts:191-205 | applying the same batch twice gives the same table as applying it once |
| Ledger.Matching | packages/plugin-apartment-availability/src/service.ts:111-116 | exactly the apartment's rows whose date starts with the prefix: each such row as often as the table holds it, and no other row |
| Ledger.InsertByDate | packages/plugin-apartment-availability/src/service.ts:114 | inserting adds exactly the one row |
| Ledger.InsertByDateSorted | packages/plugin-apartment-availability/src/service.ts:114 | inserting into a date-sorted list keeps it sorted |
| Ledger.SortByDate | packages/plugin-apartment-availability/src/service.ts:114 | a sorted permutation of the rows (`ORDER BY date ASC`) |
| Ledger.MonthQuery | packages/plugin-apartment-availability/src/service.ts:101-119 | sorted by date; holds each of the apartment's rows whose date starts with `year-MM-`, with the month zero-padded, exactly as often as the table does, and no other row |
| Ledger.SameKeySameRow | packages/plugin-apartment-availability/src/service.ts:75 | under UNIQUE(apartmentId, date), two stored rows with one key are the same row |
| Ledger.UniqueOnce | packages/plugin-apartment-availability/src/service.ts:75 | under UNIQUE(apartmentId, date), no row is stored twice |
| Ledger.MonthQueryUnique | packages/plugin-apartment-availability/src/service.ts:101-119 | under UNIQUE(apartmentId, date), the month query returns each written date once: all records are the apartment's and no two share a date |
| Text.TextLeTotal | packages/plugin-apartment-availability/src/service.ts:114 | the text order compares any two dates |
| Text.TextLeAntisymmetric | packages/plugin-apartment-availability/src/service.ts:114 | dates that sort before each other are equal |
| Text.Pad2 | packages/plugin-apartment-availability/src/service.ts:105 | `padStart(2, '0')`: length two or more; zeros on the left, then the string |
| Text.Pad2Value | packages/plugin-apartment-availability/src/service.ts:105 | padding a number does not change its value |
| Text.DecimalText | packages/plugin-apartment-availability/src/service.ts:276 | `toString()` of a day: decimal digits without a leading zero, whose value is the number |
| Text.DecimalTextInjective | packages/plugin-apartment-availability/src/service.ts:276 | different days print differently |
| Report.DayOfDate | packages/plugin-apartment-availability/src/service.ts:137 | `split('-')[2]` of a `year-MM-DD` date is `DD` |
| Report.DaysWithMembers | packages/plugin-apartment-availability/src/service.ts:136-152 | a group lists a day exactly when some row with that status has that day |
| Report.GroupsPartition | packages/plugin-apartment-availability/src/service.ts:138-151 | every row with a known status lands in exactly one group; unknown statuses land in none |
| Report.GroupLine | packages/plugin-apartment-availability/src/service.ts:157-171 | a group prints a line exactly when it is non-empty, ending in a newline |
| Report.ReportStartsWithHeader | packages/plugin-apartment-availability/src/service.ts:155-173 | a non-empty report begins with `Availability for M/Y:` after trimming |
| Report.UnknownStatusesReportHeaderOnly | packages/plugin-apartment-availability/src/service.ts:136-173 | rows that all carry unknown statuses give the bare header |
| Snapshot.NotesOf | packages/plugin-apartment-availability/src/service.ts:258 | `notes \|\| null`: an empty note is stored as no note, any other is kept |
| Snapshot.ImportItemsUnique | packages/plugin-apartment-availability/src/service.ts:250-261 | the array form keeps the key unique |
| Snapshot.LookupImportItems | packages/plugin-apartment-availability/src/service.ts:250-261 | after the array form a date holds the last kept item naming it (items without date or status are skipped), or its old row |
| Snapshot.LastItem | packages/plugin-apartment-availability/src/service.ts:250-251 | the last kept item for a date, and no later kept item names it |
| Snapshot.KeyParts | packages/plugin-apartment-availability/src/service.ts:265-268 | a key is used only when it splits on `/` into a non-empty month and a non-empty year |
| Snapshot.DayCalls | packages/plugin-apartment-availability/src/service.ts:274-279 | one call per day, all with the list's status; it throws exactly when a day is null |
| Snapshot.DayDateInjective | packages/plugin-apartment-availability/src/service.ts:276 | different days of one month give different dates |
| Snapshot.LookupReplay | packages/plugin-apartment-availability/src/service.ts:270-300 | after the object form a date holds the status of its last successful call, so a day in several lists ends with the last list's status; other keys are unchanged |
| Snapshot.ReplayUnique | packages/plugin-apartment-availability/src/service.ts:270-300 | the object form keeps the key unique |
| Snapshot.ImportResultUnique | packages/plugin-apartment-availability/src/service.ts:240-314 | a completed import leaves unique keys |
| Text.TrimIdempotent | packages/plugin-apartment-availability/src/actions/updateAvailability.ts:15 | trimming twice is trimming once |
| Text.TrimVisible | packages/plugin-apartment-availability/src/actions/updateAvailability.ts:15 | a trimmed string starts and ends with a visible character |
| Text.LowerKeeps | packages/plugin-apartment-availability/src/actions/updateAvailability.ts:27 | a string without capitals is its own lower case |
| DateFormat.MonthTableValues | packages/plugin-apartment-availability/src/actions/updateAvailability.ts:4-11 | every table entry is a month number 01-12 |
| DateFormat.OwnEntry | packages/plugin-apartment-availability/src/actions/updateAvailability.ts:32-34 | an entry found is a month number |
| DateFormat.MatchBounds | packages/plugin-apartment-availability/src/actions/updateAvailability.ts:23 | the groups of a match sit in order, with a 1-2 character day and the 4-character year at the end |
| DateFormat.MatchShapes | packages/plugin-apartment-availability/src/actions/updateAvailability.ts:23-24 | the captures are a word, one or two digits and four digits |
| DateFormat.MatchAccepts | packages/plugin-apartment-availability/src/actions/updateAvailability.ts:23-24 | every string of the expression's shape matches, with its word, day and year as captures |
| DateFormat.MatchSound | packages/plugin-apartment-availability/src/actions/updateAvailability.ts:23-24 | every match is a string of that shape, rebuilt from its captures |
| DateFormat.ShapesDisjoint | packages/plugin-apartment-availability/src/actions/updateAvailability.ts:18-24 | no ISO date matches the month-day-year expression |
| DateFormat.AssembleIso | packages/plugin-apartment-availability/src/actions/updateAvailability.ts:27-36 | the assembled result is an ISO date carrying the table's month |
| UpdateAction.IsoPassesThrough | packages/plugin-apartment-availability/src/actions/updateAvailability.ts:15-20 | an ISO-shaped input comes back trimmed and unchanged, with no range check |
| UpdateAction.ParseYieldsIsoDate | packages/plugin-apartment-availability/src/actions/updateAvailability.ts:14-43 | every non-null result is a 10-character ISO date, and a converted one carries a month 01-12 |
| UpdateAction.ParseIdempotent | packages/plugin-apartment-availability/src/actions/updateAvailability.ts:14-43 | normalising a normalised date returns it unchanged |
| UpdateAction.UnknownMonthRejected | packages/plugin-apartment-availability/src/actions/updateAvailability.ts:32-42 | a match whose word is not in the table yields null |
| UpdateAction.ParseMatch | packages/plugin-apartment-availability/src/actions/updateAvailability.ts:26-37 | a match whose lower-cased word is in the table converts through the table |
| UpdateAction.ParseConverts | packages/plugin-apartment-availability/src/actions/updateAvailability.ts:23-37 | `Word D[D](,\|space) YYYY` with a table word in any case gives `YYYY-MM-DD`, the day padded |
| UpdateAction.ParseConvertsWith | packages/plugin-apartment-availability/src/actions/updateAvailability.ts:26-37 | the same, for whatever the lookup returns, and null when it returns nothing |
| UpdateAction.ParseAbbreviated | packages/plugin-apartment-availability/src/actions/updateAvailability.ts:8 | "Apr 1 2025" gives "2025-04-01" |
| UpdateAction.ParseFullName | packages/plugin-apartment-availability/src/actions/updateAvailability.ts:22 | "April 1, 2025" gives "2025-04-01" |
| UpdateAction.ConstructorIsNoMonth | packages/plugin-apartment-availability/src/actions/updateAvailability.ts:32-36 | as written, "constructor 1 2025" and every date of that shape yields a non-date; the corrected parser rejects it |
| UpdateAction.FallbackUnreachable | packages/plugin-apartment-availability/src/actions/updateAvailability.ts:87-90 | whatever the handler's second ISO test accepts, the parser has accepted already, as written and corrected alike |
| UpdateAction.ParsersDifferOnlyOnInherited | packages/plugin-apartment-availability/src/actions/updateAvailability.ts:32-36 | the parser as written and the corrected one give different answers exactly on a month-day-year date whose lower-cased word names an inherited member; wherever the corrected one answers, the as-written one agrees |
| UpdateAction.InheritedNotInTable | packages/plugin-apartment-availability/src/actions/updateAvailability.ts:4-11 | neither `constructor` nor `__proto__` is a month name or abbreviation of the table |
| UpdateAction.UpdateAvailabilityAction | packages/plugin-apartment-availability/src/actions/updateAvailability.ts:54-131 | missing parameters, an invalid status and a date the parser as written rejects fail with their messages before the service is called; otherwise the date the parser as written yields, inherited members included, is upserted, success equals the service's answer, and a thrown error's message is returned; nothing changes on failure |
| CheckAction.CheckAvailabilityAction | packages/plugin-apartment-availability/src/actions/checkAvailability.ts:12-45 | a missing month or year fails with the fixed message; a closed service and a rejected query fail with the thrown error's message; otherwise the message is the default apartment's month report and the data echoes month and year |
| CheckAction.UpdatedDayReported | packages/plugin-apartment-availability/src/actions/checkAvailability.ts:27-35 | after `year-MM-DD` is set to a status, that month's report lists `DD` in that status's group |
| CheckAction.ReportShape | packages/plugin-apartment-availability/src/service.ts:125-155 | an empty month gives the "no availability information" sentence; any other begins with the header |
| CheckAction.Pad2Two | packages/plugin-apartment-availability/src/service.ts:105 | a two-character month is its own padding |
| DayLists.Without | characters/stella/admin/process_commands.js:198-200 | `filter(day => !drop.includes(day))`: a day is kept exactly when it is there and not dropped |
| DayLists.WithoutSubsequence | characters/stella/admin/process_commands.js:198-200 | filtering keeps the order of what it keeps |
| DayLists.WithoutCount | characters/stella/admin/process_commands.js:204 | filtering keeps every occurrence of a kept day |
| DayLists.Insert | characters/stella/admin/process_commands.js:205 | inserting into a sorted list keeps it sorted and adds exactly the one day |
| DayLists.SortAsc | characters/stella/admin/process_commands.js:202-205 | `sort((a, b) => a - b)`: a sorted permutation of the days |
| DayLists.FullMonth | characters/stella/admin/process_commands.js:192 | the days 1 to 31 in order |
| DayLists.FreshMonthPartition | characters/stella/admin/process_commands.js:190-195 | a new month splits the days 1 to 31 between its two lists |
| DayLists.BookMoves | characters/stella/admin/process_commands.js:198-209 | after booking, a day is available exactly when it was available and was not requested, and booked exactly when it was booked or was requested; the available days keep their order and the booked days are sorted |
| DayLists.BookKeepsRepeats | characters/stella/admin/process_commands.js:202-205 | a newly booked day is booked as many times as the request repeats it |
| DayLists.UnbookMoves | characters/stella/admin/process_commands.js:270-281 | the mirror image for unbooking |
| DayLists.BookKeepsPartition | characters/stella/admin/process_commands.js:198-209 | booking valid days keeps a month split between its lists |
| DayLists.UnbookKeepsPartition | characters/stella/admin/process_commands.js:270-281 | unbooking valid days keeps a month split between its lists |
| DayLists.UnbookUndoesBook | characters/stella/admin/process_commands.js:198-281 | unbooking days just booked from available gives back the same days in each list |
| Admin.SeasonNameInjective | characters/stella/admin/process_commands.js:305 | different seasons have different keys |
| Admin.ParseSeason | characters/stella/admin/process_commands.js:305-307 | a season is accepted exactly when it is allowed and the argument is its name |
| Admin.ParseSeasonName | characters/stella/admin/process_commands.js:305-307 | every allowed season is accepted by its own name |
| Admin.HolidayDailyOnly | characters/stella/admin/process_commands.js:351-353 | the holiday rate can be set per night but not per month |
| Admin.SeasonOf | characters/stella/admin/process_commands.js:132-135 | a month's season is never the holiday season |
| Admin.MonthNumberOfKey | characters/stella/admin/process_commands.js:132 | the month number of a `YYYY-MM` key is the value of its two digits |
| Admin.ShowAvailabilitySeason | characters/stella/admin/process_commands.js:112-152 | `!avail` on a stored month reports the daily and monthly rates of the season its `MM` digits give, never the holiday season, and fails exactly when the pricing lacks that season |
| Admin.ParseDays | characters/stella/admin/process_commands.js:179-187 | the days parse exactly when every part is a number from 1 to 31, and then each parsed day is its part's value |
| Admin.ParseDaysRange | characters/stella/admin/process_commands.js:182 | parsed days lie between 1 and 31 |
| Admin.RequestedDays | characters/stella/admin/process_commands.js:179-187 | accepted days lie between 1 and 31 |
| Admin.DayValueDecimal | characters/stella/admin/process_commands.js:179 | `parseInt(day.trim(), 10)` reads a printed day back |
| Admin.ParseDaysDecimals | characters/stella/admin/process_commands.js:179-187 | printed valid days parse back to the same days |
| Admin.DaysRoundTrip | characters/stella/admin/process_commands.js:179-187 | a comma-separated list of valid days reads back as those days, repeats and order included |
| Admin.CommandWords | characters/stella/admin/process_commands.js:17-32 | `action arg1 arg2` dispatches on the lower-cased action with the two arguments |
| Admin.Processed | characters/stella/admin/process_commands.js:14-45 | a failed command changes nothing; `!help`, `!avail` and unknown commands change nothing; each command changes only its own part of the file; an unknown action answers "Unknown command" and nothing else does |
| Admin.BookingEffect | characters/stella/admin/process_commands.js:160-224 | a booking moves every requested day from available to booked, starting from a month of 31 available days when the month is new; the other months are untouched |
| Admin.UnbookingEffect | characters/stella/admin/process_commands.js:232-296 | an unbooking moves every requested day back to available; the other months are untouched |
| Admin.CommandKeepsPartitions | characters/stella/admin/process_commands.js:14-45 | no command breaks the split of each stored month's days 1 to 31 between its two lists |
| Admin.PriceUpdateEffect | characters/stella/admin/process_commands.js:304-342 | `!price` changes the named season's nightly rate alone and reports the old and new rate; the minimum stay is kept |
| Admin.MonthlyPriceUpdateEffect | characters/stella/admin/process_commands.js:350-388 | `!monthly` changes the named season's monthly rate alone, and refuses the holiday season |
| Admin.AvailabilityFile.constructor | characters/stella/admin/process_commands.js:83-90 | the object holds the loaded file |
| Admin.AvailabilityFile.BookDays | characters/stella/admin/process_commands.js:160-224 | creating the month first when it is absent, then assigning both lists in place, leaves exactly the answer and the file `Booking` describes |
| Admin.AvailabilityFile.UnbookDays | characters/stella/admin/process_commands.js:232-296 | the in-place unbooking leaves exactly what `Unbooking` describes |
| Admin.AvailabilityFile.UpdatePrice | characters/stella/admin/process_commands.js:304-342 | the in-place rate update leaves exactly what `PriceUpdate` describes |
| Admin.AvailabilityFile.UpdateMonthlyPrice | characters/stella/admin/process_commands.js:350-388 | the in-place monthly rate update leaves exactly what `MonthlyPriceUpdate` describes |
| Admin.AvailabilityFile.ProcessCommand | characters/stella/admin/process_commands.js:14-45 | parsing the command and running the operation it names leaves exactly what `Processed` describes |

## Left out

- The database file's path, creating its directory and probing the file
  system (`service.ts:27-55`). The database engine is reduced to a table
  and a fault parameter.
- Logging, and the post-commit reads that only log what was stored
  (`service.ts:211-218`).
- SQLite's `LIKE` pattern mechanics. The month query is a prefix test, so
  `%` and `_` in a month or year argument are not treated as wildcards.
- The AUTOINCREMENT `id` column.
- Store.AvailabilityService.ImportFromJson: the per-date `updateAvailability`
  calls of the object form open their own transaction inside the import's
  transaction, and SQLite's answer to that nesting is not modelled. Which
  per-date calls fail is a parameter (`failing`), and their answer is
  ignored as in the source. A failed import as a whole restores the table.
- Store.AvailabilityService.UpdateAvailability: a failing `BEGIN
  TRANSACTION` or `ROLLBACK` is not modelled. Only an upsert or the COMMIT
  fails.
- Snapshot.Day: `Number.prototype.toString` is computed only for the
  integers from 0 below 10^21. Any other non-null day (a negative,
  fractional or larger number, a boolean, an object) is given as the text
  it prints.
- Non-string JSON values inside an import item (numbers as dates, and so
  on). Each field is a string or absent.
- `runtime.getService` returning no service. The handlers receive the
  service itself.
- The JSON file read and write of the admin commands
  (`process_commands.js:83-105`), and their failures. The commands work on
  the loaded contents, and today's date is a parameter.
- Admin.FileData: a pricing entry that is present but lacks its `rate` or
  `minimum_stay` field, which the source prints as `undefined`. Rates are
  integers, not floating-point numbers, and a monthly rate is held as its
  number.
- Admin.Message: the texts of the admin answers, emoji included. Each
  message is a constructor carrying the values the text prints. A thrown
  `TypeError` becomes `Error(context)` without the engine's own wording.
- Admin.AvailabilityFile.ProcessCommand: a non-string command, which would
  reach `processCommand`'s own `catch`.
- Text.Lower: Unicode case mapping. Only ASCII letters are lowered.
- Text.Pad2: lengths count code points, not UTF-16 code units, and lone
  surrogates are not representable. A month holding a character outside
  the Basic Multilingual Plane is padded where `padStart` would not pad
  it, so its month prefix differs.
- Text.IsSpace: the white space `trim` and `\s` remove is a fixed set of
  code points.
- `characters/stella/admin/update_availability.js`, an interactive
  terminal tool whose booking logic repeats `bookDays` and `unbookDays`.
  update_availability.js is not part of this model.

## Findings

| source | as written | input that shows it | evidently intended | confidence | as-written member | corrected member |
|---|---|---|---|---|---|---|
| packages/plugin-apartment-availability/src/actions/updateAvailability.ts:32-36 | `monthNameToNumber[monthStr]` is a lookup on a plain object literal, so it also finds members inherited from `Object.prototype`. `constructor` is one of them, and it is truthy. | `"constructor 1 2025"` returns `"2025-function Object() { [native code] }-01"` instead of null, and the handler then stores that string as a date. | Only the table's own month names and abbreviations convert; any other word gives null. | not executed | DateFormat.ParseHumanReadableDateAsWritten, which UpdateAction.UpdateAvailabilityAction calls (shown by UpdateAction.ConstructorIsNoMonth) | DateFormat.ParseHumanReadableDate (UpdateAction.ParseYieldsIsoDate, UpdateAction.UnknownMonthRejected) |

Two more behaviours are proved as written, and neither is a defect:

- The handler's second `^\d{4}-\d{2}-\d{2}$` test is dead code
  (`UpdateAction.FallbackUnreachable`).
- A request that names a day twice books it twice
  (`DayLists.BookKeepsRepeats`).
