# quantified-health data scripts, modelled in Dafny

This project models the data-moving core of the quantified-health app (a
KeepFit-style calorie, water, exercise and weight tracker):

- **The NocoDB → PocketBase migration** (`scripts/migrate-nocodb-to-pocketbase.js`):
  - its `.env` reader and required-variable lookup;
  - `optionalNumber` and `compactObject`;
  - the six row mappers;
  - attachment parsing and URL resolution;
  - the NocoDB paging loop and the PocketBase clearing loop;
  - `pbAuth`;
  - `run`, with its summary of imported, skipped and deleted counts and photo counters.
- **The food-library import** (`scripts/import-food-library-all.js`):
  - its `.env` reader, `parseNum` and `parseCategory`;
  - the row building;
  - the base and table lookup;
  - the delete-until-empty loop and the batched insert;
  - `main`.
- **The PocketBase client helpers** (`src/lib/pocketbase.ts`): the filter-value escape, `encodePathSegment` (over a model of `encodeURIComponent`), the file URL and the default server URL.
- **The photo page's attachment resolver** (`src/app/record/photo/page.tsx`).
- **The NocoDB set-up script** (`scripts/init-nocodb.js`): its `.env` line parser, the base choice, and the Users-table check and creation.

JavaScript values are modelled by `Js.Value` (undefined, null, booleans,
finite numbers, strings, arrays, objects), with truthiness, `String(v)` and
property access written out. `Number(text)`, number formatting and
`JSON.parse` are not modelled. They are parameters bundled in `Js.Host`:
`None` means NaN or Infinity from `Number(text)`, and an exception from
`JSON.parse`.

The two servers are in-memory classes in `Stores`:

- `NocoDb` holds bases, tables per base, rows per table and the files served for download.
- `PocketBase` holds records per collection, which creates and uploads it accepts, its login replies, and whether a create response reveals the new id.

Every request appends a call to the server's `calls` trace, and the methods
modelling the scripts state their trace exactly. That is how ordering claims
are stated, for example "every delete precedes every create".

The directory listing and file contents, the process environment, the clock
used for fallback file names, and the `.env.local` text are all parameters.

Modules, one concern each:

- **Shared:**
  - `Wrappers` (Option, Result);
  - `Js`;
  - `Strings` and `Decimal`;
  - `Seqs` and `Dicts`;
  - `Stores`.
- **Migration:** `MigrateConfig`, `MigrateMappers`, `MigrateLoops`, `Migrate` (the create and photo loops), `MigrateRun` and `MigrateSummary`.
- **Food-library import:** `FoodImport` (the pure and file-side part) and `FoodSync` (the NocoDB side and `main`).
- **Other scripts and pages:** `PocketBaseLib`, `PhotoPage` and `InitNocoDb`.

## Model

| member | source | states |
|---|---|---|
| `MigrateConfig.LineEntryKey` | scripts/migrate-nocodb-to-pocketbase.js:24-33 | a line that defines something gives a non-empty key without `=`, and the key and value are both trimmed |
| `MigrateConfig.LoadEnv` | scripts/migrate-nocodb-to-pocketbase.js:19-37 | the loop builds the dictionary of the file's lines (`{}` for a missing file), and no key is empty or holds `=` |
| `MigrateConfig.ReadLine` | scripts/migrate-nocodb-to-pocketbase.js:25-32 | the trimmed line gives no entry exactly when it is blank, starts with `#` or `=`, or holds no `=`. Otherwise the key is the trimmed text before the first `=` and the value the trimmed rest, later `=` included. This is the entry `LineEntry` gives |
| `MigrateConfig.ApplyLine` | scripts/migrate-nocodb-to-pocketbase.js:24-33 | one iteration writes the line's entry into the dictionary and otherwise leaves it unchanged |
| `MigrateConfig.LoadLines` | scripts/migrate-nocodb-to-pocketbase.js:24-34 | the loop over the lines builds the dictionary of their entries, later lines winning |
| `MigrateConfig.EnvKeys` | scripts/migrate-nocodb-to-pocketbase.js:28-33 | every key of the parsed file is non-empty and holds no `=` |
| `MigrateConfig.EnvDefinedKeys` | scripts/migrate-nocodb-to-pocketbase.js:24-34 | a key is present exactly when some line defines it |
| `MigrateConfig.EnvLastDefinitionWins` | scripts/migrate-nocodb-to-pocketbase.js:32-33 | a later definition of a key overrides every earlier one |
| `MigrateConfig.IgnoredLine` | scripts/migrate-nocodb-to-pocketbase.js:25-29 | blank lines, `#` lines, and lines with `=` missing or first change nothing |
| `MigrateConfig.RequiredEnv` | scripts/migrate-nocodb-to-pocketbase.js:39-45 | a non-empty process value wins over the file. An empty one falls through to the file. With neither set it fails with `Missing env: <key>` |
| `MigrateConfig.FirstIndex` | scripts/migrate-nocodb-to-pocketbase.js:373-380 | the position where a `\|\|` chain stops: every lookup before it is unset, and the one at it, when it is not past the end, is set |
| `MigrateConfig.FirstSet` | scripts/migrate-nocodb-to-pocketbase.js:373-380 | a `\|\|` chain of lookups gives nothing exactly when none is set. Otherwise it gives the value of a lookup that is set and has no set lookup before it |
| `MigrateConfig.AdminCredentials` | scripts/migrate-nocodb-to-pocketbase.js:373-384 | the credentials succeed exactly when an e-mail and a password are set, and each is non-empty. An admin name in the process wins. Otherwise it fails with the credentials message |
| `MigrateConfig.BaseTitle` | scripts/migrate-nocodb-to-pocketbase.js:8 | the base title is the variable's value when that is non-empty, and `keepfit` otherwise |
| `MigrateMappers.OptionalNumber` | scripts/migrate-nocodb-to-pocketbase.js:47-51 | the result is null or a finite number. null, undefined and `''` give null, as does any text `Number` cannot make finite. A number comes through |
| `MigrateMappers.CompactKeys` | scripts/migrate-nocodb-to-pocketbase.js:53-61 | a key is kept exactly when its value is not undefined |
| `MigrateMappers.CompactNoUndefined` | scripts/migrate-nocodb-to-pocketbase.js:53-61 | no kept value is undefined |
| `MigrateMappers.CompactValue` | scripts/migrate-nocodb-to-pocketbase.js:53-61 | every defined value, null included, is kept unchanged |
| `MigrateMappers.CompactObject` | scripts/migrate-nocodb-to-pocketbase.js:53-61 | the loop keeps exactly the defined entries, and no undefined value remains |
| `MigrateMappers.MapUsers` | scripts/migrate-nocodb-to-pocketbase.js:278-289 | one payload per row |
| `MigrateMappers.UserPayloadShape` | scripts/migrate-nocodb-to-pocketbase.js:280-287 | a payload has exactly the six target keys, each `optionalNumber` of the row's field |
| `MigrateMappers.MapUsersShape` | scripts/migrate-nocodb-to-pocketbase.js:278-289 | no row is dropped, and every payload has the six keys, each a number or null |
| `MigrateMappers.MapFoodLibrary` | scripts/migrate-nocodb-to-pocketbase.js:291-304 | there are never more payloads than rows |
| `MigrateMappers.FoodLibraryName` | scripts/migrate-nocodb-to-pocketbase.js:294 | the payload's name is the trimmed `String(name)`, and the row is kept exactly when that name is non-empty |
| `MigrateMappers.FoodLibraryPayloadShape` | scripts/migrate-nocodb-to-pocketbase.js:292-302 | a payload has the name and four nutrient fields, each a number or null. `unit`, `category` and `source` appear exactly when truthy in the row, and there are no other keys |
| `MigrateMappers.FoodLibraryField` | scripts/migrate-nocodb-to-pocketbase.js:292-302 | every defined entry of the literal is in the payload |
| `MigrateMappers.FoodLibraryFieldKey` | scripts/migrate-nocodb-to-pocketbase.js:292-302 | the payload's keys are exactly the literal's defined keys |
| `MigrateMappers.MapFoodLibraryFilters` | scripts/migrate-nocodb-to-pocketbase.js:291-304 | the kept rows are exactly those with a non-empty trimmed name, in input order, and the output length is their count |
| `MigrateMappers.BlankNameDropped` | scripts/migrate-nocodb-to-pocketbase.js:294-303 | a name made only of whitespace is dropped |
| `MigrateMappers.MapFoodRecords` | scripts/migrate-nocodb-to-pocketbase.js:306-319 | there are never more payloads than rows |
| `MigrateMappers.FoodRecordPayloadShape` | scripts/migrate-nocodb-to-pocketbase.js:307-317 | a payload has exactly the three text fields and five numeric fields |
| `MigrateMappers.FoodRecordTexts` | scripts/migrate-nocodb-to-pocketbase.js:309-311 | date, meal type and name are `String` of a truthy field, else `''` |
| `MigrateMappers.FoodRecordNumbers` | scripts/migrate-nocodb-to-pocketbase.js:312-316 | the five numeric fields are `optionalNumber` of the row's fields |
| `MigrateMappers.FoodRecordField` | scripts/migrate-nocodb-to-pocketbase.js:307-317 | every defined entry of the literal is in the payload |
| `MigrateMappers.FoodRecordKeep` | scripts/migrate-nocodb-to-pocketbase.js:318 | the filter keeps a payload exactly when date, meal type and name are non-empty |
| `MigrateMappers.MapFoodRecordsFilters` | scripts/migrate-nocodb-to-pocketbase.js:306-319 | kept in input order are exactly the rows with non-empty date, meal type and name |
| `MigrateMappers.MapWaterRecords` | scripts/migrate-nocodb-to-pocketbase.js:321-328 | there are never more payloads than rows |
| `MigrateMappers.MapExerciseRecords` | scripts/migrate-nocodb-to-pocketbase.js:330-337 | there are never more payloads than rows |
| `MigrateMappers.DatedPayloadShape` | scripts/migrate-nocodb-to-pocketbase.js:322-326 | a dated payload has exactly `date` and its number field, and is kept exactly when the date is non-empty |
| `MigrateMappers.DatedFilters` | scripts/migrate-nocodb-to-pocketbase.js:321-347 | the three date-keyed mappers keep exactly the dated rows, in order |
| `MigrateMappers.MapWaterRecordsFilters` | scripts/migrate-nocodb-to-pocketbase.js:321-328 | water records: exactly the rows with a non-empty date, in order |
| `MigrateMappers.MapExerciseRecordsFilters` | scripts/migrate-nocodb-to-pocketbase.js:330-337 | exercise records: exactly the rows with a non-empty date, in order |
| `MigrateMappers.MapWeightRecords` | scripts/migrate-nocodb-to-pocketbase.js:339-347 | there are never more weight rows than rows |
| `MigrateMappers.MapWeightRecordsFilters` | scripts/migrate-nocodb-to-pocketbase.js:339-347 | weight records: exactly the rows with a non-empty date, in order, each with its parsed attachments |
| `MigrateMappers.ParseAttachments` | scripts/migrate-nocodb-to-pocketbase.js:227-244 | the result is always a list. A falsy input gives `[]`. An array comes back as is. A string is JSON-parsed, giving `[]` unless it parses to an array. Anything else gives `[]` |
| `MigrateMappers.JoinUrl` | scripts/migrate-nocodb-to-pocketbase.js:254 | exactly one `/` lies between the base and the path |
| `MigrateMappers.ResolveAttachmentUrlCases` | scripts/migrate-nocodb-to-pocketbase.js:246-255 | resolving yields nothing exactly when no field is truthy, and throws for a null attachment or a truthy non-string path that is not an http(s) URL. The first truthy field comes back unchanged when it is an http(s) URL, and is otherwise joined to the NocoDB URL with one slash |
| `Js.FirstTruthy` | scripts/migrate-nocodb-to-pocketbase.js:247 | `a \|\| b \|\| c` is the first truthy value, and is falsy exactly when all are falsy |
| `MigrateLoops.PageRequests` | scripts/migrate-nocodb-to-pocketbase.js:126-131 | the page requests are at offsets 0, 200, 400, … |
| `MigrateLoops.PageStep` | scripts/migrate-nocodb-to-pocketbase.js:133-139 | a page extends the rows read so far, and a page shorter than 200 is the end of the table |
| `MigrateLoops.ListAllNocoRows` | scripts/migrate-nocodb-to-pocketbase.js:121-144 | every row of the table comes back in order. The reads are one more than the table's full pages. A missing table fails after the first request |
| `MigrateLoops.DeleteCalls` | scripts/migrate-nocodb-to-pocketbase.js:212-217 | one DELETE per listed record, in listing order |
| `MigrateLoops.ClearCallsDeletes` | scripts/migrate-nocodb-to-pocketbase.js:195-225 | clearing deletes every record exactly once, newest first |
| `MigrateLoops.ClearCallsKinds` | scripts/migrate-nocodb-to-pocketbase.js:195-225 | clearing issues only page-1 listings and deletes |
| `MigrateLoops.ClearStep` | scripts/migrate-nocodb-to-pocketbase.js:200-222 | one round lists page 1 and deletes it, and continues only after a full page |
| `MigrateLoops.DeletePage` | scripts/migrate-nocodb-to-pocketbase.js:212-217 | the inner loop deletes the listed newest records and counts them |
| `MigrateLoops.ClearPage` | scripts/migrate-nocodb-to-pocketbase.js:200-222 | one round lists page 1 and deletes it. A short page finishes the clearing trace, and a full one leaves the rest of the trace to the next round |
| `MigrateLoops.ClearCollection` | scripts/migrate-nocodb-to-pocketbase.js:195-225 | the count returned is the collection's old size, and the collection ends empty. The trace is exactly the clearing calls |
| `MigrateLoops.AuthOutcome` | scripts/migrate-nocodb-to-pocketbase.js:146-176 | the token comes from the first endpoint that returns one, `_superusers` before `admins`. Otherwise it fails with `PocketBase auth failed: …` |
| `MigrateLoops.PbAuth` | scripts/migrate-nocodb-to-pocketbase.js:146-176 | the loop returns that outcome, and only logs in |
| `MigrateLoops.FindBase` | scripts/migrate-nocodb-to-pocketbase.js:97 | `find` is the first base with the title, and nothing exactly when none has it |
| `MigrateLoops.BaseIdOf` | scripts/migrate-nocodb-to-pocketbase.js:94-104 | the id is that of the first base with the title when non-empty. Otherwise it fails with `NocoDB base not found: <title>` |
| `MigrateLoops.ResolveNocoBaseId` | scripts/migrate-nocodb-to-pocketbase.js:94-104 | one listing call returns that id |
| `MigrateLoops.TableIdMapKeys` | scripts/migrate-nocodb-to-pocketbase.js:106-119 | a title (else table name) is a key exactly when some table with an id has it, and every id is non-empty |
| `MigrateLoops.TableIdMapLast` | scripts/migrate-nocodb-to-pocketbase.js:111-116 | a later table with the same title wins |
| `MigrateLoops.ResolveTableIds` | scripts/migrate-nocodb-to-pocketbase.js:106-119 | the loop builds that map with one listing call |
| `MigrateLoops.AttachmentFileCases` | scripts/migrate-nocodb-to-pocketbase.js:257-276 | a file is built exactly when the URL resolves and is served; an unserved URL fails with the 404 message. Its bytes are those served at the URL. Its name is the title, else the fallback. Its MIME type is the attachment's, else the served type, else `application/octet-stream` |
| `MigrateLoops.BuildAttachmentFile` | scripts/migrate-nocodb-to-pocketbase.js:257-276 | building the file returns that, after one download when there is a URL |
| `Migrate.CreateAll` | scripts/migrate-nocodb-to-pocketbase.js:431-433 | the payloads are created in order with fresh ids. At the first rejected create the run stops, and the records created before it remain |
| `Migrate.AttachPhoto` | scripts/migrate-nocodb-to-pocketbase.js:472-482 | the try block uploads the built file onto the created record. Any failure is caught as `Failed` |
| `Migrate.PhotoStep` | scripts/migrate-nocodb-to-pocketbase.js:470-483 | only the first attachment is tried, and only when the create revealed an id |
| `Migrate.MigrateWeightRow` | scripts/migrate-nocodb-to-pocketbase.js:467-484 | only a rejected create fails the row. The record is added with the photo outcome |
| `Migrate.CountsBounded` | scripts/migrate-nocodb-to-pocketbase.js:474-480 | each row adds at most one to the two photo counters together |
| `Migrate.WeightsDone` | scripts/migrate-nocodb-to-pocketbase.js:466-486 | after all rows, the collection gained one record per row, and the counters are the uploaded and failed outcomes |
| `Migrate.WeightsStopped` | scripts/migrate-nocodb-to-pocketbase.js:466-486 | a rejected create leaves the records of the rows before it |
| `Migrate.MigrateWeights` | scripts/migrate-nocodb-to-pocketbase.js:465-488 | the weight loop ends in one of those two states, and sends only creates and uploads |
| `MigrateRun.ClearOrderValues` | scripts/migrate-nocodb-to-pocketbase.js:10-17 | the clearing order is the mapping's collections reversed, and both lists are duplicate-free |
| `MigrateRun.ClearAllCallsKinds` | scripts/migrate-nocodb-to-pocketbase.js:401-404 | the first loop issues only listings and deletes |
| `MigrateRun.ClearedAll` | scripts/migrate-nocodb-to-pocketbase.js:401-404 | after the first loop every collection is empty, and its old size is recorded in `deleted` |
| `MigrateRun.ClearAll` | scripts/migrate-nocodb-to-pocketbase.js:401-404 | the first loop clears every collection in reverse mapping order. A missing collection stops it, and those cleared before stay empty |
| `MigrateRun.MigratePlain` | scripts/migrate-nocodb-to-pocketbase.js:415-463 | the plain table branches create the mapped payloads (`Users`: only the first) and record the count |
| `MigrateRun.MigrateWeightTable` | scripts/migrate-nocodb-to-pocketbase.js:465-488 | the weight branch succeeds exactly when every create is accepted |
| `MigrateRun.MigrateTable` | scripts/migrate-nocodb-to-pocketbase.js:406-489 | one table step skips a table without an id, and otherwise runs its branch |
| `MigrateRun.MigrateTables` | scripts/migrate-nocodb-to-pocketbase.js:406-490 | the second loop runs the tables in mapping order, and the first error stops it |
| `MigrateRun.ConfigOf` | scripts/migrate-nocodb-to-pocketbase.js:369-384 | the configuration is found exactly when the three variables and the credentials are. A missing NocoDB URL names the error |
| `MigrateRun.ConfigErrors` | scripts/migrate-nocodb-to-pocketbase.js:369-384 | a missing token, PocketBase URL or credentials names the error when everything read before it is set |
| `MigrateRun.ConfigValues` | scripts/migrate-nocodb-to-pocketbase.js:369-380 | a configuration found holds the values the `requiredEnv` lookups and the credential chains give |
| `MigrateRun.Configure` | scripts/migrate-nocodb-to-pocketbase.js:367-384 | the opening lines of `run` produce that configuration |
| `MigrateRun.AuthCallsKinds` | scripts/migrate-nocodb-to-pocketbase.js:154-172 | logging in sends only login requests |
| `MigrateRun.Connect` | scripts/migrate-nocodb-to-pocketbase.js:386-391 | login, base id and table map, with only login requests sent to PocketBase |
| `MigrateRun.Prepare` | scripts/migrate-nocodb-to-pocketbase.js:366-391 | a configuration error comes before any request |
| `MigrateRun.ClearTargets` | scripts/migrate-nocodb-to-pocketbase.js:401-404 | clearing succeeds exactly when every collection exists, and then leaves the loop's start state |
| `MigrateRun.MigrateAll` | scripts/migrate-nocodb-to-pocketbase.js:401-490 | the trace is the clears, then only creates and uploads. It succeeds exactly when all collections exist and every step succeeds |
| `MigrateRun.Run` | scripts/migrate-nocodb-to-pocketbase.js:366-491 | `run`'s trace is logins, then clears, then writes. Its result and final state are those of the spec functions |
| `MigrateSummary.StepEffect` | scripts/migrate-nocodb-to-pocketbase.js:406-489 | one table's branch writes only its own collection's entries, and never touches `deleted`. Each photo is counted at most once |
| `MigrateSummary.ImportedMatchesCreated` | scripts/migrate-nocodb-to-pocketbase.js:415-488 | `imported` equals the records added to the collection, whatever happens to the photos |
| `MigrateSummary.MissingTable` | scripts/migrate-nocodb-to-pocketbase.js:407-412 | a table without an id is skipped as `missing table`, imports nothing, and the loop continues |
| `MigrateSummary.UsersEntry` | scripts/migrate-nocodb-to-pocketbase.js:417-426 | `Users` imports 0 or 1 (1 exactly when there are rows) and creates only `mapped[0]`. With more than one row the note names the count |
| `MigrateSummary.WeightsEntry` | scripts/migrate-nocodb-to-pocketbase.js:465-488 | weight records import every mapped row and skip none |
| `MigrateSummary.StepsEffect` | scripts/migrate-nocodb-to-pocketbase.js:406-490 | the loop leaves the entries of collections outside its steps alone |
| `MigrateSummary.StepsEntry` | scripts/migrate-nocodb-to-pocketbase.js:406-490 | each collection's entries are the ones its own branch writes |
| `MigrateSummary.MappingCollections` | scripts/migrate-nocodb-to-pocketbase.js:10-17 | the mapping's six collections, in order |
| `MigrateSummary.RunSummary` | scripts/migrate-nocodb-to-pocketbase.js:393-490 | `deleted` holds the old sizes, and each collection's entries come from its own table. No other key appears, and the photo counters stay within the weight rows |
| `MigrateSummary.StepsSummary` | scripts/migrate-nocodb-to-pocketbase.js:393-490 | the same summary facts for a table loop over any list of distinct collections |
| `MigrateSummary.ClearsBeforeWrites` | scripts/migrate-nocodb-to-pocketbase.js:386-490 | every login precedes every other request, and every delete precedes every create and upload |
| `FoodImport.LoadEnv` | scripts/import-food-library-all.js:16-28 | the loop builds the dictionary of the non-empty lines |
| `FoodImport.ReadLine` | scripts/import-food-library-all.js:20-23 | the untrimmed line gives no entry exactly when `=` is missing or first. Otherwise the key is the trimmed text before the first `=` and the value the trimmed rest, later `=` included. This is the entry `LineEntry` gives |
| `FoodImport.ApplyLine` | scripts/import-food-library-all.js:19-25 | one iteration writes the line's entry into the dictionary and otherwise leaves it unchanged |
| `FoodImport.EnvEntries` | scripts/import-food-library-all.js:18-26 | a key is set exactly when a line writes it, and holds the value of the last such line. No key holds `=` |
| `FoodImport.LinesShape` | scripts/import-food-library-all.js:18 | splitting on runs of newlines leaves non-empty lines without newlines |
| `FoodImport.EnvKeepsComments` | scripts/import-food-library-all.js:20-25 | a `#` line with `=` is a definition |
| `FoodImport.EnvBlankKey` | scripts/import-food-library-all.js:21-24 | a blank key defines the empty key. A line without `=`, or starting with it, defines nothing |
| `FoodImport.ParseNum` | scripts/import-food-library-all.js:30-35 | null and undefined both read as `''`. The sentinels and non-finite text give null; otherwise the result is the finite number |
| `FoodImport.ParseNumSentinels` | scripts/import-food-library-all.js:31-32 | sentinels surrounded by blanks are still sentinels |
| `FoodImport.LazyDash` | scripts/import-food-library-all.js:38 | the lazy `(.+?)-` picks the first admissible `-` |
| `FoodImport.LazyDashFinds` | scripts/import-food-library-all.js:38 | that first admissible `-` is found |
| `FoodImport.ParseCategoryStrips` | scripts/import-food-library-all.js:37-41 | a matching name loses exactly `merged_` and `.json`. Any other name loses only a trailing `.json` |
| `FoodImport.CategoryOfMerged` | scripts/import-food-library-all.js:37-41 | `merged_X-Y.json` gives `X-Y` |
| `FoodImport.PushItemRows` | scripts/import-food-library-all.js:55-69 | the inner loop gives the file's item rows, and stops at a null item |
| `FoodImport.BuildAllRows` | scripts/import-food-library-all.js:43-73 | the nested loops give the rows of every `.json` file in order |
| `FoodImport.FoodRowShape` | scripts/import-food-library-all.js:56-68 | a pushed row has the eight keys: a trimmed non-empty name, nutrients that are numbers or null, unit `100g`, the constant source, and the category |
| `FoodImport.RowOfShape` | scripts/import-food-library-all.js:59-68 | the row literal has that shape |
| `FoodImport.ItemRowShape` | scripts/import-food-library-all.js:55-69 | every row of an item has it |
| `FoodImport.FileRowsShape` | scripts/import-food-library-all.js:50-70 | every row of a file carries the category its name gives |
| `FoodImport.AllRowsShape` | scripts/import-food-library-all.js:43-73 | every row comes from a `.json` file of the directory, with that file's category |
| `FoodSync.FindTable` | scripts/import-food-library-all.js:102 | `find` is the first table titled or named FoodLibrary, and nothing exactly when none is |
| `FoodSync.FindAppended` | scripts/import-food-library-all.js:123-125 | after the create, the relisting finds the new table |
| `FoodSync.ResolvedTable` | scripts/import-food-library-all.js:92-133 | resolving succeeds exactly when the `keepfit` base exists and lists tables. An existing FoodLibrary table wins over creating one |
| `FoodSync.ResolveTable` | scripts/import-food-library-all.js:100-130 | the table part lists tables, and creates and relists only when the table is missing |
| `FoodSync.ResolveBaseAndTable` | scripts/import-food-library-all.js:92-133 | `resolveBaseAndTable` gives that table, with that trace and state. A missing base fails with `Base not found: keepfit` |
| `FoodSync.RowDeletes` | scripts/import-food-library-all.js:144-150 | one DELETE per listed row, in order |
| `FoodSync.ClearRowsDeletes` | scripts/import-food-library-all.js:135-154 | emptying deletes every row once, in table order |
| `FoodSync.ClearRowsReads` | scripts/import-food-library-all.js:139-151 | it reads ceil(n/200) + 1 pages, so the last read is the empty one, with no short-page exit |
| `FoodSync.ClearRowsKinds` | scripts/import-food-library-all.js:135-154 | emptying issues only offset-0 reads and deletes |
| `FoodSync.DeleteListed` | scripts/import-food-library-all.js:144-150 | the inner loop deletes the listed first rows and counts them |
| `FoodSync.DeleteAllRows` | scripts/import-food-library-all.js:135-154 | the count returned is the table's old size, and the table ends empty |
| `FoodSync.BatchesShape` | scripts/import-food-library-all.js:157-166 | the batches concatenate to the rows. Each holds 1 to 100 rows, and there are ceil(n/100) of them |
| `FoodSync.InsertCalls` | scripts/import-food-library-all.js:159-164 | one POST per batch, in order |
| `FoodSync.InsertAllRows` | scripts/import-food-library-all.js:156-168 | the count returned is `rows.length`, and the table gains exactly those rows in order with fresh ids. No rows means no request |
| `FoodSync.Sync` | scripts/import-food-library-all.js:190-195 | resolve, empty, insert, count: the table then holds exactly the inserted rows |
| `FoodSync.ImportAll` | scripts/import-food-library-all.js:170-195 | a failed pre-flight check sends no request and changes nothing |
| `FoodSync.PreflightRows` | scripts/import-food-library-all.js:171-188 | the checks pass exactly when both files exist, both variables are set, and at least one row parses |
| `FoodSync.OutcomeReport` | scripts/import-food-library-all.js:190-205 | about the specification function `Outcome`, which `FoodSync.Sync`'s ensures equates with what the import reports: parsed, inserted and total rows are equal, and the deleted count is the table's old size, 0 for a new table |
| `FoodSync.DeletesBeforeInserts` | scripts/import-food-library-all.js:190-192 | every row delete precedes every row insert |
| `PocketBaseLib.PocketBaseUrl` | src/lib/pocketbase.ts:3 | a set, non-empty variable is used, else `http://127.0.0.1:8090` |
| `PocketBaseLib.EscapeIsEach` | src/lib/pocketbase.ts:17-19 | the two passes escape each character on its own, so the backslash added before a quote is not doubled |
| `PocketBaseLib.UnescapeEscape` | src/lib/pocketbase.ts:17-19 | unescaping the escaped value gives the value back |
| `PocketBaseLib.EscapeLength` | src/lib/pocketbase.ts:17-19 | the length grows by the number of backslashes plus the number of quotes |
| `PocketBaseLib.EscapeKeepsOthers` | src/lib/pocketbase.ts:17-19 | a value without backslashes or quotes is unchanged |
| `PocketBaseLib.Utf8` | src/lib/pocketbase.ts:14 | UTF-8 gives 1 to 4 bytes. ASCII is itself, and every byte of a non-ASCII character is 0x80 or more |
| `PocketBaseLib.PercentByte` | src/lib/pocketbase.ts:14 | a byte encodes as `%` and two hexadecimal digits |
| `PocketBaseLib.RestoreByte` | src/lib/pocketbase.ts:14 | only `%2F` turns into `/` when passing over an encoded byte |
| `PocketBaseLib.RestoreChar` | src/lib/pocketbase.ts:14 | only an encoded slash turns back into `/` when passing over an encoded character |
| `PocketBaseLib.PathSegmentChars` | src/lib/pocketbase.ts:13-15 | `encodePathSegment` is `encodeURIComponent` with real slashes left as they are |
| `PocketBaseLib.EncodeSlash` | src/lib/pocketbase.ts:14 | `/` encodes as `%2F` |
| `PocketBaseLib.EncodePercent` | src/lib/pocketbase.ts:14 | `%` encodes as `%25`, so it never forms `%2F` |
| `PocketBaseLib.EncodedHasNoQuery` | src/lib/pocketbase.ts:13-15 | no encoded segment holds `?` |
| `PocketBaseLib.FileUrlParts` | src/lib/pocketbase.ts:21-29 | the URL is the server, `/api/files/` and the three encoded segments, plus `?thumb=` and the encoded thumb exactly when the thumb is truthy |
| `PhotoPage.PhotoUrlCases` | src/app/record/photo/page.tsx:10-16 | an absent attachment or a falsy path gives nothing, and a truthy non-string path throws. A string path comes back unchanged when it is an http(s) URL, and is otherwise joined to the NocoDB URL with one slash |
| `PhotoPage.RawPathFirstSet` | src/app/record/photo/page.tsx:12-13 | `??` takes the first field that is neither null nor undefined. So `url: ''` gives nothing |
| `PhotoPage.EmptyUrlHidesPath` | src/app/record/photo/page.tsx:12-13 | with `url: ''` and a path, the page gives nothing where the migration's `\|\|` gives the path |
| `PhotoPage.AgreesWithMigration` | src/app/record/photo/page.tsx:10-16 | when no field is falsy without being null or undefined, the page and the migration give the same URL |
| `PhotoPage.RelativePathAt` | src/app/record/photo/page.tsx:15 | a relative path is joined to the URL the page is given |
| `PhotoPage.RelativePathAsWritten` | src/app/record/photo/page.tsx:6 | as written, the import of `NOCODB_URL` is undefined, so a relative path gives `undefined/…` |
| `PhotoPage.RelativePathIntended` | src/lib/nocodb.ts:3 | with the URL exported and unset, the path lies under `http://docker.home:8020` |
| `PhotoPage.PhotoUrlUnderServer` | src/app/record/photo/page.tsx:14-15 | with the corrected import, every relative path lies under the configured server |
| `InitNocoDb.LineEntryCases` | scripts/init-nocodb.js:7-10 | a line is skipped exactly when it is empty or starts with `=`. The key is the trimmed text before the first `=`. The value is everything after it, inner `=` kept and trimmed, or `''` without `=` |
| `InitNocoDb.LineEntryVersusImport` | scripts/init-nocodb.js:7-10 | this parser agrees with the import's wherever a key precedes `=`. A bare line is skipped there, but stored here |
| `InitNocoDb.CommentsKept` | scripts/init-nocodb.js:6-11 | `#` lines are not skipped |
| `InitNocoDb.ApplyLine` | scripts/init-nocodb.js:7-10 | the callback writes the line's entry |
| `InitNocoDb.ParseEnv` | scripts/init-nocodb.js:4-11 | the `forEach` builds the dictionary of the lines |
| `InitNocoDb.EnvEntries` | scripts/init-nocodb.js:6-11 | a key is set exactly when a line writes it, and holds the value of the last such line |
| `InitNocoDb.ChosenBase` | scripts/init-nocodb.js:37-39 | the first `keepfit` base if any, else the first base, and nothing exactly when there are no bases |
| `InitNocoDb.FindUsers` | scripts/init-nocodb.js:53 | the first table named or titled `Users`, and nothing exactly when there is none |
| `InitNocoDb.SettleBase` | scripts/init-nocodb.js:33-47 | the base is the chosen one, or, in an empty list, a newly created `keepfit` base |
| `InitNocoDb.Init` | scripts/init-nocodb.js:31-80 | `init` ends with that outcome, trace and final state. The Users table is created only when missing, and every error ends in a logged outcome |
| `InitNocoDb.OutcomeCases` | scripts/init-nocodb.js:32-79 | `init` fails exactly when the URL is unset or the chosen base lists no tables. With no bases it creates both the base and the Users table. When it finds Users, it only lists bases and tables and changes nothing |
| `InitNocoDb.InitIdempotent` | scripts/init-nocodb.js:53-58 | a second run finds the Users table of the first and creates nothing |

## Left out

- **HTTP:** the request helpers, headers, tokens, JSON bodies and `!res.ok` handling are replaced by the `Stores` classes.
  - The servers never check tokens. A URL is only checked for being set.
  - Server errors carry the model's own texts, such as `HTTP 404 /api/v2/tables/<id>/records`, in place of the real status and body.
- **Host parsing:** `Number(text)`, number formatting and `JSON.parse` are host parameters. IEEE doubles are not modelled; numbers are finite reals.
- **`JSON.parse` messages:** the failure text of `JSON.parse` on a data file is a stand-in (`Unexpected token in JSON: <file>`).
- **Sort order:** `localeCompare(…, 'zh-Hans-CN')` is not modelled. The data directory is given already in that order.
- **Clock:** `Date.now()` in the fallback photo name is a parameter (the clock, indexed by row).
- **Console output:** nothing is logged, and no process exit code is modelled. The summary is returned instead of printed.
- **Delete responses:** the page-deletion loops of both scripts ignore the delete responses, like the scripts. The model's servers cannot fail a delete of a listed record.
- **File upload:** `File`, `FormData` and the multipart upload are a `PbFile` value and one `Upload` call.
- **`encodeURIComponent`:** a lone surrogate, which throws `URIError`, cannot occur, because Dafny characters are Unicode scalar values.
- **Row count:** `verify.pageInfo?.totalRows ?? null` is the table's row count. The null case for a response without `pageInfo` is not modelled.
- **Response shapes:** `response.list \|\| response` and the `\|\| []` fallbacks are not modelled. The servers always answer with lists.
- **Partial state:** a failing migration is described by the state when it stopped. The servers' behaviour during a half-finished request is not modelled.
- **Column lists:** the Users and FoodLibrary column lists of the table-creating requests are not recorded by the `NocoDb` store.
- **Missing `.env.local`:** in `scripts/init-nocodb.js` this throws outside `init`'s `try`. `ParseEnv` takes the file's text.
- **Init URL check:** the script's URL is checked only for being set and non-empty. A malformed URL that `fetch` cannot parse is taken as reachable.
- **Axios instances:** the axios instances of `src/lib/pocketbase.ts` and `src/lib/nocodb.ts`, the React pages and the stores are outside this model.

## Findings

| source | as written | input that shows it | evidently intended | confidence | as-written member | corrected member |
|---|---|---|---|---|---|---|
| src/app/record/photo/page.tsx:6 | imports `NOCODB_URL` from `src/lib/nocodb.ts`, but that module declares it at line 3 without exporting it. So the binding is undefined, and a relative path is joined to the text `undefined` | an attachment `{ path: '/download/a.jpg' }` gives `undefined/download/a.jpg` | the configured NocoDB URL, or `http://docker.home:8020` when unset | not executed; a TypeScript type check would also reject the import | `PhotoPage.RelativePathAsWritten` | `PhotoPage.RelativePathIntended` |
