# MultiServerSqlExecutor in Dafny

MultiServerSqlExecutor runs one SQL statement on every configured database
server. It combines the per-server result tables into one table, whose
columns are a synthetic `Server` column followed by the case-insensitive
union of all result columns. It writes that table, and optionally one file
per server, as CSV. A command-line front end (`Program.cs`) and two WPF windows
(`MainWindow`, `ServersWindow`) drive it. Server entries are kept in a JSON
registry (`ConfigStore`).

This project models, in Dafny:

- **The data model.** Connection entries, the connection string they build,
  and the slice of `System.Data.DataTable` the exporter relies on. That
  slice is: cells with a null case; exact-duplicate column names refused
  by `Columns.Add`; and the column indexer (exact match first, otherwise
  the unique case-insensitive match, otherwise an exception). These live
  in `models.dfy` and `data_tables.dfy`.
- **The reconciliation.** It is specified declaratively (`reconciliation.dfy`).
  If some input column is spelled exactly `Server` at its first
  case-insensitive occurrence, adding it after the synthetic column throws
  `DuplicateNameException`. If no input column equals `Server` ignoring
  case, the combination is proved to succeed. It then yields `Server` plus
  the first-spelling union of the columns, and one row per input row,
  entry by entry. Each row carries its server's name and holds null in
  every column its entry lacks. When an entry's own columns are distinct
  ignoring case, each of its source values lands in the matching column. Two behaviours
  of the source fall between these cases, and the model keeps both
  (`Reconciliation.ServerCellAmbiguous`, `Reconciliation.ServerCellOverwritten`):
  - When the union keeps a spelling such as `server` and a later entry
    spells it differently, e.g. `SERVER`, the indexer finds two
    case-insensitive matches for `SERVER`. The combination throws.
  - When the union keeps `server` and a later entry spells it `Server`,
    the exact match is the synthetic column. That entry's value overwrites
    the server's name in its rows.
- **The exporter** (`csv_exporter.dfy`). It is imperative, as the source
  is: the loops that collect the column set, add the columns, and build
  and fill the rows; the record-by-record CSV writer; the file-name
  sanitiser; and the per-server export. Each is proved against the
  declarative definitions.
- **The registry** (`config_store.dfy`). A `Store` class holds the
  configuration file's content as a field. `Add`, `AddOrUpdate` and
  `Remove` load the list, edit it and save it. They are proved to keep
  names unique ignoring case.
- **The command line** (`cli.dfy`). The index-skipping argument parser, the
  command switch, and the exit codes of `add-server`, `remove-server` and
  `execute-query`.
- **The windows** (`main_window.dfy`, `servers_window.dfy`). The main
  window's query run, its own copy of the combination, and saving. The
  server editor's validation, the authentication-type visibility mapping,
  and its store updates.

Modelling choices:

- **Enumeration order.** `HashSet` and `Dictionary` enumeration order is
  taken to be insertion order. The column union is in first-occurrence
  order, and results are in server order.
- **Case.** `StringComparer.OrdinalIgnoreCase` and `ToLowerInvariant` act on
  ASCII letters only.
- **Authentication.** Entries carry an authentication type. The editor sets
  it. An entry created any other way is assumed to get `SqlPassword`. The
  declaration of the type and its default are not part of this model.
- **The outside world** is a parameter:
  - the configuration file's content;
  - which files exist;
  - what each server returns for the query;
  - the platform's invalid file-name characters and directory separator;
  - the save dialog's answer;
  - a `Disk` object, a map from path to CSV records.

Behaviour of the code that the model keeps:

- The synthetic column is named `Server`.
- One failing server fails the whole run (`Task.WhenAll`). There is no
  per-server isolation.
- Two servers with exactly the same name make `ToDictionary` throw.
- Columns added to the combined table are untyped. Cell formatting is
  therefore not shown to agree between the per-server and the combined
  files.

`src/MultiServerSqlExecutor.Core/Models/ServerConnection.cs` disagrees
with itself. The comment on line 13 says the connection string sets
`Encrypt=False`, but the template on line 14 sets `Encrypt=True`. The model
follows the template (`Models.ConnectionStringRoundTrip`).

## Model

| member | source | states |
|---|---|---|
| Text.Trim | src/MultiServerSqlExecutor.Ui/ServersWindow.xaml.cs:37-40 | String.Trim: the result is empty exactly when the input is all whitespace; otherwise it starts and ends with a non-whitespace character |
| Text.TrimKeepsMiddle | src/MultiServerSqlExecutor.Ui/ServersWindow.xaml.cs:37-40 | what Trim keeps is a contiguous middle of the input, character for character; everything cut from either end is whitespace |
| Text.BlankAfterTrim | src/MultiServerSqlExecutor.Ui/ServersWindow.xaml.cs:45-46 | a trimmed field is null-or-whitespace exactly when the raw text is |
| Text.TrimTwice | src/MultiServerSqlExecutor.Ui/ServersWindow.xaml.cs:37-40 | trimming is idempotent |
| Text.SameNameLower | src/MultiServerSqlExecutor.Cli/Program.cs:35 | two words equal ignoring case have the same lower-case form |
| Models.DefaultConnection | src/MultiServerSqlExecutor.Core/Models/ServerConnection.cs:5-9 | a new entry has all five text fields empty, and SqlPassword authentication |
| Models.BuildConnectionString | src/MultiServerSqlExecutor.Core/Models/ServerConnection.cs:11-15 | the fixed template with Server, Database, Username and Password substituted unescaped; its length is the template's 175 characters plus the four fields; ConnectionStringPairs and ConnectionStringRoundTrip state its pieces |
| Models.ConnectionStringPairs | src/MultiServerSqlExecutor.Core/Models/ServerConnection.cs:14 | when no field contains ';', splitting the connection string on ';' gives the nine key=value pairs in template order, with the fields substituted verbatim, followed by one empty piece |
| Models.ConnectionStringRoundTrip | src/MultiServerSqlExecutor.Core/Models/ServerConnection.cs:11-15 | round trip: each piece splits at its first '=' into the template key and its value. The server value is always `tcp:<Server>,1433`. Database, user and password come back unchanged. The flags are the constants Encrypt=True, TrustServerCertificate=True, MultipleActiveResultSets=False and Connection Timeout=30 |
| Models.ConnectionStringPieceCount | src/MultiServerSqlExecutor.Core/Models/ServerConnection.cs:14 | there is no escaping: every ';' inside a field adds one piece, so the pairs come back only when the fields are free of ';' |
| DataTables.FirstMatch | src/MultiServerSqlExecutor.Core/Services/CsvExporter.cs:26-29 | the first name equal ignoring case (the HashSet membership test), with no earlier match; none exactly when no name matches |
| DataTables.Lookup | src/MultiServerSqlExecutor.Core/Services/CsvExporter.cs:41 | the column indexer: a column named exactly so wins; otherwise the one column matching ignoring case; it throws exactly when there is no exact match and the case-insensitive match is not unique |
| DataTables.LookupUnique | src/MultiServerSqlExecutor.Core/Services/CsvExporter.cs:41 | in a header whose names are distinct ignoring case, the indexer finds the unique column matching ignoring case |
| Reconciliation.UnionOf | src/MultiServerSqlExecutor.Core/Services/CsvExporter.cs:26-29 | the case-insensitive set of column names: no two equal ignoring case, every member is an input name, and every input name is matched |
| Reconciliation.UnionFirstSpelling | src/MultiServerSqlExecutor.Core/Services/CsvExporter.cs:26-31 | each combined column keeps the spelling of its first occurrence among the inputs |
| Reconciliation.ServerColumnRejected | src/MultiServerSqlExecutor.Core/Services/CsvExporter.cs:24-31 | the union holds "Server" exactly when the first input column equal to it ignoring case is spelled "Server"; then adding it throws DuplicateNameException |
| Reconciliation.ServerCellAmbiguous | src/MultiServerSqlExecutor.Core/Services/CsvExporter.cs:28-41 | for example entries ["server"] (no rows) then ["SERVER"] (one row): the union keeps "server", the indexer finds two case-insensitive matches and no exact one, so the combination throws |
| Reconciliation.ServerCellOverwritten | src/MultiServerSqlExecutor.Core/Services/CsvExporter.cs:28-41 | for example entries ["server"] (no rows) then ["Server"] with row ("x"): the union keeps "server", that entry's value lands in the synthetic column and replaces the server's name |
| Reconciliation.HeaderDistinct | src/MultiServerSqlExecutor.Core/Services/CsvExporter.cs:24-31 | when no input column is named like "Server", the combined header has no two names equal ignoring case |
| Reconciliation.FillRowMeaning | src/MultiServerSqlExecutor.Core/Services/CsvExporter.cs:37-42 | filling a new row cell by cell through the name indexer gives the declarative row |
| Reconciliation.RowsOfMeaning | src/MultiServerSqlExecutor.Core/Services/CsvExporter.cs:33-45 | the nested row loops give the declarative rows, entry after entry |
| Reconciliation.CombinedMeaning | src/MultiServerSqlExecutor.Core/Services/CsvExporter.cs:23-45 | when no input column is named like "Server", the combination succeeds with header "Server" plus the union, and the declarative rows |
| Reconciliation.Combined | src/MultiServerSqlExecutor.Core/Services/CsvExporter.cs:23-45 | the combination step by step: on success the header is "Server" plus the union and "Server" occurs only first; CombinedMeaning, CombinedWellFormed and ServerColumnRejected state its outcome |
| Reconciliation.ExpectedRowsCount | src/MultiServerSqlExecutor.Core/Services/CsvExporter.cs:33-45 | the combined row count is the sum of the input row counts |
| Reconciliation.ExpectedRowsAt | src/MultiServerSqlExecutor.Core/Services/CsvExporter.cs:33-44 | row r of entry i sits at position (rows of the earlier entries) + r: grouped by entry in order, and in source order within an entry |
| Reconciliation.ExpectedRowPlacement | src/MultiServerSqlExecutor.Core/Services/CsvExporter.cs:37-42 | a combined row's Server cell is its entry's key; columns the source lacks are null; with source columns distinct ignoring case, each source value lands in the column matching its name |
| Reconciliation.CombinedWellFormed | src/MultiServerSqlExecutor.Core/Services/CsvExporter.cs:23-45 | a successful combination is a well-formed table (distinct names, one cell per column in every row) whose first column is "Server" |
| Reconciliation.RowsOfErrStays | src/MultiServerSqlExecutor.Core/Services/CsvExporter.cs:33-45 | once an exception is raised while adding rows, later entries do not change the outcome |
| CsvExporter.CsvLayout | src/MultiServerSqlExecutor.Core/Services/CsvExporter.cs:59-72 | the records of a table are exactly: the header of column names in table order, then one record per row, with one field per column in column order |
| CsvExporter.CsvRecords | src/MultiServerSqlExecutor.Core/Services/CsvExporter.cs:59-72 | the writer's loops emit records with that layout |
| CsvExporter.WriteDataTableToCsv | src/MultiServerSqlExecutor.Core/Services/CsvExporter.cs:50-73 | the file at the path is overwritten with the table's records; no other file changes |
| CsvExporter.SanitizeFileName | src/MultiServerSqlExecutor.Core/Services/CsvExporter.cs:75-80 | the length is kept, every invalid character becomes '_', and every other character is unchanged |
| CsvExporter.SanitizedClean | src/MultiServerSqlExecutor.Core/Services/CsvExporter.cs:75-80 | when '_' is valid, the output has no invalid character; sanitising is idempotent |
| CsvExporter.PathCombineInjective | src/MultiServerSqlExecutor.Core/Services/CsvExporter.cs:15 | within one directory, distinct relative file names give distinct paths |
| CsvExporter.PerServerPathCollision | src/MultiServerSqlExecutor.Core/Services/CsvExporter.cs:13-16 | two keys get the same per-server path string exactly when they sanitise to the same name (a collision of files on a case-sensitive file system) |
| CsvExporter.PerServerFilesLast | src/MultiServerSqlExecutor.Core/Services/CsvExporter.cs:13-17 | each entry's path `directory/Sanitize(key).csv` holds that entry's records unless a later entry targets the same path string |
| CsvExporter.PerServerFilesOthers | src/MultiServerSqlExecutor.Core/Services/CsvExporter.cs:13-17 | a path that no entry targets is untouched |
| CsvExporter.ExportPerServer | src/MultiServerSqlExecutor.Core/Services/CsvExporter.cs:10-18 | the directory is created, and the files become the per-server writes in entry order |
| CsvExporter.CollectColumns | src/MultiServerSqlExecutor.Core/Services/CsvExporter.cs:26-29 | the nested loops build the case-insensitive union of all input columns |
| CsvExporter.AddAll | src/MultiServerSqlExecutor.Core/Services/CsvExporter.cs:28-29 | adding one table's columns to the set extends the union by those columns |
| CsvExporter.AddColumns | src/MultiServerSqlExecutor.Core/Services/CsvExporter.cs:24-31 | "Server" then the collected names; DuplicateNameException exactly when a collected name is "Server" |
| CsvExporter.NewCombinedRow | src/MultiServerSqlExecutor.Core/Services/CsvExporter.cs:37-42 | the row loop agrees with the declarative row fill, exception included |
| CsvExporter.AddEntryRows | src/MultiServerSqlExecutor.Core/Services/CsvExporter.cs:35-44 | the inner row loop over one entry agrees with that entry's declarative rows; the first row that throws stops it with that exception |
| CsvExporter.AddRows | src/MultiServerSqlExecutor.Core/Services/CsvExporter.cs:33-45 | the outer entry loop agrees with the declarative rows of all entries, exception included |
| CsvExporter.ExportCombined | src/MultiServerSqlExecutor.Core/Services/CsvExporter.cs:20-48 | equals the declarative combination; on success the table is well formed and the output file holds its records; on an exception no file changes |
| ConfigStore.FirstNamed | src/MultiServerSqlExecutor.Core/Services/ConfigStore.cs:59 | the first entry whose name equals the given name ignoring case; none exactly when no name matches |
| ConfigStore.UpsertedShape | src/MultiServerSqlExecutor.Core/Services/ConfigStore.cs:59-67 | AddOrUpdate replaces the first match in place, keeping the length and every other position, later matches included, or appends when nothing matches |
| ConfigStore.Upserted | src/MultiServerSqlExecutor.Core/Services/ConfigStore.cs:58-66 | AddOrUpdate's new list contains the server; its length is unchanged when a name matches ignoring case and grows by one otherwise |
| ConfigStore.WithoutNameConcat | src/MultiServerSqlExecutor.Core/Services/ConfigStore.cs:74 | removal keeps the relative order: it distributes over concatenation |
| ConfigStore.WithoutName | src/MultiServerSqlExecutor.Core/Services/ConfigStore.cs:72-74 | RemoveAll's new list is no longer than the old one, and each of its entries comes from the old list and has a name differing ignoring case |
| ConfigStore.WithoutNameKeeps | src/MultiServerSqlExecutor.Core/Services/ConfigStore.cs:74 | every entry whose name does not match survives removal |
| ConfigStore.WithoutNameRemoves | src/MultiServerSqlExecutor.Core/Services/ConfigStore.cs:74-76 | something is removed exactly when some name matches; otherwise the list is unchanged |
| ConfigStore.UniqueAfterAdd | src/MultiServerSqlExecutor.Core/Services/ConfigStore.cs:47-54 | names unique ignoring case stay unique after an accepted Add |
| ConfigStore.UniqueAfterUpsert | src/MultiServerSqlExecutor.Core/Services/ConfigStore.cs:56-69 | names unique ignoring case stay unique after AddOrUpdate |
| ConfigStore.UniqueAfterRemove | src/MultiServerSqlExecutor.Core/Services/ConfigStore.cs:71-77 | names unique ignoring case stay unique after Remove |
| ConfigStore.Any | src/MultiServerSqlExecutor.Core/Services/ConfigStore.cs:50 | List.Any: true exactly when some name matches ignoring case |
| ConfigStore.FindIndex | src/MultiServerSqlExecutor.Core/Services/ConfigStore.cs:59 | List.FindIndex: -1 exactly when nothing matches, otherwise the first matching index |
| ConfigStore.RemoveAll | src/MultiServerSqlExecutor.Core/Services/ConfigStore.cs:74 | List.RemoveAll: keeps the non-matching entries in order; the count removed is positive exactly when some name matches |
| ConfigStore.Store.constructor | src/MultiServerSqlExecutor.Core/Services/ConfigStore.cs:12-20 | a missing file is created holding the empty list; an existing file is kept |
| ConfigStore.Store.Load | src/MultiServerSqlExecutor.Core/Services/ConfigStore.cs:28-36 | JSON null reads as the empty list |
| ConfigStore.Store.Save | src/MultiServerSqlExecutor.Core/Services/ConfigStore.cs:38-45 | the file holds exactly the saved list |
| ConfigStore.Store.Add | src/MultiServerSqlExecutor.Core/Services/ConfigStore.cs:47-54 | refused, with the file untouched, exactly when the name is taken ignoring case; otherwise the server is appended after the unchanged earlier entries |
| ConfigStore.Store.AddOrUpdate | src/MultiServerSqlExecutor.Core/Services/ConfigStore.cs:56-69 | the saved list is the upsert of the loaded list |
| ConfigStore.Store.Remove | src/MultiServerSqlExecutor.Core/Services/ConfigStore.cs:71-77 | true exactly when some name matches; the filtered list is then saved, otherwise the file is untouched |
| SqlExecutor.ExecuteOnAll | src/MultiServerSqlExecutor.Core/Services/SqlExecutor.cs:9-19 | one result per server, keyed by its name, in server order; fails exactly when some server fails or two names are exactly equal |
| Cli.ParseArgs | src/MultiServerSqlExecutor.Cli/Program.cs:163-183 | the index-skipping loop builds the dictionary of the option-by-option definition |
| Cli.ParsedKeys | src/MultiServerSqlExecutor.Cli/Program.cs:169-171 | the keys are exactly the option arguments with "--" removed |
| Cli.ParsedLast | src/MultiServerSqlExecutor.Cli/Program.cs:172-179 | a repeated key keeps the value of its last occurrence: the next argument when it is not an option, otherwise "true" |
| Cli.ParsedLookup | src/MultiServerSqlExecutor.Cli/Program.cs:165-179 | lookup in any casing finds the value of the last option naming the key ignoring case |
| Cli.ParsedMissing | src/MultiServerSqlExecutor.Cli/Program.cs:165-171 | lookup fails exactly when no option names the key ignoring case |
| Cli.ParsedIgnores | src/MultiServerSqlExecutor.Cli/Program.cs:166-181 | an argument that is neither an option nor consumed as a value is ignored |
| Cli.ParseCommandIgnoresCase | src/MultiServerSqlExecutor.Cli/Program.cs:35 | the command word is matched ignoring case |
| Cli.ParseCommand | src/MultiServerSqlExecutor.Cli/Program.cs:35-53 | the command switch: a word is unknown exactly when its lower-case form is none of add-server, remove-server, list-servers, execute-query, help, -h, --help |
| Cli.HelpWords | src/MultiServerSqlExecutor.Cli/Program.cs:45-49 | help, -h and --help, in any casing, select help |
| Cli.EntryFrom | src/MultiServerSqlExecutor.Cli/Program.cs:72-79 | add-server's entry has the default authentication |
| Cli.AddServer | src/MultiServerSqlExecutor.Cli/Program.cs:57-88 | 2 with the file untouched when a required key is missing; 3 with the file untouched exactly when the name is taken ignoring case; otherwise 0 with the entry appended to the loaded list |
| Cli.RemoveServer | src/MultiServerSqlExecutor.Cli/Program.cs:90-102 | 2 with the file untouched without a name; otherwise 0, with every entry of that name removed when there is one and the file untouched when there is none |
| Cli.ExecuteQuery | src/MultiServerSqlExecutor.Cli/Program.cs:119-161 | exit codes 2 (missing paths), 4 (no query file), 5 (no servers) and 6 for a failed execution leave the disk untouched; after a successful execution the per-server files and their directory are written when perserverdir is given, also when the combination then throws (6); 0 exactly when the combination succeeds, and then the output file holds the combined table and no other file changes |
| Cli.Run | src/MultiServerSqlExecutor.Cli/Program.cs:8-55 | no arguments: 0 and nothing changes; otherwise the store is opened (a missing file becomes the empty list), help and list-servers give 0, an unknown command 1, the disk changes only for execute-query, and add-server, remove-server and execute-query have the outcomes above, stated on the opened file's list |
| MainWindow.Combine | src/MultiServerSqlExecutor.Ui/MainWindow.xaml.cs:101-124 | the window's copy computes the same table, or raises the same exception, as the combination in ExportCombined |
| MainWindow.RecombineFails | src/MultiServerSqlExecutor.Ui/MainWindow.xaml.cs:89-91 | a combined table passed back as the single entry "Combined" always makes the combination throw DuplicateNameException on "Server" |
| MainWindow.MainWindow.constructor | src/MultiServerSqlExecutor.Ui/MainWindow.xaml.cs:22-28 | no table is kept at start |
| MainWindow.MainWindow.RunQuery | src/MultiServerSqlExecutor.Ui/MainWindow.xaml.cs:47-73 | nothing happens without servers; a failed run or combination keeps the previous table; otherwise the combined table is kept |
| MainWindow.MainWindow.OnSaveCombined | src/MultiServerSqlExecutor.Ui/MainWindow.xaml.cs:75-94 | as written: with a kept table and a chosen path, the save always fails with DuplicateNameException, and no file is written |
| MainWindow.MainWindow.OnSaveCombinedCorrected | src/MultiServerSqlExecutor.Ui/MainWindow.xaml.cs:75-94 | the intended save: the chosen file holds the kept table's records, header "Server" first, and one record per row |
| ServersWindow.AuthNameInjective | src/MultiServerSqlExecutor.Ui/ServersWindow.xaml.cs:105 | AuthType.ToString gives the member name; distinct members give distinct names |
| ServersWindow.ParseAuthType | src/MultiServerSqlExecutor.Ui/ServersWindow.xaml.cs:30 | Enum.TryParse succeeds exactly on the four member names, and gives the member that prints as the tag |
| ServersWindow.SelectedAuth | src/MultiServerSqlExecutor.Ui/ServersWindow.xaml.cs:29-33 | SqlPassword when no item is selected or its tag does not parse, otherwise the parsed type |
| ServersWindow.ValidateMeaning | src/MultiServerSqlExecutor.Ui/ServersWindow.xaml.cs:35-64 | refused for blank Name, Server or Database; otherwise refused exactly when the type is SqlPassword or AzurePassword and Username or Password is blank; accepted otherwise (MFA and interactive types allow both empty) |
| ServersWindow.Validate | src/MultiServerSqlExecutor.Ui/ServersWindow.xaml.cs:45-64 | an accepted entry is the trimmed form; ValidateMeaning states the refusal cases |
| ServersWindow.AcceptedEntryClean | src/MultiServerSqlExecutor.Ui/ServersWindow.xaml.cs:35-59 | an accepted entry has non-empty, trimmed name, server and database, a trimmed user name, the password as typed, and credentials for password types |
| ServersWindow.HiddenPasswordIgnored | src/MultiServerSqlExecutor.Ui/ServersWindow.xaml.cs:53-64 | for types that need no password, the password text never changes the verdict |
| ServersWindow.UserVisibility | src/MultiServerSqlExecutor.Ui/ServersWindow.xaml.cs:119-135 | the user name is visible for every type |
| ServersWindow.PasswordVisibility | src/MultiServerSqlExecutor.Ui/ServersWindow.xaml.cs:119-135 | the password is visible exactly for SqlPassword and AzurePassword |
| ServersWindow.PasswordShownIffRequired | src/MultiServerSqlExecutor.Ui/ServersWindow.xaml.cs:53-64 | with the other fields filled, a blank password is refused exactly when its box is visible |
| ServersWindow.Cleared | src/MultiServerSqlExecutor.Ui/ServersWindow.xaml.cs:81-91 | all boxes empty; an item is selected exactly when there is one, and it is the first |
| ServersWindow.Selected | src/MultiServerSqlExecutor.Ui/ServersWindow.xaml.cs:93-112 | the entry's fields are copied, and the item whose tag names its type is selected, if any |
| ServersWindow.ResaveUnchanged | src/MultiServerSqlExecutor.Ui/ServersWindow.xaml.cs:93-112 | selecting an accepted entry and saving it unedited accepts the same entry |
| ServersWindow.ServersWindow.constructor | src/MultiServerSqlExecutor.Ui/ServersWindow.xaml.cs:12-18 | opens on the given store, with a cleared form |
| ServersWindow.ServersWindow.OnSaveServer | src/MultiServerSqlExecutor.Ui/ServersWindow.xaml.cs:25-74 | the verdict is the validation of the form; a refusal changes neither the store nor the form; an accepted entry is upserted once and the form cleared |
| ServersWindow.ServersWindow.ClearFields | src/MultiServerSqlExecutor.Ui/ServersWindow.xaml.cs:81-91 | the form becomes the cleared form |
| ServersWindow.ServersWindow.OnSelectionChanged | src/MultiServerSqlExecutor.Ui/ServersWindow.xaml.cs:93-112 | the item-search loop fills the form as Selected says; nothing happens without a selection |
| ServersWindow.ServersWindow.OnAuthTypeChanged | src/MultiServerSqlExecutor.Ui/ServersWindow.xaml.cs:114-137 | a parsable selection sets both visibilities by type; otherwise nothing changes |
| ServersWindow.ServersWindow.OnRemoveServer | src/MultiServerSqlExecutor.Ui/ServersWindow.xaml.cs:139-150 | once confirmed, every entry with the name is removed; declining changes nothing |

## Left out

- **Network and concurrency.** Connecting and running the query
  (`SqlExecutor.ExecuteAsync`) is a parameter: a function from server to
  an optional table. `Task.WhenAll`'s concurrency is not modelled, and the
  SQL text and cancellation are not represented.
- **JSON and the file system.** The JSON serialisation, the file reads and
  writes, the `lock`, and the configuration path (`GetDefaultConfigPath`,
  `Directory.CreateDirectory` for it) are not modelled. The file is a
  field; exceptions from I/O are not modelled.
- **CsvHelper.** Quoting, escaping and culture-invariant formatting belong
  to CsvHelper. A record is a sequence of field strings. A cell's text is
  its value's plain rendering (`DataTables.Value` keeps floating-point and
  date values as their text).
- **Untyped combined columns.** Values copied into the combined table are
  not converted.
- **Case folding.** Non-ASCII case mapping is not modelled.
- **StartsWith culture.** `StartsWith("--")` uses the current culture in
  .NET; the model compares ordinally.
- **Enum parsing.** `Enum.TryParse`'s numeric, comma-separated and
  whitespace-padded forms are not modelled; only the member names parse.
- **Path.Combine.** Only one directory separator is modelled, and no
  rooted or drive-letter file names.
- **Process, console and UI plumbing.** Not modelled:
  - the UI launch with no arguments (the exit code 0 is kept);
  - `PrintHelp` and all console output;
  - `ListServers`' listing (its exit code 0 is kept);
  - message boxes, the grid binding, the Run menu item's enabling, and the
    query editor's default text;
  - the null-control guard at ServersWindow.xaml.cs line 116;
  - `OnClose`, `OnExit` and `OnOpenServers`.
- **Chained selection events.** WPF raises `OnAuthTypeChanged` when
  `ClearFields` or `OnSelectionChanged` change the combo-box selection; the
  model leaves the visibilities to a separate `OnAuthTypeChanged` call.
- **Dictionary key spelling.** The argument dictionary keeps the first
  spelling of a key; only lookups are observed, so keys are held in upper
  case.
- **Case-insensitive file systems.** The `Disk` compares paths as exact
  strings, so `CsvExporter.PerServerPathCollision` and
  `CsvExporter.PerServerFilesLast` describe a case-sensitive file system.
  On NTFS, or on APFS as usually configured, sanitised names that differ
  only in case (servers `prod` and `PROD`, or `a/b` and `A_b`) name the
  same file, so the later server's CSV replaces the earlier one's; the
  model does not capture that.
- **Other exceptions.** Modelled exceptions:
  - the column-name ones (`DuplicateNameException`, the ambiguous indexer);
  - a failing server;
  - `ConfigStore.Add`'s `InvalidOperationException` for a taken name
    (`Store.Add` returns false);
  - `ToDictionary`'s duplicate-key exception (`ExecuteOnAll` gives `None`).

  Other exceptions (an I/O error while writing, say) are not modelled.
- **Initial window state.** The server editor is taken to open with empty
  boxes and the first authentication item selected (the constructor's
  cleared form). The XAML that sets this up is not part of this model.
- ServersWindow.Validate: its own contract says only that an accepted entry is the
  trimmed form. `ServersWindow.ValidateMeaning` states the refusal cases.
- MainWindow.Combine: it uses the same three stages as `ExportCombined`,
  because lines 101-124 repeat lines 23-45 of the exporter. So the model
  does not check the copy's loops separately.

## Findings

| source | as written | input that shows it | evidently intended | confidence | as-written member | corrected member |
|---|---|---|---|---|---|---|
| src/MultiServerSqlExecutor.Ui/MainWindow.xaml.cs:89-91 | OnSaveCombined passes the already-combined table, whose first column is "Server", back into ExportCombined as the single entry "Combined"; adding the collected "Server" after the synthetic one throws DuplicateNameException, which nothing catches | any successful query run, then Save with a chosen file | write the combined table as it is | not executed | MainWindow.MainWindow.OnSaveCombined | MainWindow.MainWindow.OnSaveCombinedCorrected |
