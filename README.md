# sqlutil in Dafny

A model of the core of sqlutil, a command-line tool that copies SQL Server
data between databases and files. The model covers:

- **Foreign-key order** (`ListTablesInFKOrder` in `sqlutil/Data.cs`). Its
  T-SQL script is modelled over its two scratch tables. `#tables` becomes a
  level array. `#table_refs` becomes one row per primary-key reference, with
  its `total_mapped` column. The bounded `while` loop and its two UPDATE
  statements are methods proved against the specification functions.
  Lemmas then state what the levels mean: 1 for a table without foreign
  keys, 1 + the largest referenced level otherwise, 0 on a cycle or for a
  reference to a non-primary key. They also prove that the sorted output is a
  permutation in which every referenced table comes first.
- **Wipe**: the foreign-key order reversed in place, then one
  `delete from` per table.
- **Export**: the snapshot writer. Rows become INSERT statements of at most
  100 tuples, each closed by a `GO -- SQL_BATCH --` marker line.
  `CreateValuesList` writes each value by category.
- **Import**: the line loop that executes the collected buffer at every
  marker line. A round-trip lemma connects it to Export: importing an
  exported file executes one batch per marker, each batch holds at most one
  INSERT, and the batches are exactly the exported groups of lines.
- **Upload**: a CSV file becomes a table. The model covers the header row,
  type inference from the first data row (`Models/Column.cs`),
  `DROP`/`CREATE TABLE`, and one INSERT per data row, built by `FormatInsert`.
- **Connection stores**: `sqlutil/Conn.cs` and the older
  `sqlutil/sqlutil/Conn.cs`. Each is a dictionary of named connection strings
  with lower-cased keys, saved after each change. The two modules differ in
  validation and in what `Get` does for a missing key.
- **SqlFormatProvider**: the formatter that numbers query parameters
  `@p0, @p1, ...` with a 32-bit counter.

How the surroundings are represented:

- The database is a `Database` object whose `log` field holds every
  statement `Sql.WriteRaw` executes, in order.
- Files are text, or sequences of lines.
- These are inputs:
  - query results: table lists, foreign keys, column names, `count(*)` and
    row streams;
  - the CSV parser's rows;
  - the culture-dependent .NET parsers.

Where the code and its documentation disagree, the model follows the code:

- **Import**: lines after the last marker are never executed. There is no
  final flush.
- **Foreign-key levels**: a table without foreign keys gets level 1, also
  when no table has any.
- **`Get` in `sqlutil/Conn.cs`**: its comment promises a fallback value,
  but the code throws when the key is missing. The model returns a failure.

## Model

| member | source | states |
|---|---|---|
| Columns.DeriveDataType | sqlutil/Models/Column.cs:9-47 | the result's parser accepts the input, and no parser earlier in the order Guid, bool, long, DateOnly, TimeOnly, DateTime, decimal accepts it; string when none does |
| Columns.OneIsLong | sqlutil/Models/Column.cs:11-26 | "1" is not a bool: when it is no Guid and the long parser accepts it, it is classified long |
| Columns.TrueIsBool | sqlutil/Models/Column.cs:15-18 | any letter case of "true" that is no Guid is classified bool, shadowing every later parser |
| Columns.CombinedDataTypeFor | sqlutil/Models/Column.cs:54-85 | every SQL column type made is non-empty and ends in " null" |
| Columns.CombinedDataTypeRoundTrip | sqlutil/Models/Column.cs:54-85 | the type-to-DDL mapping is one-to-one: each .NET type is read back from its column type |
| Columns.Column.constructor | sqlutil/Models/Column.cs:5-7 | a new column has an empty name, an empty column type (the "not inferred yet" flag) and no type |
| Columns.Column.DeriveTypeInfo | sqlutil/Models/Column.cs:50-86 | stores the classified type and its column type, which is non-empty; the name is untouched; the new state depends only on the input, so a repeat changes nothing |
| ValueCodec.BuildValuesList | sqlutil/Data.cs:165-208 | the StringBuilder loop produces "(" + the encoded values joined by ", " + ") ", or "" for an empty row |
| ValueCodec.CreateValuesListEmpty | sqlutil/Data.cs:167-170 | an empty row is written as the empty text |
| ValueCodec.ReadQuotedEscape | sqlutil/Data.cs:191 | doubling every quote and closing the literal is undone by reading the quoted literal back |
| ValueCodec.ReadItemsJoin | sqlutil/Data.cs:173-205 | reading the ", "-joined items back gives one literal per value, in order |
| ValueCodec.CreateValuesListRoundTrip | sqlutil/Data.cs:165-208 | reading the written tuple back gives each value's literal in order: quoted text unescaped, null, 1/0, bare text |
| FkLevels.ComputeLevels | sqlutil/Data.cs:214-321 | the level array the script leaves is the fixed point TableLevels: level 1 for no foreign keys, then passes 2..99 until one assigns nothing |
| FkLevels.UpdateMappedRows | sqlutil/Data.cs:295-301 | total_mapped of each not-yet-complete reference row becomes 1 exactly when its target has a positive level |
| FkLevels.AssignLevelRows | sqlutil/Data.cs:303-317 | every level-0 table whose references are all mapped gets level i; @@rowcount is the number so assigned |
| FkLevelProperties.FkLevelsWellFormed | sqlutil/Data.cs:219-321 | with unique table names every final level is justified by the tables' foreign keys and the pass limit |
| FkLevelProperties.LevelsInRange | sqlutil/Data.cs:290-319 | a level is 0 or in 1..99 |
| FkLevelProperties.LevelOneIffNoForeignKeys | sqlutil/Data.cs:219-253 | a table has level 1 exactly when it has no FOREIGN KEY constraint |
| FkLevelProperties.LevelAboveReferenced | sqlutil/Data.cs:295-315 | a table of level L >= 2 references only primary keys of tables of level 1..L-1, one of them at L-1 |
| FkLevelProperties.NonPrimaryKeyReferenceUnresolved | sqlutil/Data.cs:259-315 | a table with a foreign key to a non-primary-key constraint keeps level 0 |
| FkLevelProperties.MissingTargetUnresolved | sqlutil/Data.cs:295-315 | a table referencing a table outside the list keeps level 0 |
| FkLevelProperties.FewTablesConverge | sqlutil/Data.cs:290-321 | with at most 98 tables the loop ends at a pass that assigns nothing, so no further pass would change a level |
| FkGraph.CycleUnresolved | sqlutil/Data.cs:295-315 | every table on a foreign-key cycle, self-reference included, keeps level 0 |
| FkGraph.UnresolvedReachesCycle | sqlutil/Data.cs:290-321 | once the loop has converged, from a level-0 table in a primary-key-only schema a walk of level-0 tables along foreign keys leads to a cycle none of whose tables has a level |
| FkGraph.AcyclicAllResolved | sqlutil/Data.cs:290-321 | in an acyclic, primary-key-only schema of at most 98 tables every table gets a positive level |
| FkOrder.SortRows | sqlutil/Data.cs:323-328 | sorting returns a permutation of its input |
| FkOrder.SortRowsSorted | sqlutil/Data.cs:328 | the sorted rows are ordered by level, then schema, then name |
| FkOrder.ListTablesInFKOrder | sqlutil/Data.cs:211-340 | the result is the tables with their levels, sorted |
| FkOrder.OrderedTablesSortedPermutation | sqlutil/Data.cs:323-328 | the result lists each table once with its level, sorted by (level, schema, name) |
| FkOrder.RowOfResult | sqlutil/Data.cs:323-328 | every result row is some table paired with its computed level |
| FkOrder.ReferencedFirst | sqlutil/Data.cs:290-328 | a table with a level comes after every table one of its foreign keys references |
| Wipe.ReverseInPlace | sqlutil/Data.cs:59 | List.Reverse swaps in place: the array ends as the reverse of its old contents |
| Wipe.ReversedTwice | sqlutil/Data.cs:59 | reversing twice gives the list back |
| Wipe.DeleteEach | sqlutil/Data.cs:62-66 | one delete statement per table, in list order |
| Wipe.Wipe | sqlutil/Data.cs:56-67 | the statements executed are one "delete from [schema].[table]" per table, in reverse foreign-key order |
| Wipe.WipeDeletesDependentsFirst | sqlutil/Data.cs:58-66 | a table with a level is emptied before each table it references |
| TextFiles.TextWriter.Write | sqlutil/Data.cs:144 | Write appends to the current line |
| TextFiles.TextWriter.WriteLine | sqlutil/Data.cs:97-156 | WriteLine completes the current line |
| SnapshotExport.WriteBegin | sqlutil/Data.cs:97-100 | the table header lines |
| SnapshotExport.WriteEmpty | sqlutil/Data.cs:101-112 | for a count of 0: header, footer and the single "No rows in table" marker, no INSERT |
| SnapshotExport.WriteRow | sqlutil/Data.cs:125-146 | a row opens a new batch at a multiple of 100 (closing the previous one with its marker) or continues with ",", then writes its tuple |
| SnapshotExport.WriteNextRow | sqlutil/Data.cs:123-148 | one turn of the stream loop: the row number moves to the next batch position and the lines written so far stay a prefix of the table's row lines |
| SnapshotExport.BatchPositionNext | sqlutil/Data.cs:125-145 | the row number restarts at 1 after 100 |
| SnapshotExport.WriteRows | sqlutil/Data.cs:121-149 | the stream loop writes the row lines and leaves the last batch size and the total |
| SnapshotExport.WriteEnd | sqlutil/Data.cs:149-156 | the table footer and the final marker with the last batch size and the total |
| SnapshotExport.WriteTableBody | sqlutil/Data.cs:101-156 | after the header: the empty-table notice for a count of 0, otherwise the row lines and the footer |
| SnapshotExport.ExportTable | sqlutil/Data.cs:78-159 | one table's lines |
| SnapshotExport.Export | sqlutil/Data.cs:69-163 | the file is the tables' lines, table after table in the order ListTablesInFKOrder returns for the source database |
| SnapshotExport.BeginLineAt | sqlutil/Data.cs:78-99 | the section of the i-th exported table starts, at a known line, with its "-- Begin table:" line |
| SnapshotExport.TableStartsIncrease | sqlutil/Data.cs:78-159 | a table exported earlier has its section earlier in the file |
| SnapshotExport.ReferencedSectionFirst | sqlutil/Data.cs:73-99 | in the exported file, the "-- Begin table:" line of a table a foreign key references comes before that of the table with a level holding the key |
| SnapshotExport.ChunksShape | sqlutil/Data.cs:121-148 | the batches cover the rows in order, each holds 1..100 rows, all but the last exactly 100, the last the final row number, and there are ceil(n/100) of them |
| SnapshotExport.RowLinesWithinBatch | sqlutil/Data.cs:125-146 | rows that stay inside one batch of 100 are only separated by "," lines, with no marker and no new INSERT head |
| SnapshotExport.RowLinesPastBatch | sqlutil/Data.cs:125-146 | the row that reaches a multiple of 100 is followed by the marker "N rows in batch" with N = 100 and a new INSERT head, and the row number restarts at 1 |
| SnapshotExport.RowLinesBatched | sqlutil/Data.cs:121-148 | the row lines are INSERT head, tuples separated by commas, a marker after each full batch |
| SnapshotExport.TableLinesBatched | sqlutil/Data.cs:97-156 | a table with rows is header, INSERT head, batched tuples, footer with the last batch's size and the total |
| SnapshotExport.EmptyTable | sqlutil/Data.cs:101-112 | a table of count 0 is its header and the "No rows in table" notice, with no INSERT line |
| SnapshotExport.TwoHundredFiftyRows | sqlutil/Data.cs:121-155 | 250 rows make batches of 100, 100 and 50, and the final marker reads "50 rows in batch, 250 total rows" |
| SnapshotExport.LastMarker | sqlutil/Data.cs:150-155 | the line before the last of a table with a count is the final marker with the last batch's size and the total |
| SnapshotImport.Import | sqlutil/Data.cs:343-380 | the statements executed are the batches of the line state machine, over the lines ReadLine returns |
| SnapshotImport.FeedSegments | sqlutil/Data.cs:353-378 | the loop executes, at each marker, exactly the lines since the previous one, each followed by a newline |
| SnapshotImport.ImportedBatchesAreSegments | sqlutil/Data.cs:363-376 | the executed batches are the texts between markers, the marker lines left out |
| SnapshotImport.ImportExecutesOncePerMarker | sqlutil/Data.cs:363-373 | the number of executions equals the number of marker lines |
| SnapshotImport.TrailingLinesIgnored | sqlutil/Data.cs:353-378 | lines after the last marker are never executed |
| SnapshotImport.ImportOneBatch | sqlutil/Data.cs:363-376 | lines then a marker execute once, as those lines with newlines, "-- Begin table:" lines included |
| SnapshotImport.ImportConcat | sqlutil/Data.cs:369-371 | the buffer is cleared at a marker, so a file cut after a marker imports as its two parts |
| SnapshotImport.FeedLastMarker | sqlutil/Data.cs:369-371 | after a marker the buffer is empty |
| SnapshotRoundTrip.BatchLineIsMarker | sqlutil/Data.cs:131 | the marker after a full batch is read as a marker |
| SnapshotRoundTrip.FinalLineIsMarker | sqlutil/Data.cs:155 | the final marker of a table is read as a marker |
| SnapshotRoundTrip.EmptyTableScan | sqlutil/Data.cs:101-109 | an empty table contributes one marker and no INSERT |
| SnapshotRoundTrip.NoRowsScan | sqlutil/Data.cs:114-156 | a table whose count is positive but whose stream is empty contributes one marker |
| SnapshotRoundTrip.RowsScan | sqlutil/Data.cs:121-155 | a table with n rows contributes ceil(n/100) markers, each closing at most one INSERT |
| SnapshotRoundTrip.TableScan | sqlutil/Data.cs:97-156 | every table's lines end with a closed batch and contribute its batch count in markers |
| SnapshotRoundTrip.ExportScan | sqlutil/Data.cs:69-163 | the whole export holds the total batch count in markers, and no batch holds two INSERT heads |
| SnapshotRoundTrip.ExportThenImport | sqlutil/Data.cs:69-380 | when no written line holds a line break, importing an exported file executes exactly the exported groups of lines, one per marker, each with at most one INSERT |
| CsvUpload.ColumnName | sqlutil/Data.cs:405 | a column name holds no "[" or "]" |
| CsvUpload.ColumnNameKeepsPlainNames | sqlutil/Data.cs:405 | a header field without brackets is its own column name |
| CsvUpload.HeaderColumns | sqlutil/Data.cs:403-406 | one untyped column per header field, in order |
| CsvUpload.FormatInsert | sqlutil/Data.cs:465-503 | a row shorter than the columns raises IndexOutOfRange; otherwise one literal per column in the VALUES slot |
| CsvUpload.FieldLiteralMeaning | sqlutil/Data.cs:472-497 | an empty field is null; a bit column is 1 exactly for true/y/yes/1 in any case, else 0; long and decimal verbatim; other types quoted, with the text read back from the literal |
| CsvUpload.SampleBoolLiteral | sqlutil/Data.cs:477-483 | a sample classified bool is written 1 exactly when it reads true |
| CsvUpload.InsertStatementShape | sqlutil/Data.cs:427-428 | the INSERT names the columns in order and carries the values in one tuple, when the names do not spell the placeholder |
| CsvUpload.CreateTableStatement | sqlutil/Data.cs:446-462 | the CREATE TABLE text with the column definitions in place of the placeholder |
| CsvUpload.CreateTableShape | sqlutil/Data.cs:446-462 | the CREATE TABLE lists "[name] type" for every column in order |
| CsvUpload.NewColumns | sqlutil/Data.cs:403-406 | the header makes distinct new Column objects named by the fields |
| CsvUpload.DeriveAll | sqlutil/Data.cs:413-417 | each column is typed from its field of the sample row |
| CsvUpload.DataRow | sqlutil/Data.cs:410-434 | one data row: on the sample row DROP, CREATE and the row's INSERT; otherwise its INSERT |
| CsvUpload.Upload | sqlutil/Data.cs:382-444 | the statements executed and the outcome are those of the row fold from an empty column list |
| CsvUpload.InsertsOnly | sqlutil/Data.cs:431-434 | after the sample row every long-enough row adds exactly its INSERT |
| CsvUpload.InsertsThenFail | sqlutil/Data.cs:468-471 | a short row after the sample row stops the upload after the INSERTs of the rows before it |
| CsvUpload.UploadFlow | sqlutil/Data.cs:395-443 | DROP, then CREATE typed from the first data row alone, then one INSERT per data row, the sample included |
| CsvUpload.HeaderThenSample | sqlutil/Data.cs:400-434 | the header row makes the untyped columns; the first data row then types them and runs DROP, CREATE and its own INSERT |
| CsvUpload.ShortRowStops | sqlutil/Data.cs:410-471 | a data row shorter than the header ends the upload with the statements of the earlier rows, and nothing after |
| CsvUpload.AfterSample | sqlutil/Data.cs:431-471 | the same, when the short row follows the sample row |
| ConnectionEntries.ListEntries | sqlutil/Conn.cs:13-22 | the i-th line is "key = value" for the i-th key of an enumeration that lists every key of the dictionary exactly once |
| ConnectionEntries.ToLowerIdempotent | sqlutil/Conn.cs:55 | lower-casing a lower-cased key changes nothing |
| ConnectionEntries.ToLowerKeeps | sqlutil/Conn.cs:51-55 | lower-casing neither adds nor removes ';' or '=' |
| Connections.ConnectionStore.constructor | sqlutil/Conn.cs:5 | the store starts empty |
| Connections.ConnectionStore.List | sqlutil/Conn.cs:13-22 | one line per stored entry, each key enumerated exactly once |
| Connections.ConnectionStore.Get | sqlutil/Conn.cs:29-42 | a text with ';' or '=' is returned as it is; otherwise the value under exactly that key, or the "not found" error |
| Connections.ConnectionStore.Add | sqlutil/Conn.cs:49-57 | a key with ';' or '=' is refused and nothing changes; otherwise the value is stored under the lower-cased key, other entries kept, and saved |
| Connections.ConnectionStore.Remove | sqlutil/Conn.cs:63-70 | true and saved exactly when the lower-cased key was present; an absent key changes nothing and saves nothing |
| Connections.ConnectionStore.Save | sqlutil/Conn.cs:75-78 | the saved file holds the dictionary |
| Connections.ConnectionStore.Load | sqlutil/Conn.cs:83-89 | the dictionary is read back from the saved file |
| Connections.AddThenGetLowerCase | sqlutil/Conn.cs:37-55 | after Add, Get of the lower-cased key finds the value |
| Connections.AddThenGetMixedCase | sqlutil/Conn.cs:37-55 | after Add of a key with capitals, Get of that spelling fails |
| Connections.AddedKeysAreKeys | sqlutil/Conn.cs:51-55 | every key Add stores is lower case and never looks like a connection string |
| LegacyConnections.LegacyConnectionStore.constructor | sqlutil/sqlutil/Conn.cs:5 | the store starts empty |
| LegacyConnections.LegacyConnectionStore.List | sqlutil/sqlutil/Conn.cs:13-22 | one line per stored entry, each key enumerated exactly once |
| LegacyConnections.LegacyConnectionStore.Get | sqlutil/sqlutil/Conn.cs:29-36 | the value under exactly that key, or else the argument itself; never fails |
| LegacyConnections.LegacyConnectionStore.Add | sqlutil/sqlutil/Conn.cs:43-47 | no validation: the value is stored under the lower-cased key, other entries kept, then saved; a new key adds one entry |
| LegacyConnections.LegacyConnectionStore.Remove | sqlutil/sqlutil/Conn.cs:53-59 | true, one entry fewer and saved exactly when the lower-cased key was present; otherwise nothing changes |
| LegacyConnections.LegacyConnectionStore.Save | sqlutil/sqlutil/Conn.cs:65-68 | the saved file holds the dictionary |
| LegacyConnections.LegacyConnectionStore.Load | sqlutil/sqlutil/Conn.cs:73-79 | the dictionary is read back from the saved file |
| LegacyConnections.AddThenGetLowerCase | sqlutil/sqlutil/Conn.cs:31-45 | after Add, Get of the lower-cased key finds the value |
| LegacyConnections.AddThenGetMixedCase | sqlutil/sqlutil/Conn.cs:31-45 | after Add of a key with capitals, Get of that spelling returns the key itself |
| LegacyConnections.AddThenRemove | sqlutil/sqlutil/Conn.cs:43-59 | adding a new key and removing it in any letter case gives the dictionary back |
| SqlFormatting.Next | sqlutil/sqlutil/SqlFormatProvider.cs:19 | the counter goes up by one, wrapping from the largest 32-bit value to the smallest |
| SqlFormatting.SqlFormatProvider.constructor | sqlutil/sqlutil/SqlFormatProvider.cs:12 | the counter starts at 0 |
| SqlFormatting.SqlFormatProvider.GetFormat | sqlutil/sqlutil/SqlFormatProvider.cs:5-10 | the provider itself exactly when asked for ICustomFormatter, otherwise null |
| SqlFormatting.SqlFormatProvider.Format | sqlutil/sqlutil/SqlFormatProvider.cs:14-20 | another provider gets null and the counter is untouched; otherwise "@p" + counter, counter advanced; format and argument play no part |
| SqlFormatting.CounterAfterValue | sqlutil/sqlutil/SqlFormatProvider.cs:12-19 | after n calls the counter is n read as a signed 32-bit number |
| SqlFormatting.PlaceholderInjective | sqlutil/sqlutil/SqlFormatProvider.cs:19 | different counter values give different placeholders |
| SqlFormatting.PlaceholdersDistinct | sqlutil/sqlutil/SqlFormatProvider.cs:12-19 | successive calls give @p0, @p1, ..., and no two of the first 2^32 are equal |

## Left out

- Sql.cs is not part of this model. Its connection, command and reader plumbing and its exception wrapping are left out. `WriteRaw` appends to the statement log. Query results are inputs.
- The command-line programs (both Program.cs files): argument dispatch, console text and file existence checks.
- Json.cs and file I/O: the connections file is the `saved` field. JSON parsing and writing are not modelled.
- The .NET parsers (`Guid`, `long`, `DateOnly`, `TimeOnly`, `DateTime`, `decimal`.TryParse) are uninterpreted parameters. Only `bool.TryParse` is written out, with ASCII white space trimmed.
- `ToString()` of Guids, dates and numbers: the value carries its text.
- CSV tokenising by `TextFieldParser` and the file-name rule for the table name: the rows and the table name are inputs.
- `File.OpenWrite` not truncating a longer existing file: the model writes a new file.
- StreamReader's line reading is modelled as splitting on "\n", "\r" and "\r\n". The line ending is "\n" both for the writer of Export and for the `Environment.NewLine` that `AppendLine` adds to Import's buffer (it is "\r\n" on Windows).
- The metadata queries `ListTables`/`ListColumns` and the `count(*)` query: their results are inputs.
- The `sys` schema and table-type filters of the foreign-key script: the table list is an input.
- `varchar(50)` truncation in the scratch tables and collation-dependent ordering: names are compared by ordinal character order.
- Progress lines written to `output`, the `rowCount` counter of Upload and the `batch` counter of Import, which only feed those lines.
- `Models/Table.cs` and `Models/ForeignKey.cs` become datatypes.
- The NUnit tests: they need live databases.
- Culture-dependent `ToLower` and `StartsWith`: lower-casing is ASCII only.
- SQL Server's own errors, such as duplicate column names or bad literals: every statement is taken to succeed.
- Dictionary enumeration order in `List`: any order is allowed.
- SnapshotRoundTrip.ExportThenImport: stated for file texts without line breaks inside values, because a value holding one is split by ReadLine.
- FkLevelProperties.FkLevelsWellFormed, FkOrder.ReferencedFirst, Wipe.WipeDeletesDependentsFirst: they require unique table names, which the schema/name pair gives in SQL Server.
- FkLevelProperties.FewTablesConverge, FkGraph.AcyclicAllResolved: proved for at most 98 tables, where the 100-pass cap cannot cut the loop short.
- CsvUpload.Upload: the row index of the first short data row is checked before any column is typed. The code raises the same exception in the middle of the typing loop. Nothing is executed in between, so the log and the outcome are the same.
- Export: `rowNumber` and `totalRows` are unbounded, so a table of more than 2^31 rows does not wrap.
- CsvUpload.FormatInsert: a null field (which `TextFieldParser` never returns) is not modelled. An empty field is null.
- ValueCodec.CreateValuesListRoundTrip: stated for rows whose unquoted values (numbers and other default-formatted values) have a text without ',' that does not start with a quote. `$"{val}"` formats with the current culture, so a decimal such as 1.5 under a comma-decimal culture is written "1,5" and reads back as two items.
- ValueCodec.ReadItemsJoin: stated under the same hypothesis on unquoted values, for the same reason.
