# datacenter_canal load path, modelled in Dafny

datacenter_canal is a change-data-capture sink. It reads binlog entries from
a Canal server and decodes them into table-scoped messages. It then replays
each message on a target database over JDBC, as INSERT, UPDATE, DELETE or
TRUNCATE statements, and commits once per batch.

This project models the six classes that do that work:

- `Convert` (`etl_message_util.dfy`): the decoder. It turns a fetched batch of
  entries into `EtlMessage`s, with rows as insertion-ordered column maps.
- `SqlText` (`sql_builder.dfy`): the SQL text builder, a buffer that is
  appended to, quoted and trimmed at the tail.
- `SyncUtil` (`sync_util.dfy`): parameter binding by JDBC type tag, the
  quote string of each dialect, the "+HH:MM" UTC offset, and the text
  preparation that `parseDate` does before it calls the date-time parser.
- `Executor` (`batch_executor.dfy`): the batch executor. It holds one lazily
  acquired connection, counts statements and resets the count on commit and
  rollback. The JDBC layer is a recorder of the calls that completed, and
  whether a call fails is an argument.
- `Load` (`load_service.dfy`): the load cycle.
  - Pure functions say which statements a batch of messages asks for
    (`LoadPlan`) and what a whole cycle records (`ExpectedLoad`).
  - Imperative methods build each statement with a `SqlBuilder` and run it
    on a `BatchExecutor`. They are proved to do exactly what those functions
    say.
  - `LoadFacts` (`load_facts.dfy`) states the finished statement texts and
    the transaction properties of a cycle.
- `Dml` (`single_dml.dfy`): the `SingleDml` record. It holds a row's
  changed-column names, its key signatures and its priority.

`Etl` (`etl.dfy`) holds the shared data model: column values, columns, rows
as a LinkedHashMap (`Get`/`Put`), messages and the `java.sql.Types` tags.

Behaviour the model shows, as the code is written:

- An UPDATE's WHERE clause takes its key values from the old row. The
  decoder fills the old row only with columns flagged as updated
  (`Convert.OldRowsHoldUpdatedColumns`). So when no key column changed, the
  old row has no key columns. The WHERE clause then loses its conditions and
  `deleteBehind(4)` cuts " WHERE " to " WH" (`LoadFacts.UpdateText`). A
  DELETE on a table without key columns ends the same way
  (`LoadFacts.DeleteText`).
- An INSERT sizes each row's placeholder group by that row's own column
  count. Its values are taken in the first row's column order.
- A batch with no messages still acquires a connection and commits it
  (`LoadFacts.EmptyBatchCommits`).
- The decoder sets no data list on a DDL entry, so `load` throws a
  NullPointerException on every DDL message, a TRUNCATE included
  (`LoadFacts.DecodedWithoutRowsStopsLoad`). The TRUNCATE branch runs only
  for a message built some other way.
- A `SingleDml` recognises "update" in any letter case. `addTypePriority`
  matches the exact string "UPDATE", so a lower-case "update" gets no
  priority (`Dml.LowerCaseUpdate`).

Behaviour a reader might expect but the code does not have:

- Only PostgreSQL gets the double-quote identifier quote; Redshift gets none.
- `parseDate` hands any non-empty text to the date-time parser, which
  throws on text it cannot read. It does not return null for such text.
- The comment on `EtlMessage.old` says it has one entry per data row. The
  decoder leaves out an old row that holds no column, so an UPDATE entry
  can yield fewer old rows than data rows (`Convert.OldRowsCanFallShort`).
  `update(message)` then pairs row i with a later row's old values and
  throws at the first row left without one (`LoadFacts.UpdateShortOfOldRows`).
- `Objects.equals` on dates is not symmetric: a java.util.Date, java.sql.Date
  or java.sql.Time equals any date of the same instant, but a Timestamp
  equals only a Timestamp (`Etl.SameValueLaws`).

Source paths below are relative to the repository root.

## Model

| member | source | states |
|---|---|---|
| Etl.SameValueLaws | src/main/java/com/datacenter/canal/load/LoadService.java:163 | Objects.equals is reflexive and transitive, and null equals only null; it is symmetric except for a plain date and a Timestamp of one instant, which the plain date equals but not the other way round |
| Etl.Names | src/main/java/com/datacenter/canal/load/LoadService.java:71 | the key set of a row lists one name per column, in insertion order |
| Etl.Get | src/main/java/com/datacenter/canal/load/LoadService.java:161 | Map.get: absent exactly when no column has the name; otherwise a column of the row with that name |
| Etl.Put | src/main/java/com/datacenter/canal/select/support/EtlMessageUtil.java:71-75 | LinkedHashMap.put: a present name keeps its place and the length, a new name goes last, get of the name gives the new column, and every other name is unaffected |
| Etl.PutKeepsWellFormed | src/main/java/com/datacenter/canal/select/support/EtlMessageUtil.java:71-75 | putting a column never makes a row hold two columns of one name |
| SqlText.Repeat | src/main/java/com/datacenter/canal/load/support/SqlBuilder.java:41-44 | n repetitions of a string are n times its length |
| SqlText.DeleteUndoesAppend | src/main/java/com/datacenter/canal/load/support/SqlBuilder.java:57-61 | deleteBehind of the appended length undoes append(s) |
| SqlText.DropLastOfConcat | src/main/java/com/datacenter/canal/load/support/SqlBuilder.java:57-61 | deleting inside the last appended part leaves the earlier text alone |
| SqlText.QuotedEachIsJoinPlusDelimiter | src/main/java/com/datacenter/canal/load/support/SqlBuilder.java:49-52 | appendJoinWithBacktick writes the delimiter-join of the quoted elements plus one trailing delimiter, so deleting the delimiter's length leaves exactly the join |
| SqlText.PlaceholderRun | src/main/java/com/datacenter/canal/load/LoadService.java:83 | appendRepeat(n, "?,") then deleteBehind(1) gives n "?" separated by commas |
| SqlText.SqlBuilder.constructor | src/main/java/com/datacenter/canal/load/support/SqlBuilder.java:14-17 | an empty buffer with the given quote string |
| SqlText.SqlBuilder.WithSql | src/main/java/com/datacenter/canal/load/support/SqlBuilder.java:19-22 | the buffer starts as the given text |
| SqlText.SqlBuilder.Append | src/main/java/com/datacenter/canal/load/support/SqlBuilder.java:24-27 | the buffer grows by the string at the tail |
| SqlText.SqlBuilder.AppendWithBacktick | src/main/java/com/datacenter/canal/load/support/SqlBuilder.java:33-36 | the buffer grows by the string between two quote strings |
| SqlText.SqlBuilder.AppendRepeat | src/main/java/com/datacenter/canal/load/support/SqlBuilder.java:41-44 | the buffer grows by count copies; a count of zero or less appends nothing |
| SqlText.SqlBuilder.AppendJoinWithBacktick | src/main/java/com/datacenter/canal/load/support/SqlBuilder.java:49-52 | the buffer grows by every element quoted and followed by the delimiter, in order |
| SqlText.SqlBuilder.DeleteBehind | src/main/java/com/datacenter/canal/load/support/SqlBuilder.java:57-61 | the last num characters are removed; callers must stay within the buffer, as StringBuilder.delete demands |
| SqlText.SqlBuilder.ToString | src/main/java/com/datacenter/canal/load/support/SqlBuilder.java:63-65 | the text is the buffer |
| SyncUtil.BindActionFor | src/main/java/com/datacenter/canal/load/support/SyncUtil.java:47-241 | setPStmt: a listed type with a null value binds setNull with that type; an unlisted type goes to setObject with the type; booleans come from Boolean, "0" or intValue; character types bind the value's text; integer types bind null exactly when the value is neither number nor string; the all-zero date string is bound unparsed exactly for DATE and TIMESTAMP; an empty date string binds null |
| SyncUtil.BindDateText | src/main/java/com/datacenter/canal/load/support/SyncUtil.java:184-195 | a date string binds null of the column's type exactly when it is empty, and otherwise the parsed prepared text |
| SyncUtil.IntegerWidening | src/main/java/com/datacenter/canal/load/support/SyncUtil.java:75-111 | TINYINT binds as short, SMALLINT as int, INTEGER as long, BIGINT as a decimal of the value's text |
| SyncUtil.DecimalBinding | src/main/java/com/datacenter/canal/load/support/SyncUtil.java:112-133 | DECIMAL and NUMERIC: BigDecimal, float and double bind as decimals, byte, short and int through setInt, long through setLong, any other non-null value through its text |
| SyncUtil.LargeObjectBinding | src/main/java/com/datacenter/canal/load/support/SyncUtil.java:153-178 | binary types and CLOB take a handle, raw bytes or a string (ISO-8859-1 bytes or a character stream), and bind null otherwise |
| SyncUtil.TemporalBinding | src/main/java/com/datacenter/canal/load/support/SyncUtil.java:179-237 | a date or time object of any kind binds at its instant under DATE, TIME and TIMESTAMP |
| SyncUtil.BacktickByDbType | src/main/java/com/datacenter/canal/load/support/SyncUtil.java:249-266 | a backtick exactly for MySQL, MariaDB and OceanBase, a double quote exactly for PostgreSQL, nothing for any other or unknown type |
| SyncUtil.Digits | src/main/java/com/datacenter/canal/load/support/SyncUtil.java:32-33 | a number's decimal text is all digits, one digit below 10 and two below 100 |
| SyncUtil.DigitsRoundTrip | src/main/java/com/datacenter/canal/load/support/SyncUtil.java:32-33 | reading a number's decimal text back gives the number |
| SyncUtil.Pad2 | src/main/java/com/datacenter/canal/load/support/SyncUtil.java:32-33 | "%02d" gives at least two digits, exactly two below 100, that read back as the number |
| SyncUtil.OffsetString | src/main/java/com/datacenter/canal/load/support/SyncUtil.java:24-34 | the offset text has the sign of the raw offset, the whole hours of its absolute value, a colon, and two digits of remaining minutes below 60; below 100 hours the hour has two digits and the text is six characters long |
| SyncUtil.OffsetRoundTrip | src/main/java/com/datacenter/canal/load/support/SyncUtil.java:24-34 | reading the offset text back gives the raw offset truncated toward zero to whole minutes |
| SyncUtil.TrimStart | src/main/java/com/datacenter/canal/load/support/SyncUtil.java:278 | a suffix of the text that is empty or starts above U+0020 |
| SyncUtil.TrimEnd | src/main/java/com/datacenter/canal/load/support/SyncUtil.java:278 | a prefix of the text that is empty or ends above U+0020 |
| SyncUtil.TrimStartDropsBlanks | src/main/java/com/datacenter/canal/load/support/SyncUtil.java:278 | only characters up to U+0020 are dropped at the start |
| SyncUtil.TrimEndDropsBlanks | src/main/java/com/datacenter/canal/load/support/SyncUtil.java:278 | only characters up to U+0020 are dropped at the end |
| SyncUtil.Trim | src/main/java/com/datacenter/canal/load/support/SyncUtil.java:278 | the trimmed text is no longer and has no blank at either end |
| SyncUtil.ReplaceSpaces | src/main/java/com/datacenter/canal/load/support/SyncUtil.java:281 | every space becomes 'T', every other character and the length stay |
| SyncUtil.NormalizeDateText | src/main/java/com/datacenter/canal/load/support/SyncUtil.java:279-285 | a bare time gets a 'T' prefix; text without a colon is unchanged |
| SyncUtil.DateTimeSeparator | src/main/java/com/datacenter/canal/load/support/SyncUtil.java:279-282 | a date with a time keeps its length and every non-space character, and has no space left |
| SyncUtil.ParseDate | src/main/java/com/datacenter/canal/load/support/SyncUtil.java:274-290 | null exactly for a null or empty text; otherwise the text the parser receives |
| SyncUtil.PreparedTextIsTrimmed | src/main/java/com/datacenter/canal/load/support/SyncUtil.java:275-285 | the text the parser receives has no blank at either end |
| SyncUtil.NormalizeKeepsEnds | src/main/java/com/datacenter/canal/load/support/SyncUtil.java:279-285 | the rewrites never put a blank at either end of a trimmed text |
| SyncUtil.PrepareIdempotentForDates | src/main/java/com/datacenter/canal/load/support/SyncUtil.java:274-285 | preparing a text with a date part a second time changes nothing |
| SyncUtil.NormalizeFixedOnDates | src/main/java/com/datacenter/canal/load/support/SyncUtil.java:278-285 | a trimmed text with a date part is a fixed point of trim-then-rewrite once rewritten |
| Executor.SetValue | src/main/java/com/datacenter/canal/load/support/BatchExecutor.java:44-49 | the caller's list grows by one {type, value} entry at the end |
| Executor.BatchExecutor.constructor | src/main/java/com/datacenter/canal/load/support/BatchExecutor.java:27-30 | no connection, counter zero, nothing recorded; a Hikari pool gets its URL's quote string, any other data source none |
| Executor.BatchExecutor.GetConn | src/main/java/com/datacenter/canal/load/support/BatchExecutor.java:32-42 | a held connection is returned untouched; otherwise one is requested, and a failure leaves whatever was obtained |
| Executor.BatchExecutor.Execute | src/main/java/com/datacenter/canal/load/support/BatchExecutor.java:51-63 | without a connection it throws; a statement the driver rejects records nothing and keeps the counter; one that runs is recorded with every binding and adds one to the counter |
| Executor.BatchExecutor.Commit | src/main/java/com/datacenter/canal/load/support/BatchExecutor.java:65-71 | a completed commit is recorded and resets the counter; a failed one changes neither |
| Executor.BatchExecutor.Rollback | src/main/java/com/datacenter/canal/load/support/BatchExecutor.java:73-79 | a completed rollback is recorded and resets the counter; a failed one changes neither |
| Executor.BatchExecutor.Close | src/main/java/com/datacenter/canal/load/support/BatchExecutor.java:82-92 | the connection is always dropped, and a close is recorded only when one was held and closing succeeded |
| Executor.CloseThenReconnect | src/main/java/com/datacenter/canal/load/support/BatchExecutor.java:82-92 | after close the executor asks for a new connection, different from the first; of two closes only the first is recorded, so the calls end in one close, an open and autocommit off |
| Load.ChangedColumns | src/main/java/com/datacenter/canal/load/LoadService.java:157-169 | exactly the new-row columns that the old row lacks or holds with an unequal value |
| Load.GetChangedColumns | src/main/java/com/datacenter/canal/load/LoadService.java:157-169 | the one-pass loop returns exactly those columns, in new-row order |
| Load.KeyColumns | src/main/java/com/datacenter/canal/load/LoadService.java:249-253 | exactly the row's columns whose names are keys, in row order |
| Load.FirstFailure | src/main/java/com/datacenter/canal/load/LoadService.java:30-57 | how many statements run before the first that throws: all before it found a connection and were accepted, and it lacks one or is rejected |
| Load.SequencePrefix | src/main/java/com/datacenter/canal/load/LoadService.java:30-57 | the statements of the first k messages are a prefix of the whole batch's, and an exception among them ends the batch there |
| Load.SequenceStep | src/main/java/com/datacenter/canal/load/LoadService.java:30-57 | attempting message i after messages before it ran through is attempting the batch: an exception in it is the batch's |
| Load.Run | src/main/java/com/datacenter/canal/load/support/BatchExecutor.java:51-63 | one statement runs and is recorded, or throws the cause the connection state gives, with the counter at the statements run so far |
| Load.AppendColumns | src/main/java/com/datacenter/canal/load/LoadService.java:132-143 | each column quoted and followed by its suffix, and its type and value added to the list, in order |
| Load.AppendRowValues | src/main/java/com/datacenter/canal/load/LoadService.java:85-88 | completes exactly when the row holds every column of the first row, and then adds its values in that column order |
| Load.AppendPlaceholders | src/main/java/com/datacenter/canal/load/LoadService.java:83 | appends one row's placeholder group "(?,...)," |
| Load.BuildInsert | src/main/java/com/datacenter/canal/load/LoadService.java:70-91 | the builder calls produce the INSERT that LoadFacts.InsertText spells out, or the NullPointerException of a row missing a column |
| Load.RenderUpdate | src/main/java/com/datacenter/canal/load/LoadService.java:128-145 | the builder calls produce the UPDATE text of the changed and key columns |
| Load.BuildUpdate | src/main/java/com/datacenter/canal/load/LoadService.java:116-145 | no statement when nothing changed; otherwise the UPDATE that LoadFacts.UpdateText spells out |
| Load.BuildDelete | src/main/java/com/datacenter/canal/load/LoadService.java:187-203 | the builder calls produce the DELETE that LoadFacts.DeleteText spells out |
| Load.BuildTruncate | src/main/java/com/datacenter/canal/load/LoadService.java:215-220 | "TRUNCATE TABLE" and the quoted table, with no values |
| Load.Insert | src/main/java/com/datacenter/canal/load/LoadService.java:70-98 | one statement for all rows runs, or the missing-column exception is raised before anything runs |
| Load.UpdateRow | src/main/java/com/datacenter/canal/load/LoadService.java:116-152 | nothing runs when no column changed; otherwise the row's UPDATE runs |
| Load.Rejected | src/main/java/com/datacenter/canal/load/LoadService.java:109 | a message that throws before its first statement leaves the executor as it was |
| Load.UpdateStep | src/main/java/com/datacenter/canal/load/LoadService.java:108-110 | row i throws when the old rows are null or too few, and otherwise runs update(row) against old row i |
| Load.Update | src/main/java/com/datacenter/canal/load/LoadService.java:103-111 | every row in order, stopping at the first exception, with keys from the first row |
| Load.DeleteStep | src/main/java/com/datacenter/canal/load/LoadService.java:187-210 | row i runs its DELETE |
| Load.Delete | src/main/java/com/datacenter/canal/load/LoadService.java:174-182 | one DELETE per row in order, stopping at the first exception, with keys from the first row |
| Load.Truncate | src/main/java/com/datacenter/canal/load/LoadService.java:215-227 | the TRUNCATE runs |
| Load.LoadMessage | src/main/java/com/datacenter/canal/load/LoadService.java:33-56 | null data throws, empty data is skipped, and the exact type string picks insert, update, delete or truncate, any other doing nothing |
| Load.RunMessages | src/main/java/com/datacenter/canal/load/LoadService.java:30-57 | the messages in order, stopping at the first exception |
| Load.EarlyExit | src/main/java/com/datacenter/canal/load/LoadService.java:25-65 | an exception in the loop ends the cycle as the reference cycle says, with neither commit nor rollback |
| Load.CommitAfterPlan | src/main/java/com/datacenter/canal/load/LoadService.java:59-64 | once every statement ran, the commit phase ends the cycle as the reference cycle says |
| Load.CommitOrRollback | src/main/java/com/datacenter/canal/load/LoadService.java:59-64 | commit; when it throws, roll back, and report a rollback that throws too |
| Load.Load | src/main/java/com/datacenter/canal/load/LoadService.java:25-65 | the outcome and every recorded JDBC call equal the reference cycle ExpectedLoad of the same messages and failures, with the counter at the statements run |
| LoadFacts.ColumnListIsJoin | src/main/java/com/datacenter/canal/load/LoadService.java:132-143 | columns each followed by "=?" and a separator are the separator-join of the assignments plus one separator |
| LoadFacts.SetPart | src/main/java/com/datacenter/canal/load/LoadService.java:129-137 | after deleteBehind(2) the SET part is the ", "-join of the changed columns' assignments |
| LoadFacts.WherePart | src/main/java/com/datacenter/canal/load/LoadService.java:137-145 | key conditions joined by " AND " with one trailing space; with no key columns the text ends in " WH" |
| LoadFacts.UpdateText | src/main/java/com/datacenter/canal/load/LoadService.java:116-145 | the UPDATE assigns each changed column, conditions on each key column of the old row, and binds one value per placeholder, changed columns first |
| LoadFacts.DeleteText | src/main/java/com/datacenter/canal/load/LoadService.java:187-203 | the DELETE conditions on each key column of the row; a table without key columns gets " WH" and no values |
| LoadFacts.OneGroup | src/main/java/com/datacenter/canal/load/LoadService.java:83 | one row's group is "(" + n comma-separated "?" + ")," |
| LoadFacts.RowGroupsIsJoin | src/main/java/com/datacenter/canal/load/LoadService.java:82-89 | the VALUES part is the comma-join of one group per row, sized by that row, plus a comma |
| LoadFacts.InsertValuesCount | src/main/java/com/datacenter/canal/load/LoadService.java:82-89 | an INSERT binds rows times columns values |
| LoadFacts.InsertText | src/main/java/com/datacenter/canal/load/LoadService.java:70-91 | the INSERT names the quoted columns of the first row and holds one placeholder group per row and every row's values |
| LoadFacts.GetOfMember | src/main/java/com/datacenter/canal/load/LoadService.java:161 | in a row with distinct names, get of a column's name gives that column |
| LoadFacts.UpdateRunsIffChanged | src/main/java/com/datacenter/canal/load/LoadService.java:118-121 | update(row) runs a statement exactly when some new-row column changed |
| LoadFacts.SameRowUpdatesNothing | src/main/java/com/datacenter/canal/load/LoadService.java:118-121 | a row compared with itself runs nothing |
| LoadFacts.DeleteOnePerRow | src/main/java/com/datacenter/canal/load/LoadService.java:174-182 | delete(message) runs one DELETE per row, in order, and never throws |
| LoadFacts.UpdateShortOfOldRows | src/main/java/com/datacenter/canal/load/LoadService.java:108-109 | with fewer old rows than rows, the statements of the paired rows run and then the index exception is raised |
| LoadFacts.UpdateWithoutOldRows | src/main/java/com/datacenter/canal/load/LoadService.java:109 | with null old rows, update(message) throws before any statement |
| LoadFacts.OtherTypesPlanNothing | src/main/java/com/datacenter/canal/load/LoadService.java:39-56 | any type string other than the four upper-case names runs nothing and throws nothing |
| LoadFacts.DecodedWithoutRowsStopsLoad | src/main/java/com/datacenter/canal/load/LoadService.java:34 | a decoded DDL message, or one whose rows were all empty, throws at the data check before running anything |
| LoadFacts.TransactionEndsOfLoad | src/main/java/com/datacenter/canal/load/LoadService.java:59-64 | a cycle commits exactly once, as its last call, exactly when it succeeds; it rolls back exactly once, as its last call, only after the commit threw; otherwise it neither commits nor rolls back |
| LoadFacts.NoConnectionLoadsNothing | src/main/java/com/datacenter/canal/load/LoadService.java:25-65 | without a connection nothing is recorded, nothing is loaded, and the first statement throws |
| LoadFacts.EmptyBatchCommits | src/main/java/com/datacenter/canal/load/LoadService.java:59-60 | an empty batch opens a connection, turns autocommit off and commits |
| Dml.SingleDml.constructor | src/main/java/com/datacenter/canal/load/support/SingleDml.java:24-45 | an update in any letter case keeps its old row and changed names, and is a change exactly when some name changed; every record holds the new row's key signature, and an update the old row's too |
| Dml.SingleDml.GenerateChangedKeys | src/main/java/com/datacenter/canal/load/support/SingleDml.java:103-113 | the one-pass loop collects exactly the changed names |
| Dml.SingleDml.GenerateDataKeys | src/main/java/com/datacenter/canal/load/support/SingleDml.java:78-98 | the new row's signature, plus the old row's for an update |
| Dml.SingleDml.CompareDataKeys | src/main/java/com/datacenter/canal/load/support/SingleDml.java:50-57 | true exactly when the record's signatures meet the given set |
| Dml.SingleDml.AddTypePriority | src/main/java/com/datacenter/canal/load/support/SingleDml.java:62-73 | the priority rises by 1, 2 or 3 for the exact strings INSERT, UPDATE and DELETE, and by nothing otherwise |
| Dml.KeyOf | src/main/java/com/datacenter/canal/load/support/SingleDml.java:81-86 | the string-building loop gives the row's signature |
| Dml.ChangedNamesAreUpdatedColumns | src/main/java/com/datacenter/canal/load/support/SingleDml.java:103-113 | the record's changed names are the names of the columns update(row) would set, and one is empty exactly when the other is |
| Dml.SameRowIsNoChange | src/main/java/com/datacenter/canal/load/support/SingleDml.java:38-40 | an update whose old row is its new row has no changed names |
| Dml.SignatureOfKeysOnly | src/main/java/com/datacenter/canal/load/support/SingleDml.java:81-86 | rows whose key values print alike have one signature, whatever their other columns |
| Dml.SignatureLength | src/main/java/com/datacenter/canal/load/support/SingleDml.java:84 | each key adds its text and "+!#", so a signature with keys ends in "+!#" |
| Dml.LowerCaseUpdate | src/main/java/com/datacenter/canal/load/support/SingleDml.java:31 | "update" counts as an update but gets priority 0, "UPDATE" gets 2 |
| Convert.MessageOf | src/main/java/com/datacenter/canal/select/support/EtlMessageUtil.java:31-110 | the message carries its entry's schema, table, type name and DDL flag; a DDL entry gets no keys and no rows; data and old rows are set only when non-empty |
| Convert.NonTransaction | src/main/java/com/datacenter/canal/select/support/EtlMessageUtil.java:17-21 | exactly the entries that are not transaction markers |
| Convert.ConvertMessage | src/main/java/com/datacenter/canal/select/support/EtlMessageUtil.java:11-114 | the loops compute the reference conversion: null for a null message, the messages, or the first unparsable entry |
| Convert.ConvertEntry | src/main/java/com/datacenter/canal/select/support/EtlMessageUtil.java:31-110 | one entry's loop body builds the reference message |
| Convert.ConvertRows | src/main/java/com/datacenter/canal/select/support/EtlMessageUtil.java:46-110 | the row loop computes the reference fold over the rows |
| Convert.ProcessRow | src/main/java/com/datacenter/canal/select/support/EtlMessageUtil.java:56-102 | one row event's body is one step of the reference fold |
| Convert.PutColumns | src/main/java/com/datacenter/canal/select/support/EtlMessageUtil.java:65-80 | the column loop builds the row, the key names and the updated names |
| Convert.PutSelected | src/main/java/com/datacenter/canal/select/support/EtlMessageUtil.java:86-95 | the old row holds exactly the before-columns whose names were flagged updated |
| Convert.EarlierFailureStays | src/main/java/com/datacenter/canal/select/support/EtlMessageUtil.java:23-29 | a parse failure is final: later entries are never looked at |
| Convert.MessagesFollowEntries | src/main/java/com/datacenter/canal/select/support/EtlMessageUtil.java:17-42 | never null for a message; one message per non-marker entry, in order, with its schema and table |
| Convert.ParseFailureIsFirst | src/main/java/com/datacenter/canal/select/support/EtlMessageUtil.java:23-29 | conversion throws exactly when some non-marker entry fails to parse, and names the first such entry |
| Convert.RowsOnlyForRowEvents | src/main/java/com/datacenter/canal/select/support/EtlMessageUtil.java:51-54 | other events produce no rows and no keys; row events count every row; only an UPDATE produces old rows |
| Convert.KeysOfFirstRow | src/main/java/com/datacenter/canal/select/support/EtlMessageUtil.java:66-70 | the key names are the first row's key columns, in column order |
| Convert.OldRowsHoldUpdatedColumns | src/main/java/com/datacenter/canal/select/support/EtlMessageUtil.java:77-99 | every old row holds only columns flagged updated somewhere in the entry |
| Convert.OldRowOfUpdate | src/main/java/com/datacenter/canal/select/support/EtlMessageUtil.java:77-99 | the old row one UPDATE row adds holds exactly its before-columns flagged in this row or an earlier one, never a later one, and is left out when there is none |
| Convert.OldRowsCanFallShort | src/main/java/com/datacenter/canal/select/support/EtlMessageUtil.java:85-99 | an UPDATE entry of two rows, the first flagging nothing, decodes into two data rows but one old row, the second row's |
| Convert.RowOfLookup | src/main/java/com/datacenter/canal/select/support/EtlMessageUtil.java:116-136 | get of a name in a decoded row gives the last binlog column of that name, with its key flag and type tags, null when the binlog says null and otherwise typeConvert of its text |
| Convert.RowsNeverEmpty | src/main/java/com/datacenter/canal/select/support/EtlMessageUtil.java:81-99 | no new or old row is empty, and neither list outgrows the rows processed |
| Convert.RowOfWellFormed | src/main/java/com/datacenter/canal/select/support/EtlMessageUtil.java:56-75 | a decoded row has one column per name |
| Convert.RowOfNames | src/main/java/com/datacenter/canal/select/support/EtlMessageUtil.java:65-75 | a decoded row holds exactly the names of the columns it was built from |

## Left out

- Floating-point conversion: setFloat, setDouble and new BigDecimal(double) keep the value they start from (`BindFloat`, `BindDouble`, `BindDecimal`). Short.parseShort and the other parse calls are kept the same way, and their NumberFormatException is not modelled.
- The date-time parser: the model stops at the text handed to it (`ParseDate`). Parsing, its exception on unreadable text, and the time zone it uses are not modelled.
- The default time zone: `OffsetString` takes the raw offset as a parameter. Setting the JVM default zone and building the parser's zone are left out. Integer.MIN_VALUE is excluded, because no zone has that offset.
- The dialect lookup: `BacktickByDbType` takes the result of Druid's DbType.of. The lookup itself and the ClassCastException `getBacktick` raises on a non-Druid data source are not modelled.
- Executor.BatchExecutor.constructor: the quote string of a Hikari pool comes from SyncUtil.getBacktickByUrl. That method is not part of this model, so the string is a parameter.
- JDBC I/O: connections, statements and drivers are a recorder plus failure arguments. A single `acquire` outcome stands for every connection request in a cycle.
- The clock and the protobuf decoder: System.currentTimeMillis is the `now` parameter, and RowChange.parseFrom is the entry's `change`, None where parsing fails.
- JdbcTypeUtil.typeConvert is a function parameter (`TypeConvert`) whose result is not examined.
- Etl.SameValue: a Timestamp is compared at millisecond precision; Timestamp.equals also compares nanoseconds below the millisecond, which the model does not carry.
- Rows are sequences of columns, so the load functions also accept a row with two columns of one name. A LinkedHashMap cannot hold one, and the decoder never builds one (`Convert.RowOfWellFormed`); such rows have no Java counterpart.
- Load never closes its executor. The model shows this and models no close in the cycle.
- Dml.SingleDml.constructor: Java's equalsIgnoreCase also folds non-ASCII letters; the model folds ASCII letters only.
- Dml.SingleDml.constructor: the requires asks for the data, old rows and key columns whose absence throws a NullPointerException or an IndexOutOfBoundsException in Java. Those exception paths are not modelled.
- Logging, the Spring wiring, the Canal client loop and the services around the load path are not part of this model.
- Concurrency: the executor's AtomicInteger counter is a plain field, because a cycle runs on one thread.
