# hbase-lite pipeline planner, in Dafny

hbase-lite runs map/partition/reduce pipelines over an HBase table as Hadoop
jobs. A caller starts from a table and chains `map` and `partitionBy` calls on
fluent views (`MappedImpl`, `PartitionedImpl`). All views of one pipeline
share one `JobBuilder`, which records the calls as stages, and any view handed
out so far may receive the next call (`Fluent.Session`). `reduce` plans and runs the
job:

- `Grouper` (no stages) or `MapperAdaptor` (the stage list is replayed on
  every row) is the map side;
- `ReducerAdaptor` with exactly one reduce task, or the partitioned reducer,
  is the reduce side;
- the result travels back through a temp table.

Around this core sit three more pieces:

- the column-spec parser and key-type dispatch of `Table`;
- the JPA naming defaults of `JPAUtils`;
- the value logic of `HColumn` and `Stats`.

The model is a set of pure Dafny functions and a few loop methods over
immutable datatypes:

- Stage, reducer, converter, encoder and decoder functions are opaque Dafny
  function values over an abstract value type. Java `null` is `Option.None`.
  A thrown exception is `Result.Err`.
- The execution engine is reduced to what the planner observes of it:
  - the job tracker identifier;
  - a completion status (`Succeeded` or `Failed(info)`);
  - the temp table, as a partial map from row key to the cells of that row,
    kept in ascending qualifier order. Results are written to and read from
    the row named by the job tracker identifier (`getJtIdentifier()`), which
    every job run on the same cluster shares.
- `Engine` adds an idealised run of the un-partitioned topology. It is used
  only to state the end-to-end result of a pipeline without `partitionBy`.
  The run is parameterised by the key class `ReducerAdaptor.reduce`
  declares. As written, that class does not match the key the mappers emit,
  so a job over a table with rows fails (see "## Findings"). The end-to-end
  lemmas use the corrected reduce.
- Java's `String.split` is modelled for the three patterns the code uses:
  `:`, `\s*,\s*` and `\s*:\s*`. That is leftmost non-overlapping matches with
  trailing empty strings dropped (`JavaSplit`).
- `Bytes.toBytes(String)` is modelled as UTF-8, with a decoder to prove it
  injective (`Utf8`).
- Java `byte` is a signed newtype, and `int`/`long` arithmetic wraps
  explicitly (`Base.WrapInt`, `Base.WrapLong`).

Files:

| file | module | content |
|---|---|---|
| base.dfy | Base | Option, Result, Java byte, 32/64-bit wrap-around |
| stages.dfy | Stages | stages, MapperAdaptor.map, Grouper.map |
| temp_storage.dfy | TempStorage | the temp table as data; storeResult, retrieveResult(s) |
| reducer_adaptor.dfy | ReducerAdaptor | ReducerAdaptor.reduce |
| job_builder.dfy | Jobs | JobBuilder |
| fluent.dfy | Fluent | MappedImpl, PartitionedImpl, chains of calls |
| engine.dfy | Engine | idealised single-reducer run, as written and corrected; end-to-end lemmas |
| java_split.dfy | JavaSplit | String.split for the three patterns |
| table.dfy | Tables | extractColumns, constructor, toBytes dispatch |
| utf8.dfy | Utf8 | UTF-8 encoding and its inverse |
| hcolumn.dfy | HColumns | HColumn constructor, equals, hashCode |
| jpa.dfy | Jpa | JPAUtils |
| stats.dfy | Stats | count, sumInts, sumLongs |

Where the `Partitioned` interface and `PartitionedImpl` disagree, the model
follows `PartitionedImpl`, and it follows the code elsewhere too:

- `PartitionedImpl.reduce` returns the stored values as a collection, in
  ascending qualifier order. It does not return a key-to-value mapping as the
  interface's `Map`-returning signature suggests.
- On the single-value path the code falls back to `reducer(empty list)`
  whenever the retrieved result is `null`. That covers a job that stored no
  row, and also a reducer that returned `null`.

## Model

| member | source | states |
|---|---|---|
| Stages.Replay | src/main/java/me/jaksa/hbase/lite/MapperAdaptor.java:31-44 | the reference replay of a stage chain on one value: the key has one component per partition stage, and the value is what the map stages compute |
| Stages.MapRow | src/main/java/me/jaksa/hbase/lite/MapperAdaptor.java:31-44 | the imperative loop (convert the row, then for each stage append `p(t)` to the key or replace `t` by `f(t)`) emits exactly the reference replay of the converted row; the key length equals the number of partition stages |
| Stages.ReplayAppend | src/main/java/me/jaksa/hbase/lite/MapperAdaptor.java:33-40 | replaying `a + b` is replaying `a`, then replaying `b` on the value `a` left, with `b`'s key components after `a`'s |
| Stages.KeyComponentOfPartition | src/main/java/me/jaksa/hbase/lite/MapperAdaptor.java:33-40 | the key component a partition stage contributes sits at its rank among the partition stages and is `p` applied to the value the earlier map stages produced: key order is declaration order, whatever map stages are interleaved |
| Stages.NoPartitionCountZero | src/main/java/me/jaksa/hbase/lite/MapperAdaptor.java:33-40 | the key is empty exactly when the chain holds no partition stage (both directions) |
| Stages.NoPartitionEmptyKey | src/main/java/me/jaksa/hbase/lite/MapperAdaptor.java:33-43 | without a partition stage every row gets the same (empty) key, so all rows form one group |
| Stages.AllMapsReplay | src/main/java/me/jaksa/hbase/lite/MapperAdaptor.java:34-39 | a chain of map stages only emits the empty key and the composed value |
| Stages.MapRunFusion | src/main/java/me/jaksa/hbase/lite/MapperAdaptor.java:34-39 | a run of consecutive map stages, anywhere in a chain, behaves as one map stage applying their composition |
| Stages.HasPartitionSnoc | src/main/java/me/jaksa/hbase/lite/JobBuilder.java:83-89 | a list with one more stage holds a partition stage exactly when the old list did or the new stage is one |
| Stages.GrouperMap | src/main/java/me/jaksa/hbase/lite/Grouper.java:19-30 | Grouper emits one pair per row: the fixed key `{42}` and the converted row, untransformed |
| Stages.GrouperOneGroup | src/main/java/me/jaksa/hbase/lite/Grouper.java:19-29 | any two rows get equal keys under Grouper |
| TempStorage.SingleResultPut | src/main/java/me/jaksa/hbase/lite/TempStorage.java:76-82 | a single result is written to the row named by the tracker identifier, under the qualifier `val` |
| TempStorage.RetrieveResult | src/main/java/me/jaksa/hbase/lite/TempStorage.java:92-99 | a non-null answer is the object stored under `val` in the tracker's row; a missing row or missing cell gives null |
| TempStorage.RetrieveResults | src/main/java/me/jaksa/hbase/lite/TempStorage.java:101-114 | null exactly when the tracker's row is absent or empty; otherwise every stored object of the row, one per cell, in ascending qualifier order on a well-formed table |
| TempStorage.StoreThenRetrieve | src/main/java/me/jaksa/hbase/lite/TempStorage.java:76-99 | what storeResult writes for a job is what retrieveResult reads back for it |
| TempStorage.OtherRowUntouched | src/main/java/me/jaksa/hbase/lite/TempStorage.java:76-114 | a write under another row changes neither retrieval for this row |
| TempStorage.LaterResultReplaces | src/main/java/me/jaksa/hbase/lite/TempStorage.java:76-99 | the row is shared: a later single result under the same tracker replaces an earlier one, whichever job wrote it |
| TempStorage.Upsert | src/main/java/me/jaksa/hbase/lite/TempStorage.java:79-81 | writing a cell makes the row hold exactly that value under its qualifier and leaves every other qualifier's cell as it was |
| TempStorage.UpsertSorted | src/main/java/me/jaksa/hbase/lite/TempStorage.java:79-81 | a write keeps a row in strictly ascending qualifier order, so one cell per qualifier |
| TempStorage.PutKeepsWellFormed | src/main/java/me/jaksa/hbase/lite/TempStorage.java:76-90 | every write keeps every row of the table sorted |
| TempStorage.ApplyPut | src/main/java/me/jaksa/hbase/lite/TempStorage.java:79-81 | a put adds its row if missing, sets its one cell and leaves the other rows and the other cells of its row alone |
| TempStorage.SortedAscending | src/main/java/me/jaksa/hbase/lite/TempStorage.java:106-111 | in a sorted row every earlier qualifier is below every later one |
| TempStorage.QualifierLessTotal | src/main/java/me/jaksa/hbase/lite/TempStorage.java:106-111 | the unsigned-byte order on qualifiers is total on distinct qualifiers (with QualifierLessIrreflexive and QualifierLessTransitive, a strict total order) |
| ReducerAdaptor.DecodeOrNull | src/main/java/me/jaksa/hbase/lite/ReducerAdaptor.java:30-36 | a value whose decoding throws becomes null; otherwise it is the decoded object |
| ReducerAdaptor.ReduceGroup | src/main/java/me/jaksa/hbase/lite/ReducerAdaptor.java:29-41 | the reducer sees one object per incoming value, in order, null for each value that fails to decode; it is applied once, and its result is the one write, under the tracker identifier and `val` |
| ReducerAdaptor.DecodeRoundTrip | src/main/java/me/jaksa/hbase/lite/ReducerAdaptor.java:30-36 | with a decoder that inverts the encoder, the reducer sees exactly the emitted objects, in order |
| Jobs.AddStage | src/main/java/me/jaksa/hbase/lite/JobBuilder.java:40-48 | adding a stage appends it to the one stage list, creating the list on first use, and changes nothing else |
| Jobs.AddMapper | src/main/java/me/jaksa/hbase/lite/JobBuilder.java:40-43 | addMapper appends the function object it is given; the list then holds a partition stage exactly when it held one or the object is a PartitionFunction |
| Jobs.AddPartitioner | src/main/java/me/jaksa/hbase/lite/JobBuilder.java:45-48 | addPartitioner appends one partition stage to the same list, which then holds a partition stage |
| Jobs.SetReducer | src/main/java/me/jaksa/hbase/lite/JobBuilder.java:50-52 | setReducer records the reducer and leaves the stages and the job alone |
| Jobs.HasPartitioners | src/main/java/me/jaksa/hbase/lite/JobBuilder.java:83-89 | the scan answers true exactly when some stage is a partition stage, and false when no stage was added |
| Jobs.CreateJob | src/main/java/me/jaksa/hbase/lite/JobBuilder.java:54-81 | Grouper exactly when no stage was added, else MapperAdaptor with the list shipped; ReducerAdaptor with exactly one reduce task exactly when there is no partition stage, else the partitioned reducer with the task count untouched |
| Jobs.ReduceToSingleValue | src/main/java/me/jaksa/hbase/lite/JobBuilder.java:91-104 | the job is created only when the builder holds none (line 93, `JobFor`) and is kept in the builder; a failed job throws "Failed processing " plus the failure info; otherwise the stored result, or the reducer applied to the empty list when the result is null (a throw if no reducer was ever set) |
| Jobs.ReduceToMultipleValues | src/main/java/me/jaksa/hbase/lite/JobBuilder.java:106-119 | the job is created only when the builder holds none (line 108, `JobFor`) and is kept in the builder; a failed job throws with the failure info; otherwise the stored results, or the empty collection when the row is absent or empty |
| Jobs.GrouperIffNoStages | src/main/java/me/jaksa/hbase/lite/JobBuilder.java:40-48 | on a builder that only the add operations touched, Grouper is chosen exactly when the stage list is empty |
| Jobs.JobCreatedOnce | src/main/java/me/jaksa/hbase/lite/JobBuilder.java:93 | a second reduce call reuses the job the first one created, even if stages were added in between |
| Fluent.MappedPartitionBy | src/main/java/me/jaksa/hbase/lite/MappedImpl.java:18-22 | appends one partition stage to the shared builder and moves to the Partitioned view |
| Fluent.MappedMap | src/main/java/me/jaksa/hbase/lite/MappedImpl.java:24-28 | appends the function object as given (a partition stage when it is a PartitionFunction) and stays Mapped |
| Fluent.PartitionedPartitionBy | src/main/java/me/jaksa/hbase/lite/PartitionedImpl.java:16-20 | appends one partition stage and stays Partitioned |
| Fluent.PartitionedMap | src/main/java/me/jaksa/hbase/lite/PartitionedImpl.java:22-26 | appends the function object as given and stays Partitioned |
| Fluent.MappedReduce | src/main/java/me/jaksa/hbase/lite/MappedImpl.java:30-34 | records the reducer, then takes the single-value path: fails exactly on a failed job, answers the stored result when one is non-null, and `reducer([])` otherwise |
| Fluent.PartitionedReduce | src/main/java/me/jaksa/hbase/lite/PartitionedImpl.java:28-32 | records the reducer, then takes the multi-value path: fails exactly on a failed job, answers the stored objects of the row when it has cells, and the empty collection otherwise |
| Fluent.Invoke | src/main/java/me/jaksa/hbase/lite/MappedImpl.java:18-28 | a call on a view appends one stage to the shared builder and returns a Partitioned view exactly when it was made on one or is a partitionBy |
| Fluent.Step | src/main/java/me/jaksa/hbase/lite/PartitionedImpl.java:16-26 | a call on any view handed out so far changes the one shared builder and adds the returned view to the ones handed out, the earlier views staying as they were |
| Fluent.ChainStages | src/main/java/me/jaksa/hbase/lite/MappedImpl.java:18-28 | whichever views the calls are made on, the shared stage list ends up as the old list followed by one stage per call, in call order |
| Fluent.ChainKeeps | src/main/java/me/jaksa/hbase/lite/PartitionedImpl.java:16-26 | a chain of calls leaves the builder's reducer and job untouched, the views already handed out unchanged, adds one view per call, and after at least one call the stage list exists and is non-empty |
| Fluent.ChainViews | src/main/java/me/jaksa/hbase/lite/PartitionedImpl.java:16-26 | the view call k returns is Partitioned exactly when the view it was made on is Partitioned or the call is a partitionBy |
| Fluent.ChainKeepsPartitionedHasStage | src/main/java/me/jaksa/hbase/lite/MappedImpl.java:18-22 | once every Partitioned view handed out stands on a builder with a partition stage, further calls keep it so |
| Fluent.PartitionedViewHasPartition | src/main/java/me/jaksa/hbase/lite/MappedImpl.java:18-22 | from a table's entry point, a Partitioned view always stands on a builder holding a partition stage |
| Fluent.MappedViewOverPartitionStage | src/main/java/me/jaksa/hbase/lite/MappedImpl.java:18-34 | the converse fails: keeping the entry point after partitionBy, or handing map a PartitionFunction, gives a Mapped view over a partition stage, whose reduce plans the partitioned reducer yet reads only the `val` cell and otherwise answers `reducer([])` |
| Fluent.ReduceTopology | src/main/java/me/jaksa/hbase/lite/JobBuilder.java:54-93 | the job the first reduce plans depends only on the calls made, not on the view: the single reducer with one reduce task exactly when no call added a partition stage, and Grouper exactly when no call was made |
| Fluent.PartitionedReduceTopology | src/main/java/me/jaksa/hbase/lite/PartitionedImpl.java:28-32 | reducing a Partitioned view reached from the entry point plans MapperAdaptor and the partitioned reducer with the default task count |
| Fluent.ReducePipeline | src/main/java/me/jaksa/hbase/lite/MappedImpl.java:30-34 | reduce answers a single value exactly from a Mapped view and a collection from a Partitioned one, and fails exactly when the job failed |
| Fluent.EmptySourceResult | src/main/java/me/jaksa/hbase/lite/JobBuilder.java:97-115 | while the tracker's row is absent, reducing a Mapped view answers `reducer([])` and a Partitioned view the empty collection, whichever calls were made |
| Engine.SingleTopologyOneKey | src/main/java/me/jaksa/hbase/lite/JobBuilder.java:73-75 | in the single-reducer topology every row is emitted under the same key, so the one reduce task sees one group |
| Engine.EmittedValueIsComposition | src/main/java/me/jaksa/hbase/lite/MapperAdaptor.java:32-43 | the value the configured mapper emits for a row is the converted row after the map stages |
| Engine.RunSingleJobWith | src/main/java/me/jaksa/hbase/lite/ReducerAdaptor.java:20-41 | an empty table makes no reduce call and succeeds; otherwise the job fails exactly when reduce's declared key class is not the one the mappers emit or the shipped reducer is null, leaving the table alone, and when it succeeds it leaves the table the reduce call writes |
| Engine.NoReducerJobFails | src/main/java/me/jaksa/hbase/lite/ReducerAdaptor.java:23-38 | a builder that never received a reducer ships null (JobBuilder.java:62); with the corrected reduce key, over a table with rows the reduce task's call on it fails the job with nothing stored, and reduce throws "Failed processing " with that failure |
| Engine.RowsFailAsWritten | src/main/java/me/jaksa/hbase/lite/ReducerAdaptor.java:20-29 | as written (IntWritable declared, BytesWritable emitted by JobBuilder.java:65-70), a table with at least one row fails the job with nothing stored, and reduce on any view throws "Failed processing " plus the job's failure info |
| Engine.RunSingleJobWrites | src/main/java/me/jaksa/hbase/lite/ReducerAdaptor.java:29-41 | with reduce accepting the key the mappers emit, the job over a table with rows succeeds and writes, under the tracker's row, the reducer applied to every row after its map stages |
| Engine.NoPartitionMappedView | src/main/java/me/jaksa/hbase/lite/MappedImpl.java:18-28 | without a partition stage every view a pipeline hands out is Mapped |
| Engine.SingleValueEndToEnd | src/main/java/me/jaksa/hbase/lite/MappedImpl.java:30-34 | end to end, with the corrected reduce key and on a fresh tracker row, a pipeline without partition stages answers, on any of its views, the reducer applied to every row after its map stages, or `reducer([])` on an empty table or a null result |
| Engine.StaleResultOnEmptyTable | src/main/java/me/jaksa/hbase/lite/JobBuilder.java:97-100 | when the tracker's row already holds a non-null result, a pipeline over an empty table succeeds without writing and answers that earlier result, not `reducer([])`, whichever key class reduce declares |
| Engine.SecondJobSeesFirstResult | src/main/java/me/jaksa/hbase/lite/TempStorage.java:76-99 | two jobs on one cluster: the second, over an empty table, answers the first one's non-null result |
| JavaSplit.DropTrailingEmpty | src/main/java/me/jaksa/hbase/lite/Table.java:47-48 | split's trailing-empty rule: the longest prefix that does not end with an empty string, the rest being all empty |
| JavaSplit.PiecesOfJoin | src/main/java/me/jaksa/hbase/lite/Table.java:47-48 | pieces free of the separator (and trimmed, for a padded pattern) come back unchanged from splitting their join |
| JavaSplit.JoinPieces | src/main/java/me/jaksa/hbase/lite/JPAUtils.java:51 | joining the pieces of a `:` split with `:` gives back the input |
| JavaSplit.PiecesNoSeparator | src/main/java/me/jaksa/hbase/lite/Table.java:47-48 | no piece contains the separator character |
| JavaSplit.SplitEmptyIff | src/main/java/me/jaksa/hbase/lite/JPAUtils.java:51 | `split(":")` of a non-empty string yields no part exactly when the string is made only of colons |
| JavaSplit.SplitEmptyString | src/main/java/me/jaksa/hbase/lite/JPAUtils.java:51 | `split` of the empty string is one empty part, since nothing matches |
| Tables.ParseEntries | src/main/java/me/jaksa/hbase/lite/Table.java:47-54 | the parse succeeds exactly when every entry splits into two parts, and then yields one column per entry, in order; otherwise the error names the first bad entry |
| Tables.ExtractColumns | src/main/java/me/jaksa/hbase/lite/Table.java:44-55 | a null or empty spec is rejected with "you must specify some columns"; otherwise the comma-split entries are parsed |
| Tables.NewTable | src/main/java/me/jaksa/hbase/lite/Table.java:31-37 | construction fails exactly when the column spec does not parse, with its message, and otherwise keeps the parsed columns |
| Tables.ParseGood | src/main/java/me/jaksa/hbase/lite/Table.java:47-54 | entries that each split into a family and a name parse to exactly those columns |
| Tables.ParseBad | src/main/java/me/jaksa/hbase/lite/Table.java:49 | the first entry that does not split into two parts decides the error message |
| Tables.ExtractRender | src/main/java/me/jaksa/hbase/lite/Table.java:44-55 | parsing the documented format `fam1:col1,fam1:col2,...` of any non-empty list of plain columns gives that list back |
| Tables.ExampleEmptySpec | src/test/java/me/jaksa/hbase/lite/TableTest.java:44-47 | `""` and null are rejected |
| Tables.ExampleMissingName | src/main/java/me/jaksa/hbase/lite/Table.java:47-49 | `"fam:"` has one part once the trailing empty piece is dropped, and is rejected |
| Tables.ExampleLoneComma | src/main/java/me/jaksa/hbase/lite/Table.java:47-49 | `","` yields no columns and no error |
| Tables.ExampleNoFamily | src/test/java/me/jaksa/hbase/lite/TableTest.java:49-52 | `"fam1:col1,col2,fam1:col3"` is rejected, naming `col2` |
| Tables.ExampleSpaces | src/test/java/me/jaksa/hbase/lite/TableTest.java:54-68 | `"fam1 :col1 , fam1: col2, fam2 : col1"` parses to (fam1,col1), (fam1,col2), (fam2,col1) |
| Tables.ToBytes | src/main/java/me/jaksa/hbase/lite/Table.java:92-103 | a key is accepted exactly when its type is one of the nine supported types, and is then handed to the encoder for that type; any other type is rejected with "HBase doesn't support keys of type " plus the class name |
| Utf8.DecodeEncode | src/main/java/me/jaksa/hbase/lite/HColumn.java:17-20 | the UTF-8 bytes a string is stored as decode back to the string |
| Utf8.EncodeInjective | src/main/java/me/jaksa/hbase/lite/HColumn.java:17-20 | two strings have the same bytes exactly when they are equal |
| Utf8.EncodeAscii | src/main/java/me/jaksa/hbase/lite/HColumn.java:17-20 | an ASCII string encodes as one byte per character, holding its code |
| HColumns.NewHColumn | src/main/java/me/jaksa/hbase/lite/HColumn.java:17-20 | the constructor stores bytes that decode to the family and the name |
| HColumns.ArraysEquals | src/main/java/me/jaksa/hbase/lite/HColumn.java:29-30 | the element-wise comparison answers true exactly when the two byte arrays are equal |
| HColumns.Equals | src/main/java/me/jaksa/hbase/lite/HColumn.java:22-33 | equals holds exactly for an HColumn with the same family bytes and name bytes (never for null or another class) |
| HColumns.NewHColumnEqual | src/main/java/me/jaksa/hbase/lite/HColumn.java:17-33 | two columns built from strings are equal exactly when both the families and the names are equal |
| HColumns.ArrayHash | src/main/java/me/jaksa/hbase/lite/HColumn.java:37-38 | Arrays.hashCode's loop from 1 with `31*h + b` in 32-bit arithmetic equals the polynomial `31^n + sum b[i]*31^(n-1-i)`, wrapped to an int |
| HColumns.HashCode | src/main/java/me/jaksa/hbase/lite/HColumn.java:35-40 | hashCode is `31*hash(family) + hash(name)`, wrapped to an int |
| HColumns.EqualsAgreesWithHash | src/main/java/me/jaksa/hbase/lite/HColumn.java:22-40 | running equals and hashCode: whenever equals accepts an object, that object is a column and its hashCode equals the receiver's |
| Jpa.GetTableName | src/main/java/me/jaksa/hbase/lite/JPAUtils.java:12-22 | a non-empty table annotation is used verbatim; otherwise the simple name followed by "es" exactly when it ends in `s`, else by "s" |
| Jpa.DefaultTableNameInjective | src/main/java/me/jaksa/hbase/lite/JPAUtils.java:12-22 | among classes without a table annotation whose names agree on ending in `s`, the default table names are equal exactly when the simple names are |
| Jpa.DefaultTableNameCollision | src/main/java/me/jaksa/hbase/lite/JPAUtils.java:12-22 | across the two suffix rules the defaults can collide: `Bus` and `Buse` both map to "Buses" |
| Jpa.GetColumnName | src/main/java/me/jaksa/hbase/lite/JPAUtils.java:46-57 | the second of exactly two `:` parts, else the first part, else (no annotation or an empty one) the field name; no first part throws |
| Jpa.GetColumnFamily | src/main/java/me/jaksa/hbase/lite/JPAUtils.java:59-69 | the first of exactly two `:` parts, otherwise "cf" |
| Jpa.CollectColumns | src/main/java/me/jaksa/hbase/lite/JPAUtils.java:24-32 | the map's keys are exactly the fields without @Id, each mapped to its column; it fails exactly when some such field's column fails |
| Jpa.GetColumns | src/main/java/me/jaksa/hbase/lite/JPAUtils.java:24-32 | getColumns maps exactly the non-@Id fields to `HColumn(getColumnFamily, getColumnName)` |
| Jpa.ColumnsValues | src/main/java/me/jaksa/hbase/lite/JPAUtils.java:24-32 | the map's values are the columns of the non-key fields |
| Jpa.GetKeyField | src/main/java/me/jaksa/hbase/lite/JPAUtils.java:34-40 | the first @Id field in declaration order; fails, naming the class, exactly when there is none |
| Jpa.ColumnNameFailsIff | src/main/java/me/jaksa/hbase/lite/JPAUtils.java:49-53 | getColumnName throws exactly for a non-empty column name made only of colons |
| Jpa.QualifiedColumn | src/main/java/me/jaksa/hbase/lite/JPAUtils.java:46-69 | `@Column(name = "fam:col")` gives family `fam` and name `col` |
| Jpa.UnqualifiedColumn | src/main/java/me/jaksa/hbase/lite/JPAUtils.java:46-69 | a column name without a colon keeps the family "cf" and is used as the name |
| Jpa.DefaultColumn | src/main/java/me/jaksa/hbase/lite/JPAUtils.java:46-69 | a field without a named @Column goes to cf:<field name> |
| Jpa.EmployeeColumns | src/test/java/me/jaksa/hbase/lite/JPAUtilsTest.java:53-60 | Employee's columns are cf:name, cf:title, cf:sal and ext:dpt |
| Jpa.EmployeeKeyAndTable | src/test/java/me/jaksa/hbase/lite/JPAUtilsTest.java:62-67 | Employee's key field is `id`, and its table is "Employees" |
| Jpa.TableNameExamples | src/test/java/me/jaksa/hbase/lite/JPAUtilsTest.java:15-50 | MyClass becomes MyClasses; an annotation "my-table" is used as is |
| Stats.Count | src/main/java/me/jaksa/hbase/lite/Stats.java:33-37 | count is the number of items, independent of their values, held in a long |
| Stats.SumBoxed | src/main/java/me/jaksa/hbase/lite/Stats.java:9-19 | the `sum += n` loop throws exactly when an element is null, and otherwise gives the exact sum wrapped to a long |
| Stats.SumInts | src/main/java/me/jaksa/hbase/lite/Stats.java:9-13 | sumInts is the sum of the ints, wrapped to a long, and throws on a null element |
| Stats.SumLongs | src/main/java/me/jaksa/hbase/lite/Stats.java:15-19 | sumLongs is the sum of the longs, wrapped to a long, and throws on a null element |
| Stats.SumAppend | src/main/java/me/jaksa/hbase/lite/Stats.java:11-17 | the sum of a concatenation is the sum of the sums of the parts |
| Stats.IntSumExact | src/main/java/me/jaksa/hbase/lite/Stats.java:9-13 | below 2^32 elements the long total of ints cannot overflow, so sumInts is the exact sum |
| Stats.SumExamples | src/test/java/me/jaksa/hbase/lite/StatsTest.java:10-19 | the test data 1..6 sums to 21, as ints and as longs; the empty sum is 0 |

## Left out

- TempStorage I/O is not modelled. That covers table creation, Put/Get
  calls, the `System.nanoTime()` keys, and shipping converters, stages and
  reducers through the job configuration. The temp table is a map, and
  shipping is the `stages`/`reducerFn` fields of the job.
- Java serialization (SerializableUtils) is not modelled. Encoders and
  decoders are opaque function parameters, and a decoder may fail.
- PartitionedReducerAdaptor is not part of this model. The multi-value path
  only reads back what the temp table holds, and the engine run in `Engine`
  covers the single-reducer topology only. The keyed `storeResult`
  (TempStorage.java:84-90) is covered only as a generic `Put` under the
  tracker's row.
- Concurrent jobs are not modelled. Two jobs on one cluster are modelled one
  after the other, through the store the first leaves behind
  (`Engine.SecondJobSeesFirstResult`). Rows of the temp table are never
  deleted, in the code as in the model.
- Hadoop plumbing is left out: `Job.getInstance`, `setJarByClass` with
  `getClassForJar`, `addDependencyJars`, `TableMapReduceUtil`, and how
  `waitForCompletion` runs the job. Only the choices `createJob` makes and the
  completion status are modelled. The `ClassNotFoundException` and
  `InterruptedException` wrapping is not modelled either.
- Group formation in the shuffle (sorting keys, the order of values inside a
  group) belongs to Hadoop. `Engine` assumes row order for the single group.
- The byte layouts `Bytes.toBytes` produces for numbers, booleans, decimals and
  buffers are left out. Only the type dispatch in `toBytes` is modelled.
  Strings are the exception: they are encoded as UTF-8 for `HColumn`.
- Table.get, put, scan and getHTable are left out because they are HBase
  client calls. Table's `map`/`reduce` entry points are not part of this
  model, so `Fluent.Start` stands for a fresh pipeline over a table.
- GenericConverter, Converter and HBaseLite are left out. They are
  reflection-based row mapping and a configuration singleton; the converter
  appears only as a function parameter.
- Stats.sumFloats and Stats.sum are left out because they use floating
  point.
- Stats.Count, Stats.SumInts and Stats.SumLongs do not model a null
  collection argument, which throws before the loop.
- Utf8.Encode does not model unpaired UTF-16 surrogates, because a Dafny
  `char` is a Unicode scalar value. Java replaces an unpaired surrogate by `?`.
- Jpa.GetColumns returns a Dafny map keyed by the field description.
  Reflection's field order is taken to be declaration order, which Java does
  not guarantee.
- The Mapped, Partitioned, SerializableFunction and PartitionFunction
  interfaces carry no behaviour of their own. A stage is tagged a partition
  stage (`PartitionStage`) when its object implements PartitionFunction,
  whichever of `map` and `partitionBy` added it; `map` takes the tagged
  `Stage` as given.
- Fluent.EmptySourceResult: assumes the tracker's row is absent. The row is
  the job tracker identifier, which every job on the cluster shares, so after
  an earlier job on the same cluster the answer can be that job's result
  (`Engine.StaleResultOnEmptyTable`).
- Engine.SingleValueEndToEnd: assumes a fresh tracker row, for the same
  reason; `Engine.StaleResultOnEmptyTable` states what happens otherwise.
  It also assumes the corrected reduce key (see "## Findings").
- Engine.RunSingleJobWrites: assumes the reduce call accepts the
  BytesWritable shuffle key, which the declared IntWritable key does not;
  `Engine.RowsFailAsWritten` states the code as written.
- Engine.RowsFailAsWritten: the job's failure info is abstracted to the
  name of the exception (`ClassCastException`, or `NullPointerException` in
  `Engine.NoReducerJobFails`). Hadoop's `getFailureInfo()` reports the failed
  task instead, so only the "Failed processing " prefix is exact.
- ReducerAdaptor.ReduceGroup: the reducer receives a sequence it may read
  any number of times. Java hands it `Iterables.transform` over Hadoop's
  single-pass values iterable, so decoding reruns on every traversal and a
  second traversal sees no values. The model therefore holds for reducers
  that traverse their argument once, as `size` and the Stats functions do.
  `Engine.RunSingleJob` makes the same assumption.
- Jobs.ReduceToSingleValue: a reducer that throws is not modelled. Reducers
  are total function values, so the exception `reducer.apply(emptyList)`
  would raise on the driver is not represented.
- Fluent.MappedReduce: stage and reducer functions that throw are not
  modelled, for the same reason. A throwing stage or reducer inside the job
  shows up only as a `Failed` completion.

## Findings

| source | as written | input that shows it | evidently intended | confidence | as-written member | corrected member |
|---|---|---|---|---|---|---|
| src/main/java/me/jaksa/hbase/lite/ReducerAdaptor.java:20-29 | `ReducerAdaptor` declares `reduce(IntWritable key, …)`, but `createJob` configures BytesWritable as the map output key (JobBuilder.java:65-70). The bridge method Java generates casts every key, so the first group throws ClassCastException | any table with at least one row, reduced through a pipeline without `partitionBy` | the reduce call accepts the BytesWritable key and stores the reducer's result, as TableIntegrationTest.java:40-46 expects (3 for three rows) | medium; not executed | Engine.RowsFailAsWritten | Engine.RunSingleJobWrites |
