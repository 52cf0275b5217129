/** An idealised run of the un-partitioned topology, used to state what a
    pipeline without partitionBy computes end to end: every row goes through
    the configured mapper, the single reduce task receives one group holding
    every emitted value in row order, and ReducerAdaptor writes its result to
    the temp table. Values cross the shuffle through an encoder and decoder
    supplied as parameters.

    The mappers emit BytesWritable keys, but ReducerAdaptor.reduce declares an
    IntWritable key, and the bridge method Java generates for it casts every
    key it is handed. As written, the reduce task therefore fails on the first
    group. The run is parameterised by the key class reduce declares:
    RowsFailAsWritten states the code as written, and the rest of the model
    uses the reduce that accepts the key the mappers emit. */
module Engine {
  import opened Base
  import opened Stages
  import opened TempStorage
  import opened ReducerAdaptor
  import opened Jobs
  import opened Fluent

  /** The shuffle key a mapper writes: Grouper's fixed bytes or MapperAdaptor's key list. */
  datatype GroupKey<V> = ConstKey(bytes: seq<JByte>) | ListKey(components: seq<V>)

  /** What the configured mapper emits for one row. */
  function Emit<Row, V, R>(job: Job<V, R>, convert: Row -> V, row: Row): Emission<GroupKey<V>, V> {
    match job.mapper
    case GrouperMapper =>
      var e := GrouperMap(convert, row);
      Emission(ConstKey(e.key), e.value)
    case MapperAdaptorMapper =>
      var e := Replay(job.stages.GetOr([]), convert(row));
      Emission(ListKey(e.key), e.value)
  }

  /** In the un-partitioned topology all rows are emitted under one key, so the
      single reduce task sees a single group. */
  lemma SingleTopologyOneKey<Row, V, R>(b: JobBuilder<V, R>, tracker: string, convert: Row -> V, r1: Row, r2: Row)
    requires CreateJob(b, tracker).reducer == SingleReducer
    ensures Emit(CreateJob(b, tracker), convert, r1).key == Emit(CreateJob(b, tracker), convert, r2).key
  {
    var job := CreateJob(b, tracker);
    if job.mapper == MapperAdaptorMapper {
      NoPartitionEmptyKey(StagesOf(b), convert(r1), convert(r2));
    }
  }

  /** The serialized values the reduce task receives, in row order. */
  function ShuffledValues<Row, V, R>(job: Job<V, R>, convert: Row -> V, encode: V -> seq<JByte>,
                                     rows: seq<Row>): (vs: seq<seq<JByte>>)
    ensures |vs| == |rows|
  {
    seq(|rows|, i requires 0 <= i < |rows| => encode(Emit(job, convert, rows[i]).value))
  }

  function DecodeAll<V>(decode: seq<JByte> -> Result<Option<V>>, values: seq<seq<JByte>>): seq<Option<V>> {
    seq(|values|, i requires 0 <= i < |values| => DecodeOrNull(decode, values[i]))
  }

  /** The temp table after the job: one write when there was a row to reduce,
      none otherwise. A job shipped without a reducer writes nothing; how it
      ends is RunSingleJobWith's concern. */
  function RunSingleJob<Row, V, R>(job: Job<V, R>, convert: Row -> V, encode: V -> seq<JByte>,
                                   decode: seq<JByte> -> Result<Option<V>>, rows: seq<Row>,
                                   store: Store<R>): Store<R>
  {
    if rows == [] || job.reducerFn.None? then store
    else
      var objects := DecodeAll(decode, ShuffledValues(job, convert, encode, rows));
      ApplyPut(store, SingleResultPut(job.tracker, job.reducerFn.value(objects)))
  }

  /** The key classes a shuffle key can have here. */
  datatype KeyClass = BytesWritableKey | IntWritableKey

  /** The map output key class createJob configures, for Grouper and MapperAdaptor alike. */
  const MAP_OUTPUT_KEY: KeyClass := BytesWritableKey

  /** The key class ReducerAdaptor.reduce declares. */
  const DECLARED_REDUCE_KEY: KeyClass := IntWritableKey

  /** The exception the cast in reduce's bridge method throws. The model uses
      the exception's name as the job's failure info. */
  const CLASS_CAST: string := "ClassCastException"

  /** How a job ended and the temp table it left. */
  datatype Run<R> = Run(completion: Completion, store: Store<R>)

  /** The single-reducer job with a reduce declaring key class `reduceKey`:
      an empty table makes no reduce call and succeeds; otherwise the first
      group's key is cast to `reduceKey`, which fails the job unless it is
      the class the mappers emit, and then the shipped reducer is applied,
      which fails the job when it was null. */
  function RunSingleJobWith<Row, V, R>(reduceKey: KeyClass, job: Job<V, R>, convert: Row -> V,
                                       encode: V -> seq<JByte>, decode: seq<JByte> -> Result<Option<V>>,
                                       rows: seq<Row>, store: Store<R>): (run: Run<R>)
    ensures rows == [] ==> run == Run(Succeeded, store)
    ensures run.completion.Failed? <==> rows != [] && (reduceKey != MAP_OUTPUT_KEY || job.reducerFn.None?)
    ensures run.completion.Failed? ==> run.store == store
    ensures run.completion.Succeeded? ==> run.store == RunSingleJob(job, convert, encode, decode, rows, store)
  {
    if rows != [] && reduceKey != MAP_OUTPUT_KEY then Run(Failed(CLASS_CAST), store)
    else if rows != [] && job.reducerFn.None? then Run(Failed(NULL_REDUCER), store)
    else Run(Succeeded, RunSingleJob(job, convert, encode, decode, rows, store))
  }

  /** The value a row contributes in a pipeline without partition stages: the map stages' composition. */
  lemma EmittedValueIsComposition<Row, V, R>(b: JobBuilder<V, R>, tracker: string, convert: Row -> V, row: Row)
    ensures Emit(CreateJob(b, tracker), convert, row).value == ApplyMaps(StagesOf(b), convert(row))
  {
  }

  lemma RoundTripAt<V>(encode: V -> seq<JByte>, decode: seq<JByte> -> Result<Option<V>>, x: V)
    requires forall v :: decode(encode(v)) == Ok(Some(v))
    ensures DecodeOrNull(decode, encode(x)) == Some(x)
  {
  }

  /** A pipeline without partition stages hands out only Mapped views. */
  lemma NoPartitionMappedView<V, R>(calls: seq<Call<V>>, i: nat)
    requires CallsFit(1, calls)
    requires !HasPartition(CallStages(calls))
    requires i <= |calls|
    ensures |Chain(Start<V, R>(), calls).views| == |calls| + 1
    ensures Chain(Start<V, R>(), calls).views[i] == MappedView
  {
    ChainKeeps(Start<V, R>(), calls);
    if Chain(Start<V, R>(), calls).views[i] == PartitionedView {
      PartitionedViewHasPartition<V, R>(calls, i);
    }
  }

  /** With the reduce key corrected to the class the mappers emit, the job a
      pipeline runs over a table with rows succeeds and writes, under the
      tracker's row, the reducer applied to every row after its map stages. */
  lemma {:induction false} RunSingleJobWrites<Row, V, R>(
    calls: seq<Call<V>>, reducer: Reducer<V, R>, tracker: string,
    convert: Row -> V, encode: V -> seq<JByte>, decode: seq<JByte> -> Result<Option<V>>,
    rows: seq<Row>, store: Store<R>)
    requires forall v :: decode(encode(v)) == Ok(Some(v))
    requires CallsFit(1, calls)
    requires rows != []
    ensures
      var job := JobFor(SetReducer(Chain(Start<V, R>(), calls).builder, reducer), tracker);
      var objects := seq(|rows|, i requires 0 <= i < |rows| => Some(ApplyMaps(CallStages(calls), convert(rows[i]))));
      RunSingleJobWith(MAP_OUTPUT_KEY, job, convert, encode, decode, rows, store)
        == Run(Succeeded, ApplyPut(store, SingleResultPut(tracker, reducer(objects))))
  {
    var q := Chain(Start<V, R>(), calls);
    ChainStages(Start<V, R>(), calls);
    ChainKeeps(Start<V, R>(), calls);
    assert StagesOf(Start<V, R>().builder) + CallStages(calls) == CallStages(calls);
    var b := SetReducer(q.builder, reducer);
    var job := JobFor(b, tracker);
    assert job == CreateJob(b, tracker);
    var objects := seq(|rows|, i requires 0 <= i < |rows| => Some(ApplyMaps(CallStages(calls), convert(rows[i]))));
    var shuffled := ShuffledValues(job, convert, encode, rows);
    assert StagesOf(b) == CallStages(calls);
    assert job.reducerFn == Some(reducer);
    forall k | 0 <= k < |rows|
      ensures DecodeAll(decode, shuffled)[k] == objects[k]
    {
      EmittedValueIsComposition(b, tracker, convert, rows[k]);
      assert shuffled[k] == encode(Emit(job, convert, rows[k]).value);
      assert DecodeAll(decode, shuffled)[k] == DecodeOrNull(decode, shuffled[k]);
      var x := Emit(job, convert, rows[k]).value;
      RoundTripAt(encode, decode, x);
      assert objects[k] == Some(ApplyMaps(CallStages(calls), convert(rows[k])));
    }
    assert DecodeAll(decode, shuffled) == objects;
  }

  /** End to end, a pipeline built without partitionBy and reduced, on any of
      its views, over a table returns the reducer applied to every row after
      its map stages; on an empty table, or when that result is null, it
      returns the reducer applied to the empty list. This holds while the
      tracker's row is fresh; see StaleResultOnEmptyTable for a row that is not. */
  lemma {:induction false} SingleValueEndToEnd<Row, V, R>(
    calls: seq<Call<V>>, i: nat, reducer: Reducer<V, R>, tracker: string,
    convert: Row -> V, encode: V -> seq<JByte>, decode: seq<JByte> -> Result<Option<V>>,
    rows: seq<Row>, store: Store<R>)
    requires forall v :: decode(encode(v)) == Ok(Some(v))
    requires CallsFit(1, calls)
    requires !HasPartition(CallStages(calls))
    requires i <= |calls|
    requires tracker !in store
    ensures
      var q := Chain(Start<V, R>(), calls);
      var job := JobFor(SetReducer(q.builder, reducer), tracker);
      var objects := seq(|rows|, i requires 0 <= i < |rows| => Some(ApplyMaps(CallStages(calls), convert(rows[i]))));
      var run := RunSingleJobWith(MAP_OUTPUT_KEY, job, convert, encode, decode, rows, store);
      i < |q.views| &&
      ReducePipeline(q, i, reducer, tracker, run.completion, run.store)
        == Ok(Single(if rows != [] && reducer(objects).Some? then reducer(objects) else reducer([])))
  {
    var q := Chain(Start<V, R>(), calls);
    ChainKeeps(Start<V, R>(), calls);
    NoPartitionMappedView<V, R>(calls, i);
    assert JobFor(q.builder, tracker).tracker == tracker;
    var objects := seq(|rows|, i requires 0 <= i < |rows| => Some(ApplyMaps(CallStages(calls), convert(rows[i]))));
    if rows != [] {
      RunSingleJobWrites(calls, reducer, tracker, convert, encode, decode, rows, store);
      StoreThenRetrieve(store, tracker, reducer(objects));
    }
  }

  /** The temp row is the tracker identifier, which every job on the cluster
      shares, and nothing clears it. So once some job has stored a non-null
      single result, a later pipeline reduced over an empty table writes
      nothing and reads that earlier result back instead of the reducer
      applied to the empty list. No reduce call is made, so this holds for the
      code as written and for the corrected reduce alike. */
  lemma StaleResultOnEmptyTable<Row, V, R>(
    reduceKey: KeyClass, calls: seq<Call<V>>, i: nat, reducer: Reducer<V, R>, tracker: string,
    convert: Row -> V, encode: V -> seq<JByte>, decode: seq<JByte> -> Result<Option<V>>,
    store: Store<R>)
    requires CallsFit(1, calls)
    requires !HasPartition(CallStages(calls))
    requires i <= |calls|
    requires RetrieveResult(store, tracker).Some?
    ensures
      var q := Chain(Start<V, R>(), calls);
      var job := JobFor(SetReducer(q.builder, reducer), tracker);
      var run := RunSingleJobWith(reduceKey, job, convert, encode, decode, [], store);
      i < |q.views| && run == Run(Succeeded, store) &&
      ReducePipeline(q, i, reducer, tracker, run.completion, run.store) == Ok(Single(RetrieveResult(store, tracker)))
  {
    var q := Chain(Start<V, R>(), calls);
    ChainKeeps(Start<V, R>(), calls);
    NoPartitionMappedView<V, R>(calls, i);
    assert JobFor(q.builder, tracker).tracker == tracker;
  }

  /** Two jobs on one cluster: the first, over a table with rows, stores its
      non-null result; the second, over an empty table, answers that same
      result, whatever its own reducer would make of the empty list. */
  lemma SecondJobSeesFirstResult<Row, V, R>(
    calls1: seq<Call<V>>, reducer1: Reducer<V, R>, calls2: seq<Call<V>>, reducer2: Reducer<V, R>,
    tracker: string, convert: Row -> V, encode: V -> seq<JByte>, decode: seq<JByte> -> Result<Option<V>>,
    rows: seq<Row>, store: Store<R>)
    requires forall v :: decode(encode(v)) == Ok(Some(v))
    requires CallsFit(1, calls1) && CallsFit(1, calls2)
    requires !HasPartition(CallStages(calls1)) && !HasPartition(CallStages(calls2))
    requires rows != []
    ensures
      var objects := seq(|rows|, i requires 0 <= i < |rows| => Some(ApplyMaps(CallStages(calls1), convert(rows[i]))));
      var job1 := JobFor(SetReducer(Chain(Start<V, R>(), calls1).builder, reducer1), tracker);
      var run1 := RunSingleJobWith(MAP_OUTPUT_KEY, job1, convert, encode, decode, rows, store);
      var q2 := Chain(Start<V, R>(), calls2);
      var job2 := JobFor(SetReducer(q2.builder, reducer2), tracker);
      var run2 := RunSingleJobWith(MAP_OUTPUT_KEY, job2, convert, encode, decode, [], run1.store);
      |q2.views| == |calls2| + 1 &&
      (reducer1(objects).Some? ==>
        ReducePipeline(q2, 0, reducer2, tracker, run2.completion, run2.store) == Ok(Single(reducer1(objects))))
  {
    var objects := seq(|rows|, i requires 0 <= i < |rows| => Some(ApplyMaps(CallStages(calls1), convert(rows[i]))));
    ChainKeeps(Start<V, R>(), calls2);
    RunSingleJobWrites(calls1, reducer1, tracker, convert, encode, decode, rows, store);
    var after1 := ApplyPut(store, SingleResultPut(tracker, reducer1(objects)));
    StoreThenRetrieve(store, tracker, reducer1(objects));
    if reducer1(objects).Some? {
      StaleResultOnEmptyTable(MAP_OUTPUT_KEY, calls2, 0, reducer2, tracker, convert, encode, decode, after1);
    }
  }

  /** The code as written: over a table with at least one row, the cast in
      reduce's bridge method fails the job before anything is stored, and
      reduce, on any view, throws "Failed processing " with that failure,
      where the corrected reduce answers the reducer applied to the rows
      (RunSingleJobWrites, SingleValueEndToEnd). */
  lemma RowsFailAsWritten<Row, V, R>(
    calls: seq<Call<V>>, i: nat, reducer: Reducer<V, R>, tracker: string,
    convert: Row -> V, encode: V -> seq<JByte>, decode: seq<JByte> -> Result<Option<V>>,
    rows: seq<Row>, store: Store<R>)
    requires CallsFit(1, calls)
    requires !HasPartition(CallStages(calls))
    requires i <= |calls|
    requires rows != []
    ensures
      var q := Chain(Start<V, R>(), calls);
      var job := JobFor(SetReducer(q.builder, reducer), tracker);
      var run := RunSingleJobWith(DECLARED_REDUCE_KEY, job, convert, encode, decode, rows, store);
      i < |q.views| && run == Run(Failed(CLASS_CAST), store) &&
      ReducePipeline(q, i, reducer, tracker, run.completion, run.store) == Err(FailureMessage(CLASS_CAST))
  {
    ChainKeeps(Start<V, R>(), calls);
    NoPartitionMappedView<V, R>(calls, i);
  }

  /** A builder that never received a reducer ships null. Over a table with
      rows, even with the corrected key, the reduce task's call on it throws,
      the job fails with nothing stored, and the driver's reduce throws with
      that failure. */
  lemma NoReducerJobFails<Row, V, R>(b: JobBuilder<V, R>, tracker: string,
                                     convert: Row -> V, encode: V -> seq<JByte>,
                                     decode: seq<JByte> -> Result<Option<V>>,
                                     rows: seq<Row>, store: Store<R>)
    requires b.reducer.None? && b.job.None?
    requires rows != []
    ensures
      var run := RunSingleJobWith(MAP_OUTPUT_KEY, JobFor(b, tracker), convert, encode, decode, rows, store);
      run == Run(Failed(NULL_REDUCER), store) &&
      ReduceToSingleValue(b, tracker, run.completion, run.store).result == Err(FailureMessage(NULL_REDUCER))
  {
  }
}
