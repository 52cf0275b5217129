/** JobBuilder: the one object every view of a pipeline shares. It collects the
    stages in call order, chooses the job topology when the pipeline is reduced,
    and reads the result back from the temp table once the job has run.

    The execution engine is reduced to what the builder observes of it: the job
    tracker identifier of the cluster the job runs on (the same for every job
    that cluster runs), a completion status, and the temp table as it stands
    after the job. */
module Jobs {
  import opened Base
  import opened Stages
  import opened TempStorage
  import opened ReducerAdaptor

  /** The mapper class configured for the job. */
  datatype MapperClass = GrouperMapper | MapperAdaptorMapper

  /** The reducer class configured for the job. */
  datatype ReducerClass = SingleReducer | PartitionedReducer

  /** What createJob configures. `tracker` is getJtIdentifier of the job's id,
      the temp row its results go to; `stages` and `reducerFn` are what it
      ships to the workers through the temp table; `reduceTasks` is None when
      the engine's default number of reduce tasks is left in place. */
  datatype Job<!V, R> = Job(
    tracker: string,
    mapper: MapperClass,
    stages: Option<seq<Stage<V>>>,
    reducerFn: Option<Reducer<V, R>>,
    reducer: ReducerClass,
    reduceTasks: Option<nat>)

  /** The builder's fields: the stage list (null until the first stage is
      added), the reducer, and the job once created. */
  datatype JobBuilder<!V, R> = JobBuilder(
    mappers: Option<seq<Stage<V>>>,
    reducer: Option<Reducer<V, R>>,
    job: Option<Job<V, R>>)

  /** How waitForCompletion ended. */
  datatype Completion = Succeeded | Failed(failureInfo: string)

  /** A reduce call: the builder afterwards and what the call returned or threw. */
  datatype Reduced<!V, R, T> = Reduced(builder: JobBuilder<V, R>, result: Result<T>)

  function NewBuilder<V, R>(): JobBuilder<V, R> {
    JobBuilder(None, None, None)
  }

  /** The stages added so far; a list that was never created has none. */
  function StagesOf<V, R>(b: JobBuilder<V, R>): seq<Stage<V>> {
    b.mappers.GetOr([])
  }

  /** The list is created by the first add, so it is never present and empty. */
  predicate Valid<V, R>(b: JobBuilder<V, R>) {
    b.mappers.Some? ==> b.mappers.value != []
  }

  /** addMapper and addPartitioner: append to the one list, creating it on first use. */
  function AddStage<V, R>(b: JobBuilder<V, R>, s: Stage<V>): (r: JobBuilder<V, R>)
    ensures Valid(r)
    ensures StagesOf(r) == StagesOf(b) + [s]
    ensures r.reducer == b.reducer && r.job == b.job
    ensures HasPartition(StagesOf(r)) <==> HasPartition(StagesOf(b)) || s.PartitionStage?
  {
    var list := if b.mappers.None? then [] else b.mappers.value;
    HasPartitionSnoc(list, s);
    b.(mappers := Some(list + [s]))
  }

  /** addMapper stores the function object it is handed as it is: its
      parameter type admits a PartitionFunction, which then counts as a
      partition stage like one added by addPartitioner. */
  function AddMapper<V, R>(b: JobBuilder<V, R>, f: Stage<V>): (r: JobBuilder<V, R>)
    ensures Valid(r)
    ensures StagesOf(r) == StagesOf(b) + [f]
    ensures r.reducer == b.reducer && r.job == b.job
    ensures HasPartition(StagesOf(r)) <==> HasPartition(StagesOf(b)) || f.PartitionStage?
  {
    AddStage(b, f)
  }

  /** addPartitioner: its parameter is declared a PartitionFunction, so the
      stage is always a partition stage. */
  function AddPartitioner<V, R>(b: JobBuilder<V, R>, p: V -> V): (r: JobBuilder<V, R>)
    ensures Valid(r)
    ensures StagesOf(r) == StagesOf(b) + [PartitionStage(p)]
    ensures r.reducer == b.reducer && r.job == b.job
    ensures HasPartition(StagesOf(r))
  {
    AddStage(b, PartitionStage(p))
  }

  function SetReducer<V, R>(b: JobBuilder<V, R>, reducer: Reducer<V, R>): (r: JobBuilder<V, R>)
    ensures r.reducer == Some(reducer)
    ensures r.mappers == b.mappers && r.job == b.job
  {
    b.(reducer := Some(reducer))
  }

  /** hasPartitioners: scan the list for a partition stage. */
  method HasPartitioners<V, R>(b: JobBuilder<V, R>) returns (found: bool)
    ensures found <==> HasPartition(StagesOf(b))
    ensures b.mappers.None? ==> !found
  {
    if b.mappers.None? {
      return false;
    }
    var mappers := b.mappers.value;
    var i := 0;
    while i < |mappers|
      invariant 0 <= i <= |mappers|
      invariant forall k :: 0 <= k < i ==> mappers[k].MapStage?
    {
      if mappers[i].PartitionStage? {
        return true;
      }
      i := i + 1;
    }
    return false;
  }

  /** createJob: Grouper when no stage was added, MapperAdaptor (with the stage
      list shipped) otherwise; the plain reducer pinned to one reduce task when
      there is no partition stage, the partitioned reducer otherwise. */
  function CreateJob<V, R>(b: JobBuilder<V, R>, tracker: string): (job: Job<V, R>)
    ensures job.tracker == tracker
    ensures job.mapper == GrouperMapper <==> b.mappers.None?
    ensures job.stages == b.mappers
    ensures job.reducerFn == b.reducer
    ensures job.reducer == SingleReducer <==> !HasPartition(StagesOf(b))
    ensures job.reducer == SingleReducer ==> job.reduceTasks == Some(1)
    ensures job.reducer == PartitionedReducer ==> job.reduceTasks.None?
  {
    var mapper := if b.mappers.None? then GrouperMapper else MapperAdaptorMapper;
    if !HasPartition(StagesOf(b)) then Job(tracker, mapper, b.mappers, b.reducer, SingleReducer, Some(1))
    else Job(tracker, mapper, b.mappers, b.reducer, PartitionedReducer, None)
  }

  /** The job a reduce call runs: the builder's job if one exists, a new one otherwise. */
  function JobFor<V, R>(b: JobBuilder<V, R>, tracker: string): Job<V, R>
  {
    if b.job.Some? then b.job.value else CreateJob(b, tracker)
  }

  function FailureMessage(failureInfo: string): string {
    "Failed processing " + failureInfo
  }

  /** The exception a call on the unset (null) reducer throws. */
  const NULL_REDUCER: string := "NullPointerException"

  /** reduceToSingleValue. A failed job throws with the failure info; otherwise
      the stored result is returned, and a missing (or null) result is replaced
      by the reducer applied to the empty list, which throws when no reducer
      was ever set. */
  function ReduceToSingleValue<V, R>(b: JobBuilder<V, R>, tracker: string,
                                     completion: Completion, store: Store<R>)
    : (r: Reduced<V, R, Option<R>>)
    ensures r.builder == b.(job := Some(JobFor(b, tracker)))
    ensures completion.Failed? ==> r.result == Err(FailureMessage(completion.failureInfo))
    ensures completion.Succeeded? && RetrieveResult(store, JobFor(b, tracker).tracker).Some? ==>
              r.result == Ok(RetrieveResult(store, JobFor(b, tracker).tracker))
    ensures completion.Succeeded? && RetrieveResult(store, JobFor(b, tracker).tracker).None? ==>
              r.result == (if b.reducer.Some? then Ok(b.reducer.value([])) else Err(NULL_REDUCER))
  {
    var job := JobFor(b, tracker);
    var b' := b.(job := Some(job));
    if completion.Failed? then Reduced(b', Err(FailureMessage(completion.failureInfo)))
    else
      var stored := RetrieveResult(store, job.tracker);
      if stored.Some? then Reduced(b', Ok(stored))
      else if b.reducer.Some? then Reduced(b', Ok(b.reducer.value([])))
      else Reduced(b', Err(NULL_REDUCER))
  }

  /** reduceToMultipleValues: as above, but a missing result row is the empty collection. */
  function ReduceToMultipleValues<V, R>(b: JobBuilder<V, R>, tracker: string,
                                        completion: Completion, store: Store<R>)
    : (r: Reduced<V, R, seq<Option<R>>>)
    ensures r.builder == b.(job := Some(JobFor(b, tracker)))
    ensures completion.Failed? ==> r.result == Err(FailureMessage(completion.failureInfo))
    ensures completion.Succeeded? ==> r.result.Ok?
    ensures completion.Succeeded? && RetrieveResults(store, JobFor(b, tracker).tracker).Some? ==>
              r.result == Ok(RetrieveResults(store, JobFor(b, tracker).tracker).value)
    ensures completion.Succeeded? && RetrieveResults(store, JobFor(b, tracker).tracker).None? ==>
              r.result == Ok([])
  {
    var job := JobFor(b, tracker);
    var b' := b.(job := Some(job));
    if completion.Failed? then Reduced(b', Err(FailureMessage(completion.failureInfo)))
    else
      var stored := RetrieveResults(store, job.tracker);
      Reduced(b', Ok(if stored.Some? then stored.value else []))
  }

  /** On a valid builder the Grouper is chosen exactly when no stage was added. */
  lemma GrouperIffNoStages<V, R>(b: JobBuilder<V, R>, tracker: string)
    requires Valid(b)
    ensures CreateJob(b, tracker).mapper == GrouperMapper <==> StagesOf(b) == []
  {
  }

  /** Once created, the job is kept: a second reduce call runs the same job,
      whatever stages were added in between. */
  lemma JobCreatedOnce<V, R>(b: JobBuilder<V, R>, t1: string, t2: string, c1: Completion,
                             c2: Completion, s1: Store<R>, s2: Store<R>, more: seq<Stage<V>>)
    ensures var b1 := ReduceToSingleValue(b, t1, c1, s1).builder;
            var b2 := b1.(mappers := Some(StagesOf(b1) + more));
            ReduceToSingleValue(b2, t2, c2, s2).builder.job == b1.job
  {
  }
}
