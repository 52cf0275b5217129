/** MappedImpl and PartitionedImpl: the two kinds of view the fluent API hands
    out. Every view of one pipeline wraps the same JobBuilder, and any view
    handed out so far may receive the next call, not only the last one. A call
    on a Mapped view's partitionBy returns a Partitioned view; every call on a
    Partitioned view returns a Partitioned view; map on a Mapped view returns a
    Mapped view, whatever function object it was given. */
module Fluent {
  import opened Base
  import opened Stages
  import opened TempStorage
  import opened ReducerAdaptor
  import opened Jobs

  datatype View = MappedView | PartitionedView

  /** What one call on a view gives back: the shared builder after the call
      and the kind of view returned. */
  datatype Pipeline<!V, R> = Pipeline(builder: JobBuilder<V, R>, view: View)

  /** What reduce hands back: one value from a Mapped view, a collection from a Partitioned one. */
  datatype Answer<R> = Single(value: Option<R>) | Multiple(values: seq<Option<R>>)

  /** MappedImpl.partitionBy: one partition stage, and a Partitioned view. */
  function MappedPartitionBy<V, R>(b: JobBuilder<V, R>, p: V -> V): (r: Pipeline<V, R>)
    ensures r.view == PartitionedView
    ensures StagesOf(r.builder) == StagesOf(b) + [PartitionStage(p)]
    ensures r.builder.reducer == b.reducer && r.builder.job == b.job
  {
    Pipeline(AddPartitioner(b, p), PartitionedView)
  }

  /** MappedImpl.map: the function object becomes one stage (a partition stage
      if it is a PartitionFunction), and the view stays Mapped. */
  function MappedMap<V, R>(b: JobBuilder<V, R>, f: Stage<V>): (r: Pipeline<V, R>)
    ensures r.view == MappedView
    ensures StagesOf(r.builder) == StagesOf(b) + [f]
    ensures r.builder.reducer == b.reducer && r.builder.job == b.job
  {
    Pipeline(AddMapper(b, f), MappedView)
  }

  /** PartitionedImpl.partitionBy: one partition stage, still Partitioned. */
  function PartitionedPartitionBy<V, R>(b: JobBuilder<V, R>, p: V -> V): (r: Pipeline<V, R>)
    ensures r.view == PartitionedView
    ensures StagesOf(r.builder) == StagesOf(b) + [PartitionStage(p)]
    ensures r.builder.reducer == b.reducer && r.builder.job == b.job
  {
    Pipeline(AddPartitioner(b, p), PartitionedView)
  }

  /** PartitionedImpl.map: the function object becomes one stage, and the view stays Partitioned. */
  function PartitionedMap<V, R>(b: JobBuilder<V, R>, f: Stage<V>): (r: Pipeline<V, R>)
    ensures r.view == PartitionedView
    ensures StagesOf(r.builder) == StagesOf(b) + [f]
    ensures r.builder.reducer == b.reducer && r.builder.job == b.job
  {
    Pipeline(AddMapper(b, f), PartitionedView)
  }

  /** MappedImpl.reduce: record the reducer, then take the single-value path. */
  function MappedReduce<V, R>(b: JobBuilder<V, R>, reducer: Reducer<V, R>, tracker: string,
                              completion: Completion, store: Store<R>)
    : (r: Reduced<V, R, Option<R>>)
    ensures r.builder.reducer == Some(reducer)
    ensures r.builder.job == Some(JobFor(SetReducer(b, reducer), tracker))
    ensures completion.Failed? <==> r.result.Err?
    ensures completion.Succeeded? && RetrieveResult(store, JobFor(b, tracker).tracker).Some? ==>
              r.result == Ok(RetrieveResult(store, JobFor(b, tracker).tracker))
    ensures completion.Succeeded? && RetrieveResult(store, JobFor(b, tracker).tracker).None? ==>
              r.result == Ok(reducer([]))
  {
    ReduceToSingleValue(SetReducer(b, reducer), tracker, completion, store)
  }

  /** PartitionedImpl.reduce: record the reducer, then take the multi-value path. */
  function PartitionedReduce<V, R>(b: JobBuilder<V, R>, reducer: Reducer<V, R>, tracker: string,
                                   completion: Completion, store: Store<R>)
    : (r: Reduced<V, R, seq<Option<R>>>)
    ensures r.builder.reducer == Some(reducer)
    ensures r.builder.job == Some(JobFor(SetReducer(b, reducer), tracker))
    ensures completion.Failed? <==> r.result.Err?
    ensures completion.Succeeded? && RetrieveResults(store, JobFor(b, tracker).tracker).Some? ==>
              r.result == Ok(RetrieveResults(store, JobFor(b, tracker).tracker).value)
    ensures completion.Succeeded? && RetrieveResults(store, JobFor(b, tracker).tracker).None? ==>
              r.result == Ok([])
  {
    ReduceToMultipleValues(SetReducer(b, reducer), tracker, completion, store)
  }

  // ---------------------------------------------------------------------------
  // Sessions: one builder, many views.

  /** One pipeline so far: the builder all its views share and every view
      handed out, in the order they were returned. View 0 is the Mapped view a
      table hands out over a new builder. */
  datatype Session<!V, R> = Session(builder: JobBuilder<V, R>, views: seq<View>)

  function Start<V, R>(): Session<V, R> {
    Session(NewBuilder(), [MappedView])
  }

  /** The argument of one fluent call: map's function object (a
      PartitionFunction is possible, and tagged as such) or partitionBy's
      partition function. */
  datatype Op<!V> = OpMap(f: Stage<V>) | OpPartitionBy(p: V -> V)

  /** One fluent call: the index of the view it is made on, and the operation. */
  datatype Call<!V> = Call(on: nat, op: Op<V>)

  function StageOf<V>(op: Op<V>): Stage<V> {
    match op
    case OpMap(f) => f
    case OpPartitionBy(p) => PartitionStage(p)
  }

  /** The Impl method a call reaches on a view of the given kind. */
  function Invoke<V, R>(b: JobBuilder<V, R>, v: View, op: Op<V>): (r: Pipeline<V, R>)
    ensures StagesOf(r.builder) == StagesOf(b) + [StageOf(op)]
    ensures r.builder.reducer == b.reducer && r.builder.job == b.job
    ensures Valid(r.builder)
    ensures r.view == PartitionedView <==> v == PartitionedView || op.OpPartitionBy?
  {
    match (v, op)
    case (MappedView, OpMap(f)) => MappedMap(b, f)
    case (MappedView, OpPartitionBy(p)) => MappedPartitionBy(b, p)
    case (PartitionedView, OpMap(f)) => PartitionedMap(b, f)
    case (PartitionedView, OpPartitionBy(p)) => PartitionedPartitionBy(b, p)
  }

  /** A call on view `c.on`: the shared builder changes, and the returned view
      joins the ones handed out. */
  function Step<V, R>(s: Session<V, R>, c: Call<V>): (r: Session<V, R>)
    requires c.on < |s.views|
    ensures StagesOf(r.builder) == StagesOf(s.builder) + [StageOf(c.op)]
    ensures r.builder.reducer == s.builder.reducer && r.builder.job == s.builder.job
    ensures Valid(r.builder)
    ensures |r.views| == |s.views| + 1 && r.views[..|s.views|] == s.views
    ensures r.views[|s.views|] == PartitionedView <==> s.views[c.on] == PartitionedView || c.op.OpPartitionBy?
  {
    var q := Invoke(s.builder, s.views[c.on], c.op);
    Session(q.builder, s.views + [q.view])
  }

  /** Every call names a view that exists when it is made: call k may use the
      `n` views there were at the start or the k views returned before it. */
  predicate CallsFit<V>(n: nat, calls: seq<Call<V>>) {
    forall k :: 0 <= k < |calls| ==> calls[k].on < n + k
  }

  /** Make the calls in order. */
  function Chain<V, R>(s: Session<V, R>, calls: seq<Call<V>>): Session<V, R>
    requires CallsFit(|s.views|, calls)
    decreases |calls|
  {
    if calls == [] then s
    else
      assert forall k :: 0 <= k < |calls| - 1 ==> calls[1..][k] == calls[k + 1];
      Chain(Step(s, calls[0]), calls[1..])
  }

  /** The stages a sequence of calls asks for, one per call, in call order. */
  function CallStages<V>(calls: seq<Call<V>>): (s: seq<Stage<V>>)
    ensures |s| == |calls|
    ensures forall i :: 0 <= i < |calls| ==> s[i] == StageOf(calls[i].op)
  {
    seq(|calls|, i requires 0 <= i < |calls| => StageOf(calls[i].op))
  }

  lemma CallStagesCons<V>(calls: seq<Call<V>>)
    requires calls != []
    ensures CallStages(calls) == [StageOf(calls[0].op)] + CallStages(calls[1..])
  {
  }

  lemma AppendAssoc<T>(a: seq<T>, b: seq<T>, c: seq<T>)
    ensures (a + b) + c == a + (b + c)
  {
  }

  /** All views share the builder: whichever views the calls are made on, its
      list ends up as the old list followed by one stage per call, in call order. */
  lemma {:induction false} ChainStages<V, R>(s: Session<V, R>, calls: seq<Call<V>>)
    requires CallsFit(|s.views|, calls)
    ensures StagesOf(Chain(s, calls).builder) == StagesOf(s.builder) + CallStages(calls)
    decreases |calls|
  {
    if calls == [] {
      assert CallStages(calls) == [];
    } else {
      var s', rest := Step(s, calls[0]), calls[1..];
      var before, st, after := StagesOf(s.builder), StageOf(calls[0].op), CallStages(rest);
      assert Chain(s, calls) == Chain(s', rest);
      ChainStages(s', rest);
      assert StagesOf(Chain(s', rest).builder) == (before + [st]) + after;
      CallStagesCons(calls);
      AppendAssoc(before, [st], after);
    }
  }

  /** Nothing else of the builder changes along the calls, a builder that
      received a call holds a non-empty list, and the views already handed out
      stay as they were, with one new view per call. */
  lemma {:induction false} ChainKeeps<V, R>(s: Session<V, R>, calls: seq<Call<V>>)
    requires CallsFit(|s.views|, calls)
    ensures Chain(s, calls).builder.reducer == s.builder.reducer
    ensures Chain(s, calls).builder.job == s.builder.job
    ensures calls != [] ==> Valid(Chain(s, calls).builder)
    ensures |Chain(s, calls).views| == |s.views| + |calls|
    ensures Chain(s, calls).views[..|s.views|] == s.views
    decreases |calls|
  {
    if calls != [] {
      var s', rest := Step(s, calls[0]), calls[1..];
      assert Chain(s, calls) == Chain(s', rest);
      ChainKeeps(s', rest);
      var v := Chain(s', rest).views;
      assert v[..|s.views|] == v[..|s'.views|][..|s.views|];
    }
  }

  /** The view call k returns is Partitioned exactly when the view it was made
      on is Partitioned or the call is a partitionBy. */
  lemma {:induction false} ChainViews<V, R>(s: Session<V, R>, calls: seq<Call<V>>)
    requires CallsFit(|s.views|, calls)
    ensures var v := Chain(s, calls).views;
            |v| == |s.views| + |calls| &&
            forall k :: 0 <= k < |calls| ==>
              (v[|s.views| + k] == PartitionedView
               <==> v[calls[k].on] == PartitionedView || calls[k].op.OpPartitionBy?)
    decreases |calls|
  {
    ChainKeeps(s, calls);
    if calls != [] {
      var s', rest := Step(s, calls[0]), calls[1..];
      var n := |s.views|;
      assert Chain(s, calls) == Chain(s', rest);
      ChainViews(s', rest);
      ChainKeeps(s', rest);
      var v := Chain(s, calls).views;
      assert v[n] == v[..n + 1][n] == s'.views[n];
      assert v[calls[0].on] == v[..n + 1][calls[0].on] == s.views[calls[0].on];
      forall k | 1 <= k < |calls|
        ensures v[n + k] == PartitionedView <==> v[calls[k].on] == PartitionedView || calls[k].op.OpPartitionBy?
      {
        assert calls[k] == rest[k - 1];
        assert n + k == |s'.views| + (k - 1);
      }
    }
  }

  /** Every Partitioned view handed out implies a partition stage in the builder. */
  predicate PartitionedHasStage<V, R>(s: Session<V, R>) {
    forall i :: 0 <= i < |s.views| && s.views[i] == PartitionedView ==> HasPartition(StagesOf(s.builder))
  }

  lemma {:induction false} ChainKeepsPartitionedHasStage<V, R>(s: Session<V, R>, calls: seq<Call<V>>)
    requires CallsFit(|s.views|, calls)
    requires PartitionedHasStage(s)
    ensures PartitionedHasStage(Chain(s, calls))
    decreases |calls|
  {
    if calls != [] {
      var s' := Step(s, calls[0]);
      var n := |s.views|;
      HasPartitionSnoc(StagesOf(s.builder), StageOf(calls[0].op));
      forall i | 0 <= i < |s'.views| && s'.views[i] == PartitionedView
        ensures HasPartition(StagesOf(s'.builder))
      {
        if i < n {
          assert s'.views[..n][i] == s.views[i];
        }
      }
      assert Chain(s, calls) == Chain(s', calls[1..]);
      ChainKeepsPartitionedHasStage(s', calls[1..]);
    }
  }

  /** From a table's entry point, a Partitioned view always stands on a
      builder that holds a partition stage. The converse fails: see
      MappedViewOverPartitionStage. */
  lemma PartitionedViewHasPartition<V, R>(calls: seq<Call<V>>, i: nat)
    requires CallsFit(1, calls)
    requires i < |Chain(Start<V, R>(), calls).views|
    requires Chain(Start<V, R>(), calls).views[i] == PartitionedView
    ensures HasPartition(CallStages(calls))
  {
    ChainKeepsPartitionedHasStage(Start<V, R>(), calls);
    ChainStages(Start<V, R>(), calls);
    assert StagesOf(Start<V, R>().builder) + CallStages(calls) == CallStages(calls);
  }

  /** reduce on view `i` of a session. */
  function ReducePipeline<V, R>(s: Session<V, R>, i: nat, reducer: Reducer<V, R>, tracker: string,
                                completion: Completion, store: Store<R>): (r: Result<Answer<R>>)
    requires i < |s.views|
    ensures r.Ok? ==> (r.value.Single? <==> s.views[i] == MappedView)
    ensures completion.Failed? <==> r.Err?
  {
    match s.views[i]
    case MappedView =>
      (match MappedReduce(s.builder, reducer, tracker, completion, store).result
       case Ok(v) => Ok(Single(v))
       case Err(m) => Err(m))
    case PartitionedView =>
      (match PartitionedReduce(s.builder, reducer, tracker, completion, store).result
       case Ok(vs) => Ok(Multiple(vs))
       case Err(m) => Err(m))
  }

  /** The job the first reduce of a pipeline plans depends on the calls made,
      not on the view reduce is called on: the single reducer on one reduce
      task exactly when no call added a partition stage, the Grouper exactly
      when no call was made. */
  lemma ReduceTopology<V, R>(calls: seq<Call<V>>, reducer: Reducer<V, R>, tracker: string,
                             completion: Completion, store: Store<R>)
    requires CallsFit(1, calls)
    ensures var b := Chain(Start<V, R>(), calls).builder;
            var job := MappedReduce(b, reducer, tracker, completion, store).builder.job.value;
            var job' := PartitionedReduce(b, reducer, tracker, completion, store).builder.job.value;
            job == job'
            && (job.reducer == SingleReducer <==> !HasPartition(CallStages(calls)))
            && (job.reducer == SingleReducer ==> job.reduceTasks == Some(1))
            && (job.reducer == PartitionedReducer ==> job.reduceTasks.None?)
            && (job.mapper == GrouperMapper <==> calls == [])
  {
    ChainStages(Start<V, R>(), calls);
    ChainKeeps(Start<V, R>(), calls);
    assert StagesOf(Start<V, R>().builder) + CallStages(calls) == CallStages(calls);
  }

  /** Reducing a Partitioned view always runs the partitioned reducer through
      MapperAdaptor, with the engine's default task count. */
  lemma PartitionedReduceTopology<V, R>(calls: seq<Call<V>>, i: nat, reducer: Reducer<V, R>, tracker: string,
                                        completion: Completion, store: Store<R>)
    requires CallsFit(1, calls)
    requires i < |Chain(Start<V, R>(), calls).views|
    requires Chain(Start<V, R>(), calls).views[i] == PartitionedView
    ensures var job := PartitionedReduce(Chain(Start<V, R>(), calls).builder, reducer, tracker, completion, store).builder.job.value;
            job.reducer == PartitionedReducer && job.reduceTasks.None? && job.mapper == MapperAdaptorMapper
  {
    PartitionedViewHasPartition<V, R>(calls, i);
    ReduceTopology<V, R>(calls, reducer, tracker, completion, store);
  }

  /** `t.partitionBy(p)` on a table's entry point `t`, keeping `t` (view 0). */
  function KeptEntryPoint<V, R>(p: V -> V): Session<V, R> {
    Chain(Start<V, R>(), [Call(0, OpPartitionBy(p))])
  }

  /** `t.map(pf)` with a PartitionFunction `pf`, returning view 1. */
  function TaggedMap<V, R>(p: V -> V): Session<V, R> {
    Chain(Start<V, R>(), [Call(0, OpMap(PartitionStage(p)))])
  }

  lemma ChainOne<V, R>(s: Session<V, R>, c: Call<V>)
    requires c.on < |s.views|
    ensures Chain(s, [c]) == Step(s, c)
  {
    assert [c][1..] == [];
  }

  /** A Mapped view can stand on a builder with a partition stage, in two ways:
      partitionBy called on the entry point while the entry point is kept, or
      map on the entry point handed a PartitionFunction. Reducing that Mapped
      view plans the partitioned topology, yet takes the single-value path: it
      reads only the "val" cell of the tracker's row, and otherwise answers the
      reducer applied to the empty list. */
  lemma MappedViewOverPartitionStage<V, R>(p: V -> V, reducer: Reducer<V, R>, tracker: string, store: Store<R>)
    ensures |KeptEntryPoint<V, R>(p).views| == 2 && |TaggedMap<V, R>(p).views| == 2
    ensures KeptEntryPoint<V, R>(p).views[0] == MappedView && TaggedMap<V, R>(p).views[1] == MappedView
    ensures HasPartition(StagesOf(KeptEntryPoint<V, R>(p).builder))
    ensures HasPartition(StagesOf(TaggedMap<V, R>(p).builder))
    ensures MappedReduce(KeptEntryPoint<V, R>(p).builder, reducer, tracker, Succeeded, store).builder.job.value.reducer
            == PartitionedReducer
    ensures MappedReduce(TaggedMap<V, R>(p).builder, reducer, tracker, Succeeded, store).builder.job.value.reducer
            == PartitionedReducer
    ensures var answer := Ok(Single(if RetrieveResult(store, tracker).Some? then RetrieveResult(store, tracker)
                                    else reducer([])));
            ReducePipeline(KeptEntryPoint<V, R>(p), 0, reducer, tracker, Succeeded, store) == answer
            && ReducePipeline(TaggedMap<V, R>(p), 1, reducer, tracker, Succeeded, store) == answer
  {
    ChainOne(Start<V, R>(), Call(0, OpPartitionBy(p)));
    ChainOne(Start<V, R>(), Call(0, OpMap(PartitionStage(p))));
    assert StagesOf(KeptEntryPoint<V, R>(p).builder)[0].PartitionStage?;
    assert StagesOf(TaggedMap<V, R>(p).builder)[0].PartitionStage?;
  }

  /** When the tracker's row is empty (no job on this cluster has stored a
      result yet), an empty source makes a Mapped view answer the reducer
      applied to the empty list and a Partitioned view the empty collection. */
  lemma EmptySourceResult<V, R>(calls: seq<Call<V>>, i: nat, reducer: Reducer<V, R>, tracker: string, store: Store<R>)
    requires CallsFit(1, calls)
    requires i < |Chain(Start<V, R>(), calls).views|
    requires tracker !in store
    ensures var s := Chain(Start<V, R>(), calls);
            var r := ReducePipeline(s, i, reducer, tracker, Succeeded, store);
            if s.views[i] == PartitionedView then r == Ok(Multiple([]))
            else r == Ok(Single(reducer([])))
  {
    var s := Chain(Start<V, R>(), calls);
    ChainKeeps(Start<V, R>(), calls);
    assert JobFor(s.builder, tracker).tracker == tracker;
    assert RetrieveResult(store, tracker).None? && RetrieveResults(store, tracker).None?;
  }
}
