/** The stage chain the fluent API accumulates, and the two mappers that run it
    on the workers: MapperAdaptor replays the chain on each converted row, Grouper
    (used when no stage was added) sends every row to one fixed key. */
module Stages {
  import opened Base

  /** One step of a pipeline: a function object as the builder stores it. Both
      kinds carry a unary function over the same (untyped) value space; the
      Java code tells them apart by whether the object's class implements the
      PartitionFunction marker interface, the model by the constructor. */
  datatype Stage<!V> = MapStage(f: V -> V) | PartitionStage(p: V -> V)

  /** What a mapper writes to the shuffle for one row. */
  datatype Emission<K, V> = Emission(key: K, value: V)

  predicate HasPartition<V>(stages: seq<Stage<V>>) {
    exists i :: 0 <= i < |stages| && stages[i].PartitionStage?
  }

  /** Appending a stage adds a partition stage exactly when the new one is one. */
  lemma HasPartitionSnoc<V>(stages: seq<Stage<V>>, s: Stage<V>)
    ensures HasPartition(stages + [s]) <==> HasPartition(stages) || s.PartitionStage?
  {
    var r := stages + [s];
    if HasPartition(stages) {
      var i :| 0 <= i < |stages| && stages[i].PartitionStage?;
      assert r[i].PartitionStage?;
    }
    if s.PartitionStage? {
      assert r[|stages|].PartitionStage?;
    }
    if HasPartition(r) {
      var i :| 0 <= i < |r| && r[i].PartitionStage?;
      if i < |stages| {
        assert stages[i].PartitionStage?;
      }
    }
  }

  predicate AllMaps<V>(stages: seq<Stage<V>>) {
    forall i :: 0 <= i < |stages| ==> stages[i].MapStage?
  }

  function PartitionCount<V>(stages: seq<Stage<V>>): nat
    decreases |stages|
  {
    if stages == [] then 0
    else (if stages[0].PartitionStage? then 1 else 0) + PartitionCount(stages[1..])
  }

  /** The current value after the map stages of `stages`; partition stages do not touch it. */
  function ApplyMaps<V>(stages: seq<Stage<V>>, t: V): V
    decreases |stages|
  {
    if stages == [] then t
    else match stages[0]
      case MapStage(f) => ApplyMaps(stages[1..], f(t))
      case PartitionStage(_) => ApplyMaps(stages[1..], t)
  }

  /** Reference semantics of one replay: the key is the list of partition
      outputs, the value is what the map stages leave behind. */
  function Replay<V>(stages: seq<Stage<V>>, t: V): (e: Emission<seq<V>, V>)
    ensures |e.key| == PartitionCount(stages)
    ensures e.value == ApplyMaps(stages, t)
    decreases |stages|
  {
    if stages == [] then Emission([], t)
    else match stages[0]
      case MapStage(f) => Replay(stages[1..], f(t))
      case PartitionStage(p) =>
        var rest := Replay(stages[1..], t);
        Emission([p(t)] + rest.key, rest.value)
  }

  function Prefixed<V>(key: seq<V>, e: Emission<seq<V>, V>): Emission<seq<V>, V> {
    Emission(key + e.key, e.value)
  }

  /** MapperAdaptor.map: convert the row, walk the stages in order keeping a key
      list and a current value, and emit once. */
  method MapRow<Row, V>(stages: seq<Stage<V>>, convert: Row -> V, row: Row)
    returns (e: Emission<seq<V>, V>)
    ensures e == Replay(stages, convert(row))
    ensures |e.key| == PartitionCount(stages)
  {
    var t := convert(row);
    var outKey: seq<V> := [];
    var i := 0;
    assert stages[i..] == stages;
    assert [] + Replay(stages, t).key == Replay(stages, t).key;
    while i < |stages|
      invariant 0 <= i <= |stages|
      invariant Replay(stages, convert(row)) == Prefixed(outKey, Replay(stages[i..], t))
    {
      assert stages[i..][1..] == stages[i + 1..];
      if stages[i].PartitionStage? {
        var rest := Replay(stages[i + 1..], t);
        assert outKey + ([stages[i].p(t)] + rest.key) == (outKey + [stages[i].p(t)]) + rest.key;
        outKey := outKey + [stages[i].p(t)];
      } else {
        t := stages[i].f(t);
      }
      i := i + 1;
    }
    assert stages[i..] == [];
    assert outKey + [] == outKey;
    e := Emission(outKey, t);
  }

  /** The key components are exactly the partition outputs, in declaration order:
      the component a partition stage contributes sits after the components of the
      partition stages before it, and is computed on the value the map stages
      before it produced. */
  lemma {:induction false} ReplayAppend<V>(a: seq<Stage<V>>, b: seq<Stage<V>>, t: V)
    ensures Replay(a + b, t) == Prefixed(Replay(a, t).key, Replay(b, Replay(a, t).value))
    decreases |a|
  {
    if a == [] {
      assert a + b == b;
      assert [] + Replay(b, t).key == Replay(b, t).key;
    } else {
      assert (a + b)[1..] == a[1..] + b;
      match a[0]
      case MapStage(f) =>
        ReplayAppend(a[1..], b, f(t));
      case PartitionStage(p) =>
        ReplayAppend(a[1..], b, t);
        var ra := Replay(a[1..], t);
        assert [p(t)] + (ra.key + Replay(b, ra.value).key)
            == ([p(t)] + ra.key) + Replay(b, ra.value).key;
    }
  }

  lemma {:induction false} PartitionCountAppend<V>(a: seq<Stage<V>>, b: seq<Stage<V>>)
    ensures PartitionCount(a + b) == PartitionCount(a) + PartitionCount(b)
    decreases |a|
  {
    if a == [] {
      assert a + b == b;
    } else {
      assert (a + b)[1..] == a[1..] + b;
      PartitionCountAppend(a[1..], b);
    }
  }

  /** Key order follows declaration order, whatever map stages are interleaved. */
  lemma KeyComponentOfPartition<V>(stages: seq<Stage<V>>, i: nat, t: V)
    requires i < |stages| && stages[i].PartitionStage?
    ensures PartitionCount(stages[..i]) < |Replay(stages, t).key|
    ensures Replay(stages, t).key[PartitionCount(stages[..i])]
            == stages[i].p(ApplyMaps(stages[..i], t))
  {
    assert stages == stages[..i] + stages[i..];
    ReplayAppend(stages[..i], stages[i..], t);
    PartitionCountAppend(stages[..i], stages[i..]);
    assert stages[i..][1..] == stages[i + 1..];
  }

  lemma {:induction false} NoPartitionCountZero<V>(stages: seq<Stage<V>>)
    ensures PartitionCount(stages) == 0 <==> !HasPartition(stages)
    decreases |stages|
  {
    if stages != [] {
      NoPartitionCountZero(stages[1..]);
      if stages[0].MapStage? && HasPartition(stages) {
        var i :| 0 <= i < |stages| && stages[i].PartitionStage?;
        assert stages[1..][i - 1].PartitionStage?;
      }
      if HasPartition(stages[1..]) {
        var j :| 0 <= j < |stages[1..]| && stages[1..][j].PartitionStage?;
        assert stages[j + 1].PartitionStage?;
      }
      if stages[0].PartitionStage? {
        assert HasPartition(stages);
      }
    }
  }

  /** Without a partition stage every row gets the empty key: one group. */
  lemma NoPartitionEmptyKey<V>(stages: seq<Stage<V>>, t1: V, t2: V)
    requires !HasPartition(stages)
    ensures Replay(stages, t1).key == []
    ensures Replay(stages, t1).key == Replay(stages, t2).key
  {
    NoPartitionCountZero(stages);
  }

  /** The function a run of map stages computes. */
  function Compose<V>(maps: seq<Stage<V>>): V -> V {
    x => ApplyMaps(maps, x)
  }

  lemma {:induction false} AllMapsReplay<V>(maps: seq<Stage<V>>, t: V)
    requires AllMaps(maps)
    ensures Replay(maps, t) == Emission([], ApplyMaps(maps, t))
    decreases |maps|
  {
    if maps != [] {
      assert maps[0].MapStage?;
      assert AllMaps(maps[1..]) by {
        forall i | 0 <= i < |maps[1..]| ensures maps[1..][i].MapStage? {
          assert maps[1..][i] == maps[i + 1];
        }
      }
      AllMapsReplay(maps[1..], maps[0].f(t));
    }
  }

  /** A run of consecutive map stages behaves as one map stage applying their composition. */
  lemma MapRunFusion<V>(pre: seq<Stage<V>>, maps: seq<Stage<V>>, post: seq<Stage<V>>, t: V)
    requires AllMaps(maps)
    ensures Replay(pre + maps + post, t) == Replay(pre + [MapStage(Compose(maps))] + post, t)
  {
    var mid := Replay(pre, t);
    ReplayAppend(pre + maps, post, t);
    ReplayAppend(pre, maps, t);
    AllMapsReplay(maps, mid.value);
    var one: seq<Stage<V>> := [MapStage(Compose(maps))];
    ReplayAppend(pre + one, post, t);
    ReplayAppend(pre, one, t);
    assert one[1..] == [];
    assert Replay(one, mid.value) == Emission([], ApplyMaps(maps, mid.value));
  }

  /** The key Grouper writes for every row: the one-byte array {42}. */
  const ONE_KEY: seq<JByte> := [42]

  /** Grouper.map: the converted row, untransformed, under the fixed key. */
  function GrouperMap<Row, V>(convert: Row -> V, row: Row): (e: Emission<seq<JByte>, V>)
    ensures e.key == [42 as JByte]
    ensures e.value == convert(row)
  {
    Emission(ONE_KEY, convert(row))
  }

  /** Every row a Grouper sees lands in the same group. */
  lemma GrouperOneGroup<Row, V>(convert: Row -> V, r1: Row, r2: Row)
    ensures GrouperMap(convert, r1).key == GrouperMap(convert, r2).key
  {
  }
}
