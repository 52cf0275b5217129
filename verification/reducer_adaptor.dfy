/** ReducerAdaptor: the reduce side of the un-partitioned topology. Each value
    of the group is decoded (a value that cannot be decoded becomes null), the
    user's reducer runs once on the decoded list, and its result is written to
    the temp table under the job tracker identifier. */
module ReducerAdaptor {
  import opened Base
  import opened TempStorage

  /** A user reducer: from the group's (possibly null) objects to a (possibly null) result. */
  type Reducer<!V, R> = seq<Option<V>> -> Option<R>

  /** The object a serialized value stands for; a decoding exception yields null. */
  function DecodeOrNull<V>(decode: seq<JByte> -> Result<Option<V>>, bytes: seq<JByte>): (o: Option<V>)
    ensures decode(bytes).Err? ==> o.None?
    ensures decode(bytes).Ok? ==> o == decode(bytes).value
  {
    match decode(bytes)
    case Ok(obj) => obj
    case Err(_) => None
  }

  /** ReducerAdaptor.reduce for one group: returns the decoded objects the
      reducer saw and the single write it makes. */
  method ReduceGroup<V, R>(tracker: string, values: seq<seq<JByte>>,
                      decode: seq<JByte> -> Result<Option<V>>, reducer: Reducer<V, R>)
    returns (objects: seq<Option<V>>, put: Put<R>)
    ensures |objects| == |values|
    ensures forall i :: 0 <= i < |values| && decode(values[i]).Err? ==> objects[i].None?
    ensures forall i :: 0 <= i < |values| && decode(values[i]).Ok? ==> objects[i] == decode(values[i]).value
    ensures put == SingleResultPut(tracker, reducer(objects))
  {
    objects := [];
    var i := 0;
    while i < |values|
      invariant 0 <= i <= |values|
      invariant |objects| == i
      invariant forall k :: 0 <= k < i ==> objects[k] == DecodeOrNull(decode, values[k])
    {
      objects := objects + [DecodeOrNull(decode, values[i])];
      i := i + 1;
    }
    put := SingleResultPut(tracker, reducer(objects));
  }

  /** When every value was produced by an encoder the decoder inverts, the
      reducer sees exactly the emitted objects, in order. */
  lemma DecodeRoundTrip<V>(encode: V -> seq<JByte>, decode: seq<JByte> -> Result<Option<V>>,
                           emitted: seq<V>, objects: seq<Option<V>>)
    requires forall v :: decode(encode(v)) == Ok(Some(v))
    requires |objects| == |emitted|
    requires forall i :: 0 <= i < |emitted| ==> objects[i] == DecodeOrNull(decode, encode(emitted[i]))
    ensures objects == seq(|emitted|, i requires 0 <= i < |emitted| => Some(emitted[i]))
  {
  }
}
