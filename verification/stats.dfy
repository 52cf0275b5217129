/** Stats: counting and summing the items of a collection into a Java `long`.
    The elements are boxed, so a null element throws when it is unboxed; the
    running total is a `long` and wraps around on overflow. */
module Stats {
  import opened Base

  /** The exact sum, with no overflow. */
  function Sum(xs: seq<int>): int
    decreases |xs|
  {
    if xs == [] then 0 else xs[0] + Sum(xs[1..])
  }

  lemma {:induction false} SumAppend(a: seq<int>, b: seq<int>)
    ensures Sum(a + b) == Sum(a) + Sum(b)
    decreases |a|
  {
    if a == [] {
      assert a + b == b;
    } else {
      assert (a + b)[1..] == a[1..] + b;
      SumAppend(a[1..], b);
    }
  }

  /** The unboxed elements, when none is null. */
  predicate NoNull(xs: seq<Option<int>>) {
    forall i :: 0 <= i < |xs| ==> xs[i].Some?
  }

  function Unboxed(xs: seq<Option<int>>): (vs: seq<int>)
    requires NoNull(xs)
    ensures |vs| == |xs| && forall i :: 0 <= i < |xs| ==> vs[i] == xs[i].value
  {
    seq(|xs|, i requires 0 <= i < |xs| && NoNull(xs) => xs[i].value)
  }

  const NULL_ELEMENT: string := "NullPointerException"

  /** Stats.count: the number of items, as a `long` counter incremented once per item. */
  method Count<T>(items: seq<T>) returns (c: int)
    ensures IsLong(c)
    ensures c == WrapLong(|items|)
  {
    c := 0;
    var i := 0;
    while i < |items|
      invariant 0 <= i <= |items|
      invariant c == WrapLong(i)
    {
      WrapLongAdd(i, 1);
      c := WrapLong(c + 1);
      i := i + 1;
    }
  }

  /** The `sum += n` loop shared by sumInts and sumLongs. */
  method SumBoxed(xs: seq<Option<int>>) returns (r: Result<int>)
    ensures r.Err? <==> !NoNull(xs)
    ensures r.Err? ==> r.message == NULL_ELEMENT
    ensures r.Ok? ==> IsLong(r.value) && r.value == WrapLong(Sum(Unboxed(xs)))
  {
    var sum := 0;
    var i := 0;
    while i < |xs|
      invariant 0 <= i <= |xs|
      invariant forall k :: 0 <= k < i ==> xs[k].Some?
      invariant sum == WrapLong(Sum(seq(i, k requires 0 <= k < i && k < |xs| && xs[k].Some? => xs[k].value)))
    {
      if xs[i].None? {
        return Err(NULL_ELEMENT);
      }
      ghost var before := seq(i, k requires 0 <= k < i && k < |xs| && xs[k].Some? => xs[k].value);
      ghost var after := seq(i + 1, k requires 0 <= k < i + 1 && k < |xs| && xs[k].Some? => xs[k].value);
      assert after == before + [xs[i].value];
      SumAppend(before, [xs[i].value]);
      WrapLongAdd(Sum(before), xs[i].value);
      sum := WrapLong(sum + xs[i].value);
      i := i + 1;
    }
    assert seq(i, k requires 0 <= k < i && k < |xs| && xs[k].Some? => xs[k].value) == Unboxed(xs);
    return Ok(sum);
  }

  /** Stats.sumInts: the elements are Integers. */
  method SumInts(xs: seq<Option<int>>) returns (r: Result<int>)
    requires forall i :: 0 <= i < |xs| && xs[i].Some? ==> IsInt(xs[i].value)
    ensures r.Err? <==> !NoNull(xs)
    ensures r.Ok? ==> IsLong(r.value) && r.value == WrapLong(Sum(Unboxed(xs)))
  {
    r := SumBoxed(xs);
  }

  /** Stats.sumLongs: the elements are Longs. */
  method SumLongs(xs: seq<Option<int>>) returns (r: Result<int>)
    requires forall i :: 0 <= i < |xs| && xs[i].Some? ==> IsLong(xs[i].value)
    ensures r.Err? <==> !NoNull(xs)
    ensures r.Ok? ==> IsLong(r.value) && r.value == WrapLong(Sum(Unboxed(xs)))
  {
    r := SumBoxed(xs);
  }

  /** A sum of n ints lies between n * INT_MIN and n * INT_MAX. */
  lemma {:induction false} SumOfIntsBounds(xs: seq<int>)
    requires forall i :: 0 <= i < |xs| ==> IsInt(xs[i])
    ensures INT_MIN * |xs| <= Sum(xs) <= INT_MAX * |xs|
    decreases |xs|
  {
    if xs != [] {
      SumOfIntsBounds(xs[1..]);
    }
  }

  /** sumInts cannot overflow below 2^32 elements: its long total is then the exact sum. */
  lemma IntSumExact(xs: seq<int>)
    requires forall i :: 0 <= i < |xs| ==> IsInt(xs[i])
    requires |xs| <= 0x1_0000_0000
    ensures WrapLong(Sum(xs)) == Sum(xs)
  {
    SumOfIntsBounds(xs);
    var n := |xs|;
    assert INT_MAX * n <= INT_MAX * 0x1_0000_0000;
    assert INT_MIN * n >= INT_MIN * 0x1_0000_0000;
  }

  /** The test data: 1..6 sums to 21 as ints and as longs, and the empty sum is 0. */
  lemma SumExamples()
    ensures WrapLong(Sum([1, 2, 3, 4, 5, 6])) == 21
    ensures WrapLong(Sum([])) == 0
  {
  }
}
