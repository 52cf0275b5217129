/** The temp table through which results travel from the reduce tasks back to
    the driver, seen only as data: a partial map from row key to the cells of
    the table's single family "cf". Results are written to and read from the
    row named by the job tracker identifier of the job's id, a string every job
    run on the same cluster shares. Payloads are held decoded; Java
    serialization is not part of this model. */
module TempStorage {
  import opened Base

  /** One cell of family "cf": a qualifier and the (possibly null) object stored there. */
  datatype Cell<R> = Cell(qualifier: seq<JByte>, value: Option<R>)

  type Row<R> = seq<Cell<R>>

  type Store<R> = map<string, Row<R>>

  /** The qualifier single results are stored under: the UTF-8 bytes of "val". */
  const VALUE: seq<JByte> := [118, 97, 108]

  // ---------------------------------------------------------------------------
  // Qualifier order and the shape of a row.

  /** HBase's order on qualifiers: bytes compared as unsigned octets, left to
      right, with a proper prefix first. */
  predicate QualifierLess(a: seq<JByte>, b: seq<JByte>)
    decreases |a|
  {
    if a == [] then b != []
    else if b == [] then false
    else if Octet(a[0]) != Octet(b[0]) then Octet(a[0]) < Octet(b[0])
    else QualifierLess(a[1..], b[1..])
  }

  lemma {:induction false} QualifierLessIrreflexive(a: seq<JByte>)
    ensures !QualifierLess(a, a)
    decreases |a|
  {
    if a != [] {
      QualifierLessIrreflexive(a[1..]);
    }
  }

  lemma {:induction false} QualifierLessTransitive(a: seq<JByte>, b: seq<JByte>, c: seq<JByte>)
    requires QualifierLess(a, b) && QualifierLess(b, c)
    ensures QualifierLess(a, c)
    decreases |a|
  {
    if a != [] && Octet(a[0]) == Octet(b[0]) && Octet(b[0]) == Octet(c[0]) {
      QualifierLessTransitive(a[1..], b[1..], c[1..]);
    }
  }

  /** Any two different qualifiers are ordered one way or the other. */
  lemma {:induction false} QualifierLessTotal(a: seq<JByte>, b: seq<JByte>)
    requires a != b
    ensures QualifierLess(a, b) || QualifierLess(b, a)
    decreases |a|
  {
    if a != [] && b != [] && Octet(a[0]) == Octet(b[0]) {
      assert a[0] == b[0];
      assert a == [a[0]] + a[1..] && b == [b[0]] + b[1..];
      QualifierLessTotal(a[1..], b[1..]);
    }
  }

  /** Every qualifier of `row` lies above `q`. */
  predicate Above<R>(q: seq<JByte>, row: Row<R>) {
    forall i :: 0 <= i < |row| ==> QualifierLess(q, row[i].qualifier)
  }

  /** What an HBase row is: one cell per qualifier, in ascending qualifier order. */
  predicate Sorted<R>(row: Row<R>)
    decreases |row|
  {
    row == [] || (Above(row[0].qualifier, row[1..]) && Sorted(row[1..]))
  }

  predicate WellFormed<R>(store: Store<R>) {
    forall k :: k in store ==> Sorted(store[k])
  }

  /** A sorted row's qualifiers strictly ascend, so no qualifier appears twice. */
  lemma {:induction false} SortedAscending<R>(row: Row<R>)
    ensures Sorted(row) ==>
              forall i, j :: 0 <= i < j < |row| ==> QualifierLess(row[i].qualifier, row[j].qualifier)
    decreases |row|
  {
    if row != [] && Sorted(row) {
      SortedAscending(row[1..]);
      forall i, j | 0 <= i < j < |row|
        ensures QualifierLess(row[i].qualifier, row[j].qualifier)
      {
        if i == 0 {
          assert row[j] == row[1..][j - 1];
        } else {
          assert row[i] == row[1..][i - 1] && row[j] == row[1..][j - 1];
        }
      }
    }
  }

  // ---------------------------------------------------------------------------
  // Reading and writing cells.

  /** The cell stored under `q`, if any: `None` when the row has no such cell. */
  function Lookup<R>(row: Row<R>, q: seq<JByte>): (r: Option<Option<R>>)
    ensures r.None? <==> forall i :: 0 <= i < |row| ==> row[i].qualifier != q
    ensures r.Some? ==> exists i :: 0 <= i < |row| && row[i] == Cell(q, r.value)
    decreases |row|
  {
    if row == [] then None
    else if row[0].qualifier == q then Some(row[0].value)
    else
      var r := Lookup(row[1..], q);
      assert forall i :: 0 < i < |row| ==> row[i] == row[1..][i - 1];
      r
  }

  /** Writing one cell: replaces the cell with the same qualifier, or inserts
      one where the qualifier order puts it. */
  function Upsert<R>(row: Row<R>, q: seq<JByte>, v: Option<R>): (r: Row<R>)
    ensures Lookup(r, q) == Some(v)
    ensures forall q' :: q' != q ==> Lookup(r, q') == Lookup(row, q')
    decreases |row|
  {
    if row == [] then [Cell(q, v)]
    else if row[0].qualifier == q then [Cell(q, v)] + row[1..]
    else if QualifierLess(q, row[0].qualifier) then [Cell(q, v)] + row
    else [row[0]] + Upsert(row[1..], q, v)
  }

  lemma {:induction false} UpsertAbove<R>(row: Row<R>, q: seq<JByte>, v: Option<R>, x: seq<JByte>)
    requires Above(x, row) && QualifierLess(x, q)
    ensures Above(x, Upsert(row, q, v))
    decreases |row|
  {
    if row != [] && row[0].qualifier != q && !QualifierLess(q, row[0].qualifier) {
      UpsertAbove(row[1..], q, v, x);
      assert forall i :: 0 < i < |row| ==> row[i] == row[1..][i - 1];
    }
  }

  /** A write keeps a row sorted, and so keeps one cell per qualifier. */
  lemma {:induction false} UpsertSorted<R>(row: Row<R>, q: seq<JByte>, v: Option<R>)
    requires Sorted(row)
    ensures Sorted(Upsert(row, q, v))
    decreases |row|
  {
    if row == [] {
    } else if row[0].qualifier == q {
      assert ([Cell(q, v)] + row[1..])[1..] == row[1..];
    } else if QualifierLess(q, row[0].qualifier) {
      var r := [Cell(q, v)] + row;
      assert r[1..] == row;
      forall i | 0 <= i < |row|
        ensures QualifierLess(q, row[i].qualifier)
      {
        if i > 0 {
          assert row[i] == row[1..][i - 1];
          QualifierLessTransitive(q, row[0].qualifier, row[i].qualifier);
        }
      }
    } else {
      QualifierLessTotal(q, row[0].qualifier);
      UpsertSorted(row[1..], q, v);
      UpsertAbove(row[1..], q, v, row[0].qualifier);
      assert ([row[0]] + Upsert(row[1..], q, v))[1..] == Upsert(row[1..], q, v);
    }
  }

  /** A write the reduce side sends to the temp table. */
  datatype Put<R> = Put(row: string, qualifier: seq<JByte>, value: Option<R>)

  function ApplyPut<R>(store: Store<R>, put: Put<R>): (s: Store<R>)
    ensures s.Keys == store.Keys + {put.row}
    ensures forall k :: k in store && k != put.row ==> s[k] == store[k]
    ensures Lookup(s[put.row], put.qualifier) == Some(put.value)
    ensures forall q :: q != put.qualifier && put.row in store ==> Lookup(s[put.row], q) == Lookup(store[put.row], q)
  {
    var old_row := if put.row in store then store[put.row] else [];
    store[put.row := Upsert(old_row, put.qualifier, put.value)]
  }

  /** Every write keeps the table well formed. */
  lemma PutKeepsWellFormed<R>(store: Store<R>, put: Put<R>)
    requires WellFormed(store)
    ensures WellFormed(ApplyPut(store, put))
  {
    var old_row := if put.row in store then store[put.row] else [];
    UpsertSorted(old_row, put.qualifier, put.value);
  }

  /** TempStorage.storeResult without a key: the result goes to the tracker's row under "val". */
  function SingleResultPut<R>(tracker: string, result: Option<R>): (p: Put<R>)
    ensures p.row == tracker && p.qualifier == VALUE && p.value == result
  {
    Put(tracker, VALUE, result)
  }

  /** TempStorage.retrieveResult: null when the tracker's row has no "val" cell,
      else the stored object (which may itself be null). */
  function RetrieveResult<R>(store: Store<R>, tracker: string): (r: Option<R>)
    ensures r.Some? ==> tracker in store && Lookup(store[tracker], VALUE) == Some(r)
    ensures tracker !in store || Lookup(store[tracker], VALUE).None? ==> r.None?
  {
    if tracker !in store then None
    else match Lookup(store[tracker], VALUE)
      case None => None
      case Some(v) => v
  }

  /** TempStorage.retrieveResults: null when the tracker's row is absent or
      empty, else the object of every cell of the row, in ascending qualifier
      order. */
  function RetrieveResults<R>(store: Store<R>, tracker: string): (r: Option<seq<Option<R>>>)
    ensures r.None? <==> tracker !in store || store[tracker] == []
    ensures r.Some? ==> |r.value| == |store[tracker]|
    ensures r.Some? ==> forall i :: 0 <= i < |r.value| ==> r.value[i] == store[tracker][i].value
    ensures r.Some? && WellFormed(store) ==>
              forall i, j :: 0 <= i < j < |r.value| ==>
                QualifierLess(store[tracker][i].qualifier, store[tracker][j].qualifier)
  {
    if tracker !in store || store[tracker] == [] then None
    else
      var cells := store[tracker];
      SortedAscending(cells);
      Some(seq(|cells|, i requires 0 <= i < |cells| => cells[i].value))
  }

  /** What one reduce call stores is what the driver reads back. */
  lemma StoreThenRetrieve<R>(store: Store<R>, tracker: string, result: Option<R>)
    ensures RetrieveResult(ApplyPut(store, SingleResultPut(tracker, result)), tracker) == result
  {
  }

  /** The row is shared: a later single result under the same tracker replaces
      an earlier one, whatever job wrote it. */
  lemma LaterResultReplaces<R>(store: Store<R>, tracker: string, earlier: Option<R>, later: Option<R>)
    ensures var s1 := ApplyPut(store, SingleResultPut(tracker, earlier));
            RetrieveResult(ApplyPut(s1, SingleResultPut(tracker, later)), tracker) == later
  {
  }

  /** A write under another row leaves this row's results alone. */
  lemma OtherRowUntouched<R>(store: Store<R>, put: Put<R>, tracker: string)
    requires put.row != tracker
    ensures RetrieveResult(ApplyPut(store, put), tracker) == RetrieveResult(store, tracker)
    ensures RetrieveResults(ApplyPut(store, put), tracker) == RetrieveResults(store, tracker)
  {
  }
}
