/** HColumn: an HBase column as the UTF-8 bytes of its family and of its
    name, with value equality and Java's array hash. */
module HColumns {
  import opened Base
  import opened Utf8

  datatype HColumn = HColumn(family: seq<JByte>, name: seq<JByte>)

  /** The constructor; both arguments are declared non-null. */
  function NewHColumn(family: string, name: string): (c: HColumn)
    ensures Decode(c.family) == Some(family) && Decode(c.name) == Some(name)
  {
    DecodeEncode(family);
    DecodeEncode(name);
    HColumn(Encode(family), Encode(name))
  }

  /** What `equals` may be handed: null, an HColumn, or an object of another class. */
  datatype Obj = NullObj | ColumnObj(column: HColumn) | OtherObj

  /** Arrays.equals on two non-null byte arrays. */
  method ArraysEquals(a: seq<JByte>, b: seq<JByte>) returns (eq: bool)
    ensures eq <==> a == b
  {
    if |a| != |b| {
      return false;
    }
    var i := 0;
    while i < |a|
      invariant 0 <= i <= |a|
      invariant a[..i] == b[..i]
    {
      if a[i] != b[i] {
        return false;
      }
      i := i + 1;
    }
    assert a == a[..i] && b == b[..i];
    return true;
  }

  /** HColumn.equals: equal exactly when `o` is an HColumn with the same family and name bytes. */
  method Equals(c: HColumn, o: Obj) returns (eq: bool)
    ensures eq <==> o == ColumnObj(c)
  {
    if !o.ColumnObj? {
      return false;
    }
    var d := o.column;
    var sameFamily := ArraysEquals(c.family, d.family);
    if !sameFamily {
      return false;
    }
    var sameName := ArraysEquals(c.name, d.name);
    if !sameName {
      return false;
    }
    return true;
  }

  /** Two columns built from strings are equal exactly when both strings agree. */
  lemma NewHColumnEqual(f1: string, n1: string, f2: string, n2: string)
    ensures NewHColumn(f1, n1) == NewHColumn(f2, n2) <==> f1 == f2 && n1 == n2
  {
    EncodeInjective(f1, f2);
    EncodeInjective(n1, n2);
  }

  function Pow31(n: nat): int {
    if n == 0 then 1 else 31 * Pow31(n - 1)
  }

  /** The weighted sum the array hash stands for before any overflow:
      31^n + a[0]*31^(n-1) + ... + a[n-1]. */
  function Weighted(a: seq<JByte>): int
    decreases |a|
  {
    if a == [] then 0 else a[0] as int * Pow31(|a| - 1) + Weighted(a[1..])
  }

  function Polynomial(a: seq<JByte>): int {
    Pow31(|a|) + Weighted(a)
  }

  /** Appending one byte multiplies the polynomial by 31 and adds the byte. */
  lemma {:induction false} WeightedSnoc(a: seq<JByte>, b: JByte)
    ensures Weighted(a + [b]) == 31 * Weighted(a) + b as int
    decreases |a|
  {
    if a != [] {
      assert (a + [b])[1..] == a[1..] + [b];
      WeightedSnoc(a[1..], b);
      assert Pow31(|a|) == 31 * Pow31(|a| - 1);
    } else {
      assert [b][1..] == [];
    }
  }

  /** Arrays.hashCode(byte[]): the loop `result = 31 * result + element` from 1,
      in 32-bit int arithmetic. */
  method ArrayHash(a: seq<JByte>) returns (h: int)
    ensures IsInt(h)
    ensures h == WrapInt(Polynomial(a))
  {
    h := 1;
    var i := 0;
    while i < |a|
      invariant 0 <= i <= |a|
      invariant h == WrapInt(Polynomial(a[..i]))
    {
      assert a[..i + 1] == a[..i] + [a[i]];
      WeightedSnoc(a[..i], a[i]);
      WrapIntMulAdd(Polynomial(a[..i]), a[i] as int);
      h := WrapInt(31 * h + a[i] as int);
      i := i + 1;
    }
    assert a[..i] == a;
  }

  /** The column's hash, as a function of its bytes. */
  function Hash(c: HColumn): int {
    WrapInt(31 * Polynomial(c.family) + Polynomial(c.name))
  }

  /** HColumn.hashCode. */
  method HashCode(c: HColumn) returns (h: int)
    ensures IsInt(h)
    ensures h == Hash(c)
  {
    var hf := ArrayHash(c.family);
    var hn := ArrayHash(c.name);
    h := WrapInt(31 * hf + hn);
    var pf, pn := Polynomial(c.family), Polynomial(c.name);
    WrapIntMulAdd(pf, hn);
    assert h == WrapInt(31 * pf + hn);
    WrapIntAdd(pn, 31 * pf);
    assert WrapInt(hn + 31 * pf) == WrapInt(pn + 31 * pf);
  }

  /** The equals/hashCode contract: when `equals` accepts `o`, `o` is a column
      whose hashCode is the receiver's. `ho` is null unless `o` is a column. */
  method EqualsAgreesWithHash(c: HColumn, o: Obj) returns (eq: bool, hc: int, ho: Option<int>)
    ensures ho.Some? <==> o.ColumnObj?
    ensures eq ==> ho == Some(hc)
  {
    eq := Equals(c, o);
    hc := HashCode(c);
    if o.ColumnObj? {
      var h := HashCode(o.column);
      ho := Some(h);
    } else {
      ho := None;
    }
  }
}
