/** Shared vocabulary: Java's nullable references, exceptions as results,
    Java's signed byte, and two's-complement wrap-around of int and long. */
module Base {

  /** A Java reference that may be null: `None` is null. */
  datatype Option<+T> = None | Some(value: T) {
    function GetOr(default: T): T {
      match this
      case Some(v) => v
      case None => default
    }
  }

  /** The outcome of a Java call that either returns or throws. */
  datatype Result<+T> = Ok(value: T) | Err(message: string)

  /** Java's `byte`: signed, eight bits. */
  newtype JByte = b: int | -128 <= b < 128

  /** The unsigned octet a Java byte holds. */
  function Octet(b: JByte): (u: int)
    ensures 0 <= u < 256
    ensures b >= 0 ==> u == b as int
  {
    if b < 0 then b as int + 256 else b as int
  }

  const INT_MIN: int := -0x8000_0000
  const INT_MAX: int := 0x7FFF_FFFF
  const LONG_MIN: int := -0x8000_0000_0000_0000
  const LONG_MAX: int := 0x7FFF_FFFF_FFFF_FFFF

  predicate IsInt(x: int) { INT_MIN <= x <= INT_MAX }
  predicate IsLong(x: int) { LONG_MIN <= x <= LONG_MAX }

  /** The value a Java `int` holds after an arithmetic result `x` is stored in it. */
  function WrapInt(x: int): (r: int)
    ensures IsInt(r)
    ensures (r - x) % 0x1_0000_0000 == 0
    ensures IsInt(x) ==> r == x
  {
    (x + 0x8000_0000) % 0x1_0000_0000 - 0x8000_0000
  }

  /** The value a Java `long` holds after an arithmetic result `x` is stored in it. */
  function WrapLong(x: int): (r: int)
    ensures IsLong(r)
    ensures (r - x) % 0x1_0000_0000_0000_0000 == 0
    ensures IsLong(x) ==> r == x
  {
    (x + 0x8000_0000_0000_0000) % 0x1_0000_0000_0000_0000 - 0x8000_0000_0000_0000
  }

  /** Wrapping an intermediate result does not change a later wrapped sum. */
  lemma WrapLongAdd(x: int, y: int)
    ensures WrapLong(WrapLong(x) + y) == WrapLong(x + y)
  {
    var m := 0x1_0000_0000_0000_0000;
    var k := (WrapLong(x) - x) / m;
    assert WrapLong(x) == x + k * m;
    assert WrapLong(x) + y + 0x8000_0000_0000_0000 == (x + y + 0x8000_0000_0000_0000) + k * m;
  }

  /** Adding a multiple of 2^32 does not change what an int holds. */
  lemma WrapIntShift(x: int, k: int)
    ensures WrapInt(x + k * 0x1_0000_0000) == WrapInt(x)
  {
    var m, c := 0x1_0000_0000, 0x8000_0000;
    var q, r := (x + c) / m, (x + c) % m;
    assert x + k * m + c == (q + k) * m + r;
  }

  lemma WrapIntAdd(x: int, y: int)
    ensures WrapInt(WrapInt(x) + y) == WrapInt(x + y)
  {
    var k := (WrapInt(x) - x) / 0x1_0000_0000;
    assert WrapInt(x) + y == (x + y) + k * 0x1_0000_0000;
    WrapIntShift(x + y, k);
  }

  lemma WrapIntMulAdd(x: int, y: int)
    ensures WrapInt(31 * WrapInt(x) + y) == WrapInt(31 * x + y)
  {
    var k := (WrapInt(x) - x) / 0x1_0000_0000;
    assert 31 * WrapInt(x) + y == (31 * x + y) + (31 * k) * 0x1_0000_0000;
    WrapIntShift(31 * x + y, 31 * k);
  }
}
