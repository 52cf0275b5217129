/** HBase's Bytes.toBytes(String): the string's UTF-8 encoding, as Java's
    signed bytes. A Dafny `char` is a Unicode scalar value, so every character
    has an encoding of one to four bytes. */
module Utf8 {
  import opened Base

  /** The Java byte holding the unsigned octet `u`. */
  function ToJByte(u: int): (b: JByte)
    requires 0 <= u < 256
    ensures Octet(b) == u
  {
    if u < 128 then u as JByte else (u - 256) as JByte
  }

  /** The encoding of one scalar value, split into six-bit groups. */
  function EncodeChar(c: char): (bs: seq<JByte>)
    ensures 1 <= |bs| <= 4
  {
    var cp := c as int;
    var d0 := cp % 64;
    var q1 := cp / 64;
    var d1 := q1 % 64;
    var q2 := q1 / 64;
    var d2 := q2 % 64;
    var q3 := q2 / 64;
    if cp < 0x80 then [ToJByte(cp)]
    else if cp < 0x800 then [ToJByte(0xC0 + q1), ToJByte(0x80 + d0)]
    else if cp < 0x1_0000 then [ToJByte(0xE0 + q2), ToJByte(0x80 + d1), ToJByte(0x80 + d0)]
    else [ToJByte(0xF0 + q3), ToJByte(0x80 + d2), ToJByte(0x80 + d1), ToJByte(0x80 + d0)]
  }

  /** Bytes.toBytes(String). */
  function Encode(s: string): seq<JByte>
    decreases |s|
  {
    if s == [] then [] else EncodeChar(s[0]) + Encode(s[1..])
  }

  predicate IsContinuation(b: JByte) {
    0x80 <= Octet(b) < 0xC0
  }

  /** The number of bytes a sequence starting with this lead byte occupies. */
  function SequenceLength(lead: JByte): nat {
    var u := Octet(lead);
    if u < 0x80 then 1
    else if 0xC0 <= u < 0xE0 then 2
    else if 0xE0 <= u < 0xF0 then 3
    else if 0xF0 <= u < 0xF8 then 4
    else 0
  }

  predicate IsScalar(cp: int) {
    (0 <= cp < 0xD800) || (0xE000 <= cp < 0x11_0000)
  }

  /** The scalar value the first sequence of `bs` spells, if it spells one. */
  function DecodeFirst(bs: seq<JByte>): (r: Option<(char, nat)>)
    ensures r.Some? ==> 1 <= r.value.1 <= |bs|
  {
    if bs == [] then None
    else
      var n := SequenceLength(bs[0]);
      if n == 0 || |bs| < n then None
      else if exists k :: 1 <= k < n && !IsContinuation(bs[k]) then None
      else
        var cp :=
          if n == 1 then Octet(bs[0])
          else if n == 2 then (Octet(bs[0]) - 0xC0) * 64 + (Octet(bs[1]) - 0x80)
          else if n == 3 then ((Octet(bs[0]) - 0xE0) * 64 + (Octet(bs[1]) - 0x80)) * 64 + (Octet(bs[2]) - 0x80)
          else (((Octet(bs[0]) - 0xF0) * 64 + (Octet(bs[1]) - 0x80)) * 64 + (Octet(bs[2]) - 0x80)) * 64
               + (Octet(bs[3]) - 0x80);
        if IsScalar(cp) then Some((cp as char, n)) else None
  }

  /** A UTF-8 decoder: the reference the encoding is checked against. */
  function Decode(bs: seq<JByte>): Option<string>
    decreases |bs|
  {
    if bs == [] then Some([])
    else match DecodeFirst(bs)
      case None => None
      case Some((c, n)) =>
        match Decode(bs[n..])
        case None => None
        case Some(rest) => Some([c] + rest)
  }

  /** The decoder reads one encoded character back, whatever follows it. */
  lemma DecodeFirstChar(c: char, rest: seq<JByte>)
    ensures DecodeFirst(EncodeChar(c) + rest) == Some((c, |EncodeChar(c)|))
  {
    var cp := c as int;
    var bs := EncodeChar(c) + rest;
    var d0 := cp % 64;
    var q1 := cp / 64;
    var d1 := q1 % 64;
    var q2 := q1 / 64;
    var d2 := q2 % 64;
    var q3 := q2 / 64;
    assert cp == q1 * 64 + d0;
    assert q1 == q2 * 64 + d1;
    assert q2 == q3 * 64 + d2;
    if cp < 0x80 {
    } else if cp < 0x800 {
      assert q1 < 32;
      assert forall k :: 1 <= k < 2 ==> IsContinuation(bs[k]);
    } else if cp < 0x1_0000 {
      assert q2 < 16;
      assert forall k :: 1 <= k < 3 ==> IsContinuation(bs[k]);
    } else {
      assert q3 < 8;
      assert forall k :: 1 <= k < 4 ==> IsContinuation(bs[k]);
    }
  }

  /** Decoding inverts encoding. */
  lemma {:induction false} DecodeEncode(s: string)
    ensures Decode(Encode(s)) == Some(s)
    decreases |s|
  {
    if s != [] {
      var e := EncodeChar(s[0]);
      var rest := Encode(s[1..]);
      DecodeFirstChar(s[0], rest);
      assert (e + rest)[|e|..] == rest;
      DecodeEncode(s[1..]);
      assert [s[0]] + s[1..] == s;
    }
  }

  /** Distinct strings have distinct encodings. */
  lemma EncodeInjective(s: string, t: string)
    ensures Encode(s) == Encode(t) <==> s == t
  {
    if Encode(s) == Encode(t) {
      DecodeEncode(s);
      DecodeEncode(t);
    }
  }

  /** Characters below 0x80 encode as themselves, one byte each. */
  lemma {:induction false} EncodeAscii(s: string)
    requires forall k :: 0 <= k < |s| ==> s[k] as int < 0x80
    ensures |Encode(s)| == |s|
    ensures forall k :: 0 <= k < |s| ==> Encode(s)[k] as int == s[k] as int
    decreases |s|
  {
    if s != [] {
      EncodeAscii(s[1..]);
    }
  }
}
