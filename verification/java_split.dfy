/** Java's String.split(regex) (limit 0) for the three patterns the code uses:
    ":" and the padded forms "\\s*,\\s*" and "\\s*:\\s*". The input is cut at
    every leftmost, non-overlapping match of the pattern; if nothing matches
    the result is the input itself; finally, trailing empty strings are
    dropped. All three patterns match at least one character, so Java's special
    case for a zero-width match at the start never applies. */
module JavaSplit {
  import opened Base

  /** The characters of the regex class \s: space, \t, \n, \u000B, \f, \r. */
  predicate IsWhitespace(c: char) {
    c == ' ' || 9 <= c as int <= 13
  }

  /** A separator pattern: one character, optionally absorbing the whitespace on
      both sides of it (the `\s*c\s*` form). */
  datatype Separator = Separator(ch: char, padded: bool)

  /** The first position at or after `i` that does not hold whitespace. */
  function SkipWs(s: string, i: nat): (j: nat)
    requires i <= |s|
    ensures i <= j <= |s|
    ensures forall k :: i <= k < j ==> IsWhitespace(s[k])
    ensures j < |s| ==> !IsWhitespace(s[j])
    decreases |s| - i
  {
    if i == |s| || !IsWhitespace(s[i]) then i else SkipWs(s, i + 1)
  }

  /** Where a match of `sep` starting at `i` ends, if one starts there. With
      greedy `\s*`, `\s*c\s*` matches at `i` exactly when the first
      non-whitespace character from `i` on is `c`. */
  function MatchEnd(s: string, i: nat, sep: Separator): (e: Option<nat>)
    requires i <= |s|
    ensures e.Some? ==> i < e.value <= |s|
  {
    if sep.padded then
      var j := SkipWs(s, i);
      if j < |s| && s[j] == sep.ch then Some(SkipWs(s, j + 1)) else None
    else
      if i < |s| && s[i] == sep.ch then Some(i + 1) else None
  }

  /** The leftmost match starting at or after `from`, as (start, end). */
  function FindMatch(s: string, from: nat, sep: Separator): (m: Option<(nat, nat)>)
    requires from <= |s|
    ensures m.Some? ==> from <= m.value.0 < m.value.1 <= |s|
    decreases |s| - from
  {
    if from == |s| then None
    else match MatchEnd(s, from, sep)
      case Some(e) => Some((from, e))
      case None => FindMatch(s, from + 1, sep)
  }

  /** The pieces between matches, before trailing empty pieces are dropped. */
  function Pieces(s: string, sep: Separator): (ps: seq<string>)
    ensures |ps| >= 1
    decreases |s|
  {
    match FindMatch(s, 0, sep)
    case None => [s]
    case Some((i, e)) => [s[..i]] + Pieces(s[e..], sep)
  }

  function DropTrailingEmpty(ps: seq<string>): (r: seq<string>)
    ensures |r| <= |ps| && r == ps[..|r|]
    ensures r == [] || r[|r| - 1] != ""
    ensures forall k :: |r| <= k < |ps| ==> ps[k] == ""
  {
    if ps == [] then []
    else if ps[|ps| - 1] == "" then DropTrailingEmpty(ps[..|ps| - 1])
    else ps
  }

  /** `s.split(pattern)` with the default limit: the input itself when the
      pattern never matches (so `""` gives `[""]`), otherwise the pieces with
      trailing empty strings removed. */
  function Split(s: string, sep: Separator): seq<string> {
    if FindMatch(s, 0, sep).None? then [s] else DropTrailingEmpty(Pieces(s, sep))
  }

  /** The pieces joined back with bare separator characters. */
  function Join(ps: seq<string>, c: char): string
    requires |ps| >= 1
    decreases |ps|
  {
    if |ps| == 1 then ps[0] else ps[0] + [c] + Join(ps[1..], c)
  }

  predicate NoChar(s: string, c: char) {
    forall k :: 0 <= k < |s| ==> s[k] != c
  }

  predicate AllWhitespace(w: string) {
    forall k :: 0 <= k < |w| ==> IsWhitespace(w[k])
  }

  /** Neither end of the string is whitespace (the empty string qualifies). */
  predicate Trimmed(s: string) {
    s == [] || (!IsWhitespace(s[0]) && !IsWhitespace(s[|s| - 1]))
  }

  lemma {:induction false} SkipWsStops(s: string, i: nat, j: nat)
    requires i <= j < |s| && !IsWhitespace(s[j])
    ensures SkipWs(s, i) <= j
    decreases j - i
  {
    if i < j && IsWhitespace(s[i]) {
      SkipWsStops(s, i + 1, j);
    }
  }

  lemma {:induction false} SkipWsOver(s: string, i: nat, w: nat)
    requires i + w <= |s|
    requires forall k :: i <= k < i + w ==> IsWhitespace(s[k])
    requires i + w == |s| || !IsWhitespace(s[i + w])
    ensures SkipWs(s, i) == i + w
    decreases w
  {
    if w > 0 {
      SkipWsOver(s, i + 1, w - 1);
    }
  }

  /** No piece of a split contains the separator character. */
  lemma {:induction false} FindMatchNone(s: string, from: nat, sep: Separator)
    requires from <= |s|
    requires NoChar(s, sep.ch)
    ensures FindMatch(s, from, sep).None?
    decreases |s| - from
  {
    if from < |s| {
      FindMatchNone(s, from + 1, sep);
    }
  }

  lemma {:induction false} FindMatchAt(s: string, from: nat, i: nat, e: nat, sep: Separator)
    requires from <= i <= |s|
    requires MatchEnd(s, i, sep) == Some(e)
    requires forall k :: from <= k < i ==> MatchEnd(s, k, sep).None?
    ensures FindMatch(s, from, sep) == Some((i, e))
    decreases i - from
  {
    if from < i {
      FindMatchAt(s, from + 1, i, e, sep);
    }
  }

  /** The shape of one cut: a piece free of the separator character, the
      separator with whitespace `w1`, `w2` around it (none when unpadded), then
      the rest. In the padded form the piece must not end with whitespace nor
      the rest begin with it, or the regex would absorb those characters too. */
  predicate CutShape(a: string, w1: string, w2: string, b: string, sep: Separator) {
    && !IsWhitespace(sep.ch)
    && NoChar(a, sep.ch)
    && AllWhitespace(w1) && AllWhitespace(w2)
    && (!sep.padded ==> w1 == [] && w2 == [])
    && (sep.padded ==> (a == [] || !IsWhitespace(a[|a| - 1])) && (b == [] || !IsWhitespace(b[0])))
  }

  /** One cut, by positions: the leftmost match of `sep` spans [i, e) and its
      separator character sits at j. */
  lemma CutAtIndex(s: string, i: nat, j: nat, e: nat, sep: Separator)
    requires !IsWhitespace(sep.ch)
    requires i <= j < e <= |s| && s[j] == sep.ch
    requires forall k :: 0 <= k < i ==> s[k] != sep.ch
    requires forall k :: i <= k < j ==> IsWhitespace(s[k])
    requires forall k :: j < k < e ==> IsWhitespace(s[k])
    requires !sep.padded ==> j == i && e == j + 1
    requires sep.padded ==> (i == 0 || !IsWhitespace(s[i - 1])) && (e == |s| || !IsWhitespace(s[e]))
    ensures Pieces(s, sep) == [s[..i]] + Pieces(s[e..], sep)
  {
    if sep.padded {
      SkipWsOver(s, i, j - i);
      SkipWsOver(s, j + 1, e - j - 1);
      assert MatchEnd(s, i, sep) == Some(e);
      forall k | 0 <= k < i
        ensures MatchEnd(s, k, sep).None?
      {
        SkipWsStops(s, k, i - 1);
      }
    }
    FindMatchAt(s, 0, i, e, sep);
  }

  lemma CutAt(a: string, w1: string, w2: string, b: string, sep: Separator)
    requires CutShape(a, w1, w2, b, sep)
    ensures Pieces(a + w1 + [sep.ch] + w2 + b, sep) == [a] + Pieces(b, sep)
  {
    var s := a + w1 + [sep.ch] + w2 + b;
    var i := |a|;
    var j := |a| + |w1|;
    var e := j + 1 + |w2|;
    assert s[..i] == a;
    assert s[e..] == b;
    assert s[j] == sep.ch;
    assert forall k :: i <= k < j ==> s[k] == w1[k - i];
    assert forall k :: j < k < e ==> s[k] == w2[k - j - 1];
    assert sep.padded && e < |s| ==> s[e] == b[0];
    assert sep.padded && i > 0 ==> s[i - 1] == a[i - 1];
    CutAtIndex(s, i, j, e, sep);
  }

  lemma PiecesNoMatch(s: string, sep: Separator)
    requires NoChar(s, sep.ch)
    ensures Pieces(s, sep) == [s]
  {
    FindMatchNone(s, 0, sep);
  }

  /** Pieces free of the separator character, and trimmed when the pattern is
      padded, come back unchanged from splitting their join. */
  lemma {:induction false} PiecesOfJoin(ps: seq<string>, sep: Separator)
    requires |ps| >= 1 && !IsWhitespace(sep.ch)
    requires forall k :: 0 <= k < |ps| ==> NoChar(ps[k], sep.ch)
    requires sep.padded ==> forall k :: 0 <= k < |ps| ==> Trimmed(ps[k])
    ensures Pieces(Join(ps, sep.ch), sep) == ps
    decreases |ps|
  {
    if |ps| == 1 {
      PiecesNoMatch(ps[0], sep);
    } else {
      var rest := Join(ps[1..], sep.ch);
      PiecesOfJoin(ps[1..], sep);
      if sep.padded && rest != [] {
        JoinStartsWithFirst(ps[1..], sep.ch);
        assert Trimmed(ps[1]);
      }
      assert CutShape(ps[0], [], [], rest, sep);
      CutAt(ps[0], [], [], rest, sep);
      assert ps[0] + [] + [sep.ch] + [] + rest == Join(ps, sep.ch);
      assert [ps[0]] + ps[1..] == ps;
    }
  }

  lemma {:induction false} JoinStartsWithFirst(ps: seq<string>, c: char)
    requires |ps| >= 1
    ensures |ps[0]| <= |Join(ps, c)| && Join(ps, c)[..|ps[0]|] == ps[0]
    ensures ps[0] == [] && |ps| > 1 ==> Join(ps, c)[0] == c
    decreases |ps|
  {
    if |ps| > 1 {
      JoinStartsWithFirst(ps[1..], c);
    }
  }

  /** Joining the pieces of an unpadded split with the separator gives back the input. */
  lemma {:induction false} JoinPieces(s: string, c: char)
    ensures Join(Pieces(s, Separator(c, false)), c) == s
    decreases |s|
  {
    var sep := Separator(c, false);
    match FindMatch(s, 0, sep)
    case None =>
    case Some((i, e)) =>
      FindMatchEnd(s, 0, sep);
      JoinPieces(s[e..], c);
      assert s == s[..i] + [c] + s[e..];
  }

  lemma {:induction false} FindMatchEnd(s: string, from: nat, sep: Separator)
    requires from <= |s| && !sep.padded
    ensures FindMatch(s, from, sep).Some? ==>
              var (i, e) := FindMatch(s, from, sep).value; e == i + 1 && s[i] == sep.ch
    decreases |s| - from
  {
    if from < |s| && MatchEnd(s, from, sep).None? {
      FindMatchEnd(s, from + 1, sep);
    }
  }

  /** Every piece is free of the separator character. */
  lemma {:induction false} PiecesNoSeparator(s: string, sep: Separator)
    requires !IsWhitespace(sep.ch)
    ensures forall k :: 0 <= k < |Pieces(s, sep)| ==> NoChar(Pieces(s, sep)[k], sep.ch)
    decreases |s|
  {
    match FindMatch(s, 0, sep)
    case None =>
      FirstMatchLeftmost(s, 0, sep);
    case Some((i, e)) =>
      FirstMatchLeftmost(s, 0, sep);
      PiecesNoSeparator(s[e..], sep);
  }

  /** Before the leftmost match (or anywhere, when there is none) the separator
      character does not occur. */
  lemma {:induction false} FirstMatchLeftmost(s: string, from: nat, sep: Separator)
    requires from <= |s| && !IsWhitespace(sep.ch)
    ensures FindMatch(s, from, sep).None? ==> forall k :: from <= k < |s| ==> s[k] != sep.ch
    ensures FindMatch(s, from, sep).Some? ==>
              forall k :: from <= k < FindMatch(s, from, sep).value.0 ==> s[k] != sep.ch
    decreases |s| - from
  {
    if from < |s| {
      if MatchEnd(s, from, sep).None? {
        FirstMatchLeftmost(s, from + 1, sep);
        if sep.padded && s[from] == sep.ch {
          SkipWsStopsAtSep(s, from, sep.ch);
        }
      }
    }
  }

  lemma SkipWsStopsAtSep(s: string, i: nat, c: char)
    requires i < |s| && s[i] == c && !IsWhitespace(c)
    ensures SkipWs(s, i) == i
  {
  }
  /** A list whose last piece is non-empty loses nothing to the trailing-empty rule. */
  lemma DropKeeps(ps: seq<string>)
    requires |ps| >= 1 && ps[|ps| - 1] != ""
    ensures DropTrailingEmpty(ps) == ps
  {
  }

  /** One cut: two pieces, the empty ones at the end dropped. */
  lemma SplitOnce(a: string, w1: string, w2: string, b: string, sep: Separator)
    requires CutShape(a, w1, w2, b, sep) && NoChar(b, sep.ch)
    ensures Split(a + w1 + [sep.ch] + w2 + b, sep)
            == if b != "" then [a, b] else if a != "" then [a] else []
  {
    CutAt(a, w1, w2, b, sep);
    PiecesNoMatch(b, sep);
    assert [a] + [b] == [a, b];
    if b == "" {
      assert [a, b][..1] == [a];
      assert DropTrailingEmpty([a, b]) == DropTrailingEmpty([a]);
      if a == "" {
        assert [a][..0] == [];
      }
    }
  }

  /** Two cuts: three pieces, the last non-empty. */
  lemma SplitTwice(a: string, w1: string, w2: string, b: string, w3: string, w4: string, c: string,
                   sep: Separator)
    requires CutShape(a, w1, w2, b + w3 + [sep.ch] + w4 + c, sep)
    requires CutShape(b, w3, w4, c, sep) && NoChar(c, sep.ch) && c != ""
    ensures Split(a + w1 + [sep.ch] + w2 + b + w3 + [sep.ch] + w4 + c, sep) == [a, b, c]
  {
    var rest := b + w3 + [sep.ch] + w4 + c;
    CutAt(a, w1, w2, rest, sep);
    CutAt(b, w3, w4, c, sep);
    PiecesNoMatch(c, sep);
    assert a + w1 + [sep.ch] + w2 + rest == a + w1 + [sep.ch] + w2 + b + w3 + [sep.ch] + w4 + c;
    assert [a] + ([b] + [c]) == [a, b, c];
  }

  /** A string made only of the separator character cuts into empty pieces. */
  lemma {:induction false} PiecesOfRepeated(s: string, c: char)
    requires forall k :: 0 <= k < |s| ==> s[k] == c
    ensures forall k :: 0 <= k < |Pieces(s, Separator(c, false))| ==> Pieces(s, Separator(c, false))[k] == ""
    decreases |s|
  {
    var sep := Separator(c, false);
    if s == [] {
      PiecesNoMatch(s, sep);
    } else {
      FindMatchAt(s, 0, 0, 1, sep);
      PiecesOfRepeated(s[1..], c);
    }
  }

  lemma {:induction false} JoinOfEmpties(ps: seq<string>, c: char)
    requires |ps| >= 1
    requires forall k :: 0 <= k < |ps| ==> ps[k] == ""
    ensures forall k :: 0 <= k < |Join(ps, c)| ==> Join(ps, c)[k] == c
    decreases |ps|
  {
    if |ps| > 1 {
      JoinOfEmpties(ps[1..], c);
      assert Join(ps, c) == [c] + Join(ps[1..], c);
    }
  }

  /** Splitting a non-empty string on a bare character gives no piece at all
      exactly when the string is made only of that character. */
  lemma SplitEmptyIff(s: string, c: char)
    requires s != ""
    ensures Split(s, Separator(c, false)) == [] <==> forall k :: 0 <= k < |s| ==> s[k] == c
  {
    var sep := Separator(c, false);
    var ps := Pieces(s, sep);
    if s[0] == c {
      assert MatchEnd(s, 0, sep).Some?;
    }
    if Split(s, sep) == [] {
      assert forall k :: 0 <= k < |ps| ==> ps[k] == "";
      JoinPieces(s, c);
      JoinOfEmpties(ps, c);
    }
    if forall k :: 0 <= k < |s| ==> s[k] == c {
      PiecesOfRepeated(s, c);
    }
  }

  /** With no match the input comes back whole, even when it is empty. */
  lemma SplitEmptyString(sep: Separator)
    ensures Split("", sep) == [""]
  {
  }
}
