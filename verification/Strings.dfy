/** Strings as JavaScript has them: sequences of UTF-16 code units, lone surrogates included. */
module Strings {
  import opened Common

  type Unit = u: int | 0 <= u < 0x1_0000
  type Text = seq<Unit>
  type CodePoint = c: int | 0 <= c < 0x11_0000

  const NUL: Unit := 0
  const TAB: Unit := 9
  const LF: Unit := 10
  const CR: Unit := 13
  const SP: Unit := 32
  const QUOTE: Unit := 0x22
  const LPAREN: Unit := 0x28
  const RPAREN: Unit := 0x29
  const COMMA: Unit := 0x2C
  const DASH: Unit := 0x2D
  const DOT: Unit := 0x2E
  const COLON: Unit := 0x3A
  const LESS: Unit := 0x3C
  const EQUALS: Unit := 0x3D
  const GREATER: Unit := 0x3E
  const QUESTION: Unit := 0x3F
  const AT: Unit := 0x40
  const BACKSLASH: Unit := 0x5C
  const CRLF: Text := [CR, LF]

  /** A printable ASCII literal as code units. */
  function Lit(s: string): (r: Text)
    requires forall i | 0 <= i < |s| :: 32 <= s[i] as int <= 126
    ensures |r| == |s|
    ensures forall i | 0 <= i < |s| :: r[i] == s[i] as int
    ensures forall u | u in r :: 32 <= u <= 126
  {
    seq(|s|, i requires 0 <= i < |s| => s[i] as int)
  }

  /** Printable US-ASCII, which is what headers allow raw. */
  predicate IsAscii(value: Text) {
    forall u | u in value :: 32 <= u <= 126
  }

  /** What `trim` strips and `\s` matches. */
  predicate IsSpace(u: Unit) {
    9 <= u <= 13 || u in {32, 0xA0, 0x1680, 0x2028, 0x2029, 0x202F, 0x205F, 0x3000, 0xFEFF} || 0x2000 <= u <= 0x200A
  }

  predicate IsWsp(u: Unit) {
    u == SP || u == TAB
  }

  function TrimStart(s: Text): Text {
    if s != [] && IsSpace(s[0]) then TrimStart(s[1..]) else s
  }

  function TrimEnd(s: Text): Text {
    if s != [] && IsSpace(s[|s| - 1]) then TrimEnd(s[..|s| - 1]) else s
  }

  function Trim(s: Text): Text {
    TrimEnd(TrimStart(s))
  }

  predicate Trimmed(s: Text) {
    s == [] || (!IsSpace(s[0]) && !IsSpace(s[|s| - 1]))
  }

  /** `trim` leaves a slice of its input with no white space at either end. */
  lemma {:induction false} TrimIs(s: Text)
    ensures Trimmed(Trim(s))
    ensures forall u | u in Trim(s) :: u in s
    ensures Trimmed(s) ==> Trim(s) == s
  {
    TrimStartIs(s);
    TrimEndIs(TrimStart(s));
  }

  lemma {:induction false} TrimStartIs(s: Text)
    ensures TrimStart(s) == [] || !IsSpace(TrimStart(s)[0])
    ensures forall u | u in TrimStart(s) :: u in s
  {
    if s != [] && IsSpace(s[0]) { TrimStartIs(s[1..]); }
  }

  lemma {:induction false} TrimEndIs(s: Text)
    ensures TrimEnd(s) <= s
    ensures TrimEnd(s) == [] || !IsSpace(TrimEnd(s)[|TrimEnd(s)| - 1])
  {
    if s != [] && IsSpace(s[|s| - 1]) { TrimEndIs(s[..|s| - 1]); }
  }

  lemma {:induction false} TrimStartFrom(s: Text) returns (i: nat)
    ensures i <= |s| && TrimStart(s) == s[i..] && forall k | 0 <= k < i :: IsSpace(s[k])
  {
    i := 0;
    if s != [] && IsSpace(s[0]) {
      var j := TrimStartFrom(s[1..]);
      i := j + 1;
      assert s[1..][j..] == s[i..];
      forall k | 0 <= k < i ensures IsSpace(s[k]) {
        if k > 0 { assert s[k] == s[1..][k - 1]; }
      }
    }
  }

  lemma {:induction false} TrimEndUpTo(s: Text) returns (j: nat)
    ensures j <= |s| && TrimEnd(s) == s[..j] && forall k | j <= k < |s| :: IsSpace(s[k])
  {
    j := |s|;
    if s != [] && IsSpace(s[|s| - 1]) {
      j := TrimEndUpTo(s[..|s| - 1]);
      assert s[..|s| - 1][..j] == s[..j];
    }
  }

  /** And only white space is lost at either end. */
  lemma {:induction false} TrimSlice(s: Text) returns (i: nat, j: nat)
    ensures i <= j <= |s| && Trim(s) == s[i..j]
    ensures forall k | 0 <= k < i || j <= k < |s| :: IsSpace(s[k])
  {
    i := TrimStartFrom(s);
    var n := TrimEndUpTo(s[i..]);
    j := i + n;
    assert s[i..][..n] == s[i..j];
    forall k | j <= k < |s| ensures IsSpace(s[k]) { assert s[k] == s[i..][k - i]; }
  }

  /** The first index of `u`, or the length. */
  function IndexOf(s: Text, u: Unit): (k: nat)
    ensures k <= |s|
  {
    if s == [] || s[0] == u then 0 else IndexOf(s[1..], u) + 1
  }

  lemma {:induction false} IndexOfIs(s: Text, u: Unit)
    ensures u !in s[..IndexOf(s, u)]
    ensures IndexOf(s, u) < |s| ==> s[IndexOf(s, u)] == u
  {
    if s != [] && s[0] != u {
      IndexOfIs(s[1..], u);
      assert s[..IndexOf(s, u)] == [s[0]] + s[1..][..IndexOf(s[1..], u)];
    }
  }

  lemma {:induction false} IndexOfAfter(a: Text, b: Text, u: Unit)
    requires u !in a && (b == [] || b[0] == u)
    ensures IndexOf(a + b, u) == |a|
  {
    if a != [] {
      assert (a + b)[1..] == a[1..] + b;
      IndexOfAfter(a[1..], b, u);
    } else {
      assert a + b == b;
    }
  }

  /** `Array.prototype.join`. */
  function Join(parts: seq<Text>, sep: Text): Text {
    if parts == [] then []
    else if |parts| == 1 then parts[0]
    else parts[0] + sep + Join(parts[1..], sep)
  }

  lemma {:induction false} JoinAppend(parts: seq<Text>, last: Text, sep: Text)
    requires parts != []
    ensures Join(parts + [last], sep) == Join(parts, sep) + sep + last
  {
    var all := parts + [last];
    if |parts| == 1 {
      assert all[1..] == [last];
    } else {
      assert all[1..] == parts[1..] + [last];
      JoinAppend(parts[1..], last, sep);
    }
  }

  lemma {:induction false} JoinConcat(a: seq<Text>, b: seq<Text>, sep: Text)
    requires a != [] && b != []
    ensures Join(a + b, sep) == Join(a, sep) + sep + Join(b, sep)
  {
    assert (a + b)[1..] == a[1..] + b;
    if |a| == 1 {
      assert (a + b)[1..] == b;
    } else {
      JoinConcat(a[1..], b, sep);
      assert Join(a + b, sep) == a[0] + sep + (Join(a[1..], sep) + sep + Join(b, sep));
    }
  }

  // ---- Code points ----

  predicate IsHigh(u: Unit) {
    0xD800 <= u < 0xDC00
  }

  predicate IsLow(u: Unit) {
    0xDC00 <= u < 0xE000
  }

  predicate IsSurrogate(c: CodePoint) {
    0xD800 <= c < 0xE000
  }

  /** Units taken by the character at the front, and its code point, as `for ... of` reads it. */
  function Width(s: Text): (n: nat)
    requires s != []
    ensures 1 <= n <= |s|
  {
    if |s| > 1 && IsHigh(s[0]) && IsLow(s[1]) then 2 else 1
  }

  function First(s: Text): CodePoint
    requires s != []
  {
    if Width(s) == 2 then 0x1_0000 + (s[0] as int - 0xD800) * 0x400 + (s[1] as int - 0xDC00) else s[0]
  }

  function CodePoints(s: Text): seq<CodePoint> {
    if s == [] then [] else [First(s)] + CodePoints(s[Width(s)..])
  }
}
