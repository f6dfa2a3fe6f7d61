/** UTF-8 and base64, byte for byte, with the decoders that read them back. */
module Encoding {
  import opened Common
  import opened Strings

  type Byte = b: int | 0 <= b < 256

  // ---- UTF-8 ----

  /** A lone surrogate has no encoding; it becomes U+FFFD. */
  function Scalar(c: CodePoint): CodePoint {
    if IsSurrogate(c) then 0xFFFD else c
  }

  function Scalars(cs: seq<CodePoint>): seq<CodePoint> {
    if cs == [] then [] else [Scalar(cs[0])] + Scalars(cs[1..])
  }

  function Utf8Of(c: CodePoint): (r: seq<Byte>)
    ensures 1 <= |r| <= 4
  {
    var s := Scalar(c);
    if s < 0x80 then [s]
    else if s < 0x800 then [0xC0 + s / 0x40, 0x80 + s % 0x40]
    else if s < 0x1_0000 then [0xE0 + s / 0x1000, 0x80 + s / 0x40 % 0x40, 0x80 + s % 0x40]
    else [0xF0 + s / 0x4_0000, 0x80 + s / 0x1000 % 0x40, 0x80 + s / 0x40 % 0x40, 0x80 + s % 0x40]
  }

  function Utf8(cs: seq<CodePoint>): seq<Byte> {
    if cs == [] then [] else Utf8Of(cs[0]) + Utf8(cs[1..])
  }

  function Extra(lead: Byte): Option<nat> {
    if lead < 0x80 then Some(0)
    else if 0xC2 <= lead < 0xE0 then Some(1)
    else if 0xE0 <= lead < 0xF0 then Some(2)
    else if 0xF0 <= lead < 0xF5 then Some(3)
    else None
  }

  predicate Continuation(b: Byte) {
    0x80 <= b < 0xC0
  }

  /** Six more bits: the byte without its marker. */
  function Pack(high: int, byte: int, marker: int): int {
    high * 0x40 + (byte - marker)
  }

  /** One character off the front, refusing overlong forms, surrogates and anything cut short. */
  function ReadChar(bytes: seq<Byte>): (r: Option<CodePoint>)
    requires bytes != []
    ensures r.Some? ==> Extra(bytes[0]).Some? && Extra(bytes[0]).value < |bytes|
  {
    var extra := Extra(bytes[0]);
    if extra.None? || extra.value >= |bytes| then None
    else if exists i :: 1 <= i <= extra.value && !Continuation(bytes[i]) then None
    else if extra.value == 0 then Some(bytes[0])
    else if extra.value == 1 then Some(Pack(Pack(0, bytes[0], 0xC0), bytes[1], 0x80))
    else if extra.value == 2 then
      var c := Pack(Pack(Pack(0, bytes[0], 0xE0), bytes[1], 0x80), bytes[2], 0x80);
      if c < 0x800 || IsSurrogate(c) then None else Some(c)
    else
      var c := Pack(Pack(Pack(Pack(0, bytes[0], 0xF0), bytes[1], 0x80), bytes[2], 0x80), bytes[3], 0x80);
      if c < 0x1_0000 || c >= 0x11_0000 then None else Some(c)
  }

  function DecodeUtf8(bytes: seq<Byte>): Option<seq<CodePoint>> {
    if bytes == [] then Some([])
    else
      var c := ReadChar(bytes);
      if c.None? then None
      else
        var rest := DecodeUtf8(bytes[Extra(bytes[0]).value + 1..]);
        if rest.None? then None else Some([c.value] + rest.value)
  }

  lemma Digits(c: nat)
    ensures Pack(c / 0x40, 0x80 + c % 0x40, 0x80) == c
    ensures c / 0x40 / 0x40 == c / 0x1000 && c / 0x1000 / 0x40 == c / 0x4_0000
  {}

  lemma {:induction false} ReadCharOf(c: CodePoint, rest: seq<Byte>)
    ensures Extra(Utf8Of(c)[0]) == Some(|Utf8Of(c)| - 1)
    ensures ReadChar(Utf8Of(c) + rest) == Some(Scalar(c))
  {
    var s: nat := Scalar(c);
    var bytes := Utf8Of(c);
    var all := bytes + rest;
    assert forall i | 0 <= i < |bytes| :: all[i] == bytes[i];
    Digits(s);
    Digits(s / 0x40);
    Digits(s / 0x1000);
    if 0x80 <= s < 0x800 {
      assert Pack(0, all[0], 0xC0) == s / 0x40;
    } else if 0x800 <= s < 0x1_0000 {
      assert Pack(0, all[0], 0xE0) == s / 0x1000;
      assert Pack(s / 0x1000, all[1], 0x80) == s / 0x40;
    } else if 0x1_0000 <= s {
      assert Pack(0, all[0], 0xF0) == s / 0x4_0000;
      assert Pack(s / 0x4_0000, all[1], 0x80) == s / 0x1000;
      assert Pack(s / 0x1000, all[2], 0x80) == s / 0x40;
    }
  }

  /** UTF-8 read back, each lone surrogate as U+FFFD. */
  lemma {:induction false} Utf8RoundTrip(cs: seq<CodePoint>)
    ensures DecodeUtf8(Utf8(cs)) == Some(Scalars(cs))
  {
    if cs != [] {
      ReadCharOf(cs[0], Utf8(cs[1..]));
      assert Utf8(cs)[|Utf8Of(cs[0])|..] == Utf8(cs[1..]);
      Utf8RoundTrip(cs[1..]);
    }
  }

  lemma {:induction false} Utf8Concat(a: seq<CodePoint>, b: seq<CodePoint>)
    ensures Utf8(a + b) == Utf8(a) + Utf8(b)
  {
    if a == [] {
      assert a + b == b;
    } else {
      assert (a + b)[1..] == a[1..] + b;
      Utf8Concat(a[1..], b);
    }
  }

  lemma {:induction false} ScalarsConcat(a: seq<CodePoint>, b: seq<CodePoint>)
    ensures Scalars(a + b) == Scalars(a) + Scalars(b)
  {
    if a == [] {
      assert a + b == b;
    } else {
      assert (a + b)[1..] == a[1..] + b;
      ScalarsConcat(a[1..], b);
    }
  }

  // ---- Base64 ----

  type Sextet = v: int | 0 <= v < 64

  function Letter(v: Sextet): Unit {
    if v < 26 then 65 + v
    else if v < 52 then 97 + (v - 26)
    else if v < 62 then 48 + (v - 52)
    else if v == 62 then 43
    else 47
  }

  function Value(u: Unit): Option<Sextet> {
    if 65 <= u < 91 then Some(u - 65)
    else if 97 <= u < 123 then Some(u - 97 + 26)
    else if 48 <= u < 58 then Some(u - 48 + 52)
    else if u == 43 then Some(62)
    else if u == 47 then Some(63)
    else None
  }

  lemma LetterRoundTrip(v: Sextet)
    ensures Value(Letter(v)) == Some(v)
  {}

  function Base64(bytes: seq<Byte>): Text {
    if bytes == [] then []
    else if |bytes| == 1 then [Letter(bytes[0] / 4), Letter(bytes[0] % 4 * 16), EQUALS, EQUALS]
    else if |bytes| == 2 then
      [Letter(bytes[0] / 4), Letter(bytes[0] % 4 * 16 + bytes[1] / 16), Letter(bytes[1] % 16 * 4), EQUALS]
    else
      [Letter(bytes[0] / 4), Letter(bytes[0] % 4 * 16 + bytes[1] / 16),
       Letter(bytes[1] % 16 * 4 + bytes[2] / 64), Letter(bytes[2] % 64)] + Base64(bytes[3..])
  }

  function Quantum(a: Unit, b: Unit, c: Unit, d: Unit): Option<seq<Byte>> {
    if Value(a).None? || Value(b).None? then None
    else
      var b0 := Value(a).value * 4 + Value(b).value / 16;
      if c == EQUALS && d == EQUALS then Some([b0])
      else if Value(c).None? then None
      else
        var b1 := Value(b).value % 16 * 16 + Value(c).value / 4;
        if d == EQUALS then Some([b0, b1])
        else if Value(d).None? then None
        else Some([b0, b1, Value(c).value % 4 * 64 + Value(d).value])
  }

  /** Whole quanta only, padding in the last one only. */
  function DecodeBase64(text: Text): Option<seq<Byte>> {
    if text == [] then Some([])
    else if |text| < 4 || (|text| > 4 && text[3] == EQUALS) then None
    else
      var first := Quantum(text[0], text[1], text[2], text[3]);
      var rest := DecodeBase64(text[4..]);
      if first.None? || rest.None? then None else Some(first.value + rest.value)
  }

  lemma QuantumOfOne(b0: Byte)
    ensures Quantum(Letter(b0 / 4), Letter(b0 % 4 * 16), EQUALS, EQUALS) == Some([b0])
  {
    LetterRoundTrip(b0 / 4);
    LetterRoundTrip(b0 % 4 * 16);
  }

  lemma QuantumOfTwo(b0: Byte, b1: Byte)
    ensures Quantum(Letter(b0 / 4), Letter(b0 % 4 * 16 + b1 / 16), Letter(b1 % 16 * 4), EQUALS) == Some([b0, b1])
  {
    LetterRoundTrip(b0 / 4);
    LetterRoundTrip(b0 % 4 * 16 + b1 / 16);
    LetterRoundTrip(b1 % 16 * 4);
  }

  /** 24 bits as three bytes and as four sextets. */
  lemma Bits(b0: Byte, b1: Byte, b2: Byte)
    ensures b0 / 4 * 4 + (b0 % 4 * 16 + b1 / 16) / 16 == b0
    ensures (b0 % 4 * 16 + b1 / 16) % 16 * 16 + (b1 % 16 * 4 + b2 / 64) / 4 == b1
    ensures (b1 % 16 * 4 + b2 / 64) % 4 * 64 + b2 % 64 == b2
  {}

  lemma LetterIsNotPadding(v: Sextet)
    ensures Letter(v) != EQUALS
  {}

  lemma {:induction false} QuantumOfThree(b0: Byte, b1: Byte, b2: Byte)
    ensures Quantum(Letter(b0 / 4), Letter(b0 % 4 * 16 + b1 / 16), Letter(b1 % 16 * 4 + b2 / 64), Letter(b2 % 64))
         == Some([b0, b1, b2])
    ensures Letter(b2 % 64) != EQUALS
  {
    LetterRoundTrip(b0 / 4);
    LetterRoundTrip(b0 % 4 * 16 + b1 / 16);
    LetterRoundTrip(b1 % 16 * 4 + b2 / 64);
    LetterRoundTrip(b2 % 64);
    LetterIsNotPadding(b1 % 16 * 4 + b2 / 64);
    LetterIsNotPadding(b2 % 64);
    Bits(b0, b1, b2);
  }

  lemma DecodeStep(a: Unit, b: Unit, c: Unit, d: Unit, rest: Text)
    requires Quantum(a, b, c, d).Some? && DecodeBase64(rest).Some? && (rest != [] ==> d != EQUALS)
    ensures DecodeBase64([a, b, c, d] + rest) == Some(Quantum(a, b, c, d).value + DecodeBase64(rest).value)
  {
    assert ([a, b, c, d] + rest)[4..] == rest;
  }

  lemma LastOne(b0: Byte)
    ensures DecodeBase64(Base64([b0])) == Some([b0])
  {
    QuantumOfOne(b0);
    DecodeStep(Letter(b0 / 4), Letter(b0 % 4 * 16), EQUALS, EQUALS, []);
    assert Base64([b0]) + [] == Base64([b0]) && [b0] + [] == [b0];
  }

  lemma LastTwo(b0: Byte, b1: Byte)
    ensures DecodeBase64(Base64([b0, b1])) == Some([b0, b1])
  {
    QuantumOfTwo(b0, b1);
    DecodeStep(Letter(b0 / 4), Letter(b0 % 4 * 16 + b1 / 16), Letter(b1 % 16 * 4), EQUALS, []);
    assert Base64([b0, b1]) + [] == Base64([b0, b1]) && [b0, b1] + [] == [b0, b1];
  }

  lemma {:induction false} NextThree(b0: Byte, b1: Byte, b2: Byte, rest: seq<Byte>)
    requires DecodeBase64(Base64(rest)) == Some(rest)
    ensures DecodeBase64(Base64([b0, b1, b2] + rest)) == Some([b0, b1, b2] + rest)
  {
    QuantumOfThree(b0, b1, b2);
    DecodeStep(Letter(b0 / 4), Letter(b0 % 4 * 16 + b1 / 16), Letter(b1 % 16 * 4 + b2 / 64), Letter(b2 % 64), Base64(rest));
    assert ([b0, b1, b2] + rest)[3..] == rest;
  }

  lemma {:induction false} Base64RoundTrip(bytes: seq<Byte>)
    ensures DecodeBase64(Base64(bytes)) == Some(bytes)
  {
    if |bytes| >= 3 {
      Base64RoundTrip(bytes[3..]);
      NextThree(bytes[0], bytes[1], bytes[2], bytes[3..]);
      assert bytes == [bytes[0], bytes[1], bytes[2]] + bytes[3..];
    } else if |bytes| == 2 {
      LastTwo(bytes[0], bytes[1]);
      assert bytes == [bytes[0], bytes[1]];
    } else if |bytes| == 1 {
      LastOne(bytes[0]);
      assert bytes == [bytes[0]];
    }
  }

  lemma {:induction false} Base64Length(bytes: seq<Byte>)
    ensures |Base64(bytes)| == 4 * ((|bytes| + 2) / 3)
  {
    if |bytes| >= 3 { Base64Length(bytes[3..]); }
  }

  predicate Base64Unit(u: Unit) {
    Value(u).Some? || u == EQUALS
  }

  lemma {:induction false} Base64Alphabet(bytes: seq<Byte>)
    ensures forall u | u in Base64(bytes) :: Base64Unit(u)
  {
    if |bytes| >= 3 {
      Base64Alphabet(bytes[3..]);
      assert forall u | u in Base64(bytes) :: u in Base64(bytes)[..4] || u in Base64(bytes[3..]);
    }
  }
}
