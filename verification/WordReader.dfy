/** The receiver of an unstructured header such as `Subject`: what it shows for the text, by the
    rules for encoded words in sections 2, 4 and 6 of RFC 2047. A word is recognised between
    white space only, in either encoding, with names in either case; white space between two
    words is not shown. A word may have 75 characters; how many a receiver puts up with is its
    own affair, since the sender can make 76.
 */
module WordReader {
  import opened Common
  import opened Strings
  import opened Encoding
  import opened EncodedWords

  const UNDERSCORE: Unit := 0x5F

  /** The characters some bytes stand for in a named charset, where the receiver has it. */
  type Charsets = (Text, seq<Byte>) -> Option<seq<CodePoint>>

  function Lower(name: Text): Text {
    seq(|name|, i requires 0 <= i < |name| => if 65 <= name[i] <= 90 then name[i] + 32 else name[i])
  }

  /** What is known of a receiver: its charsets, and the longest word it takes for one. */
  datatype Receiver = Receiver(charsets: Charsets, longest: nat)

  /** It has UTF-8 under its name in any case, and no charset of it makes more characters than
      bytes. What it makes of bytes that are not UTF-8 is not said. */
  ghost predicate Known(reader: Receiver) {
    && (forall name: Text, bytes: seq<Byte> ::
          Lower(name) == Lit("utf-8") && DecodeUtf8(bytes).Some? ==> reader.charsets(name, bytes) == DecodeUtf8(bytes))
    && (forall name: Text, bytes: seq<Byte> ::
          reader.charsets(name, bytes).Some? ==> |reader.charsets(name, bytes).value| <= |bytes|)
  }

  /** The charsets of the least such receiver. */
  function Utf8Only(name: Text, bytes: seq<Byte>): Option<seq<CodePoint>> {
    if Lower(name) == Lit("utf-8") then DecodeUtf8(bytes) else None
  }

  lemma {:induction false} CharactersAreFewer(bytes: seq<Byte>)
    requires DecodeUtf8(bytes).Some?
    ensures |DecodeUtf8(bytes).value| <= |bytes|
  {
    if bytes != [] { CharactersAreFewer(bytes[Extra(bytes[0]).value + 1..]); }
  }

  lemma Utf8OnlyIsKnown(longest: nat)
    ensures Known(Receiver(Utf8Only, longest))
  {
    forall name: Text, bytes: seq<Byte> | Utf8Only(name, bytes).Some?
      ensures |Utf8Only(name, bytes).value| <= |bytes|
    {
      CharactersAreFewer(bytes);
    }
  }

  function Hex(u: Unit): Option<int> {
    if 48 <= u <= 57 then Some(u - 48)
    else if 65 <= u <= 70 then Some(u - 55)
    else if 97 <= u <= 102 then Some(u - 87)
    else None
  }

  function ByteOf(high: Unit, low: Unit): Option<Byte> {
    if Hex(high).None? || Hex(low).None? then None else Some(16 * Hex(high).value + Hex(low).value)
  }

  /** Quoted-printable as words have it: an underscore is a space. */
  function DecodeQ(text: Text): Option<seq<Byte>> {
    if text == [] then Some([])
    else if text[0] == EQUALS then
      if |text| < 3 || ByteOf(text[1], text[2]).None? then None
      else
        var rest := DecodeQ(text[3..]);
        if rest.None? then None else Some([ByteOf(text[1], text[2]).value] + rest.value)
    else if 33 <= text[0] <= 126 then
      var rest := DecodeQ(text[1..]);
      if rest.None? then None else Some([if text[0] == UNDERSCORE then 32 else text[0]] + rest.value)
    else None
  }

  function DecodeLetters(encoding: Unit, text: Text): Option<seq<Byte>> {
    if encoding in {66, 98} then DecodeBase64(text)
    else if encoding in {81, 113} then DecodeQ(text)
    else None
  }

  function DecodeParts(reader: Receiver, name: Text, encoding: Unit, text: Text): Option<seq<CodePoint>> {
    var bytes := DecodeLetters(encoding, text);
    if bytes.None? then None else reader.charsets(name, bytes.value)
  }

  /** `=?` charset `?` encoding `?` text `?=`, where neither charset nor text is empty. */
  function DecodeToken(reader: Receiver, token: Text): Option<seq<CodePoint>> {
    if |token| < 2 || |token| > reader.longest || token[0] != EQUALS || token[1] != QUESTION then None
    else
      var body := token[2..];
      var i := IndexOf(body, QUESTION);
      if i == 0 || i + 3 > |body| || body[i + 2] != QUESTION then None
      else
        var letters := body[i + 3..];
        var j := IndexOf(letters, QUESTION);
        if j == 0 || j + 2 != |letters| || letters[j + 1] != EQUALS then None
        else DecodeParts(reader, body[..i], body[i + 1], letters[..j])
  }

  /** How far the text begins with white space, or without. */
  function Span(text: Text, white: bool): (n: nat)
    ensures n <= |text|
  {
    if text == [] || IsWsp(text[0]) != white then 0 else 1 + Span(text[1..], white)
  }

  /** A text cut after its first token, which is empty when the text is only white space. */
  datatype Cut = Cut(white: Text, token: Text, rest: Text)

  function CutOf(text: Text): (c: Cut)
    ensures c.white + (c.token + c.rest) == text
    ensures |c.white| + |c.token| + |c.rest| == |text|
  {
    var k := Span(text, true);
    var n := Span(text[k..], false);
    Cut(text[..k], text[k..][..n], text[k..][n..])
  }

  /** What is shown for an unfolded text; `afterWord` when an encoded word stands before it. */
  function Shown(reader: Receiver, text: Text, afterWord: bool): seq<CodePoint>
    decreases |text|
  {
    var c := CutOf(text);
    if c.token == [] then CodePoints(text)
    else
      var word := DecodeToken(reader, c.token);
      if word.Some? then
        (if afterWord then [] else CodePoints(c.white)) + (word.value + Shown(reader, c.rest, true))
      else CodePoints(c.white + c.token) + Shown(reader, c.rest, false)
  }

  function ReadHeaderText(reader: Receiver, raw: Text): seq<CodePoint> {
    Shown(reader, Unfold(raw), false)
  }

  /** The pieces between white space. */
  function Pieces(text: Text): seq<Text>
    decreases |text|
  {
    var c := CutOf(text);
    if c.token == [] then [] else [c.token] + Pieces(c.rest)
  }

  /** Some piece is an encoded word that the receiver can decode. */
  predicate HoldsWord(reader: Receiver, text: Text) {
    exists piece | piece in Pieces(text) :: DecodeToken(reader, piece).Some?
  }

  // ---- A decoded word is shorter ----

  lemma {:induction false} Base64Shorter(text: Text)
    requires DecodeBase64(text).Some?
    ensures |DecodeBase64(text).value| <= |text|
  {
    if text != [] { Base64Shorter(text[4..]); }
  }

  lemma {:induction false} QShorter(text: Text)
    requires DecodeQ(text).Some?
    ensures |DecodeQ(text).value| <= |text|
  {
    if text != [] { QShorter(if text[0] == EQUALS then text[3..] else text[1..]); }
  }

  lemma WordIsShorter(reader: Receiver, token: Text)
    requires Known(reader) && DecodeToken(reader, token).Some?
    ensures |DecodeToken(reader, token).value| < |token|
  {
    var body := token[2..];
    var i := IndexOf(body, QUESTION);
    var letters := body[i + 3..];
    var text := letters[..IndexOf(letters, QUESTION)];
    if body[i + 1] in {66, 98} { Base64Shorter(text); } else { QShorter(text); }
  }

  // ---- ASCII lines ----

  lemma AsciiTail(text: Text)
    requires IsAscii(text) && text != []
    ensures 32 <= text[0] <= 126 && IsAscii(text[1..])
  {
    assert text[0] in text && forall u | u in text[1..] :: u in text;
  }

  lemma {:induction false} AsciiCodePoints(text: Text)
    requires IsAscii(text)
    ensures |CodePoints(text)| == |text| && Scalars(CodePoints(text)) == CodePoints(text)
  {
    if text != [] {
      AsciiTail(text);
      AsciiCodePoints(text[1..]);
      assert CodePoints(text)[1..] == CodePoints(text[1..]);
    }
  }

  lemma AsciiHead(text: Text)
    requires text != [] && text[0] <= 126
    ensures CodePoints(text) == [text[0]] + CodePoints(text[1..])
  {}

  lemma {:induction false} AsciiConcat(a: Text, b: Text)
    requires IsAscii(a)
    ensures CodePoints(a + b) == CodePoints(a) + CodePoints(b)
  {
    if a == [] {
      assert a + b == b;
    } else {
      AsciiTail(a);
      AsciiHead(a);
      AsciiHead(a + b);
      assert (a + b)[1..] == a[1..] + b;
      AsciiConcat(a[1..], b);
      Associative([a[0]], CodePoints(a[1..]), CodePoints(b));
    }
  }

  lemma AsciiParts(a: Text, b: Text)
    requires IsAscii(a + b)
    ensures IsAscii(a) && IsAscii(b)
  {
    assert forall u | u in a || u in b :: u in a + b;
  }

  lemma AsciiCut(text: Text)
    requires IsAscii(text)
    ensures var c := CutOf(text);
      && IsAscii(c.white) && IsAscii(c.token) && IsAscii(c.rest) && IsAscii(c.white + c.token)
      && CodePoints(text) == CodePoints(c.white + c.token) + CodePoints(c.rest)
      && |CodePoints(c.white)| == |c.white| && |CodePoints(c.white + c.token)| == |c.white| + |c.token|
  {
    var c := CutOf(text);
    Associative(c.white, c.token, c.rest);
    AsciiParts(c.white + c.token, c.rest);
    AsciiParts(c.white, c.token);
    AsciiConcat(c.white + c.token, c.rest);
    AsciiCodePoints(c.white);
    AsciiCodePoints(c.white + c.token);
  }

  /** A printable line is shown as it is without a word in it, and shorter with one. */
  lemma {:induction false} ShownLine(reader: Receiver, text: Text, afterWord: bool)
    requires Known(reader) && IsAscii(text)
    ensures |Shown(reader, text, afterWord)| <= |text|
    ensures HoldsWord(reader, text) ==> |Shown(reader, text, afterWord)| < |text|
    ensures !HoldsWord(reader, text) ==> Shown(reader, text, afterWord) == CodePoints(text)
    decreases |text|
  {
    var c := CutOf(text);
    AsciiCut(text);
    if c.token == [] {
      AsciiCodePoints(text);
      assert Pieces(text) == [];
    } else if DecodeToken(reader, c.token).Some? {
      WordIsShorter(reader, c.token);
      assert Pieces(text)[0] == c.token;
      ShownLine(reader, c.rest, true);
    } else {
      HoldsRest(reader, text, c.token, c.rest);
      ShownLine(reader, c.rest, false);
    }
  }

  lemma HoldsRest(reader: Receiver, text: Text, token: Text, rest: Text)
    requires Pieces(text) == [token] + Pieces(rest) && DecodeToken(reader, token).None?
    ensures HoldsWord(reader, text) <==> HoldsWord(reader, rest)
  {
    forall piece ensures piece in Pieces(text) <==> piece == token || piece in Pieces(rest) {}
  }

  // ---- The words this sender makes ----

  function Token(name: Text, encoding: Unit, text: Text): Text {
    [EQUALS, QUESTION] + (name + ([QUESTION, encoding, QUESTION] + (text + [QUESTION, EQUALS])))
  }

  lemma QuestionAfter(part: Text, rest: Text)
    requires QUESTION !in part && rest != [] && rest[0] == QUESTION
    ensures IndexOf(part + rest, QUESTION) == |part|
    ensures (part + rest)[..|part|] == part && (part + rest)[|part|..] == rest
  {
    IndexOfAfter(part, rest, QUESTION);
  }

  lemma TokenDecodes(reader: Receiver, name: Text, encoding: Unit, text: Text)
    requires name != [] && text != [] && QUESTION !in name && QUESTION !in text
    requires |Token(name, encoding, text)| <= reader.longest
    ensures DecodeToken(reader, Token(name, encoding, text)) == DecodeParts(reader, name, encoding, text)
  {
    var end: Text := [QUESTION, EQUALS];
    var letters := text + end;
    var middle := [QUESTION, encoding, QUESTION] + letters;
    var body := name + middle;
    QuestionAfter(name, middle);
    QuestionAfter(text, end);
    assert Token(name, encoding, text)[2..] == body;
    assert body[|name| + 3..] == middle[3..] == letters;
    assert body[|name| + 1] == middle[1] && body[|name| + 2] == middle[2];
  }

  lemma TokenShape(name: Text, encoding: Unit, text: Text)
    requires 33 <= encoding <= 126 && forall u | u in name || u in text :: 33 <= u <= 126
    ensures var token := Token(name, encoding, text);
      |token| == |name| + |text| + 7 && token[0] == EQUALS == token[|token| - 1] && forall u | u in token :: 33 <= u <= 126
  {
    forall u | u in Token(name, encoding, text) ensures 33 <= u <= 126 {
      assert u in [EQUALS, QUESTION] || u in name || u in [QUESTION, encoding, QUESTION] || u in text || u in [QUESTION, EQUALS];
    }
  }

  const UTF8_NAME: Text := [85, 84, 70, 45, 56]

  lemma NameIsUtf8()
    ensures Lower(UTF8_NAME) == Lit("utf-8") == Lower(Lit("utf-8"))
  {}

  lemma {:induction false} WordDecodes(reader: Receiver, chunk: seq<CodePoint>)
    requires Known(reader) && chunk != [] && |Word(chunk)| <= reader.longest
    ensures DecodeToken(reader, Word(chunk)) == Some(Scalars(chunk))
  {
    var bytes := Utf8(chunk);
    var letters := Base64(bytes);
    Utf8Empty(chunk);
    Base64Length(bytes);
    Base64Alphabet(bytes);
    Base64RoundTrip(bytes);
    Utf8RoundTrip(chunk);
    NameIsUtf8();
    assert QUESTION !in letters by { assert !Base64Unit(QUESTION); }
    assert Word(chunk) == Token(UTF8_NAME, 66, letters);
    TokenDecodes(reader, UTF8_NAME, 66, letters);
  }

  lemma WordHasNoWhite(chunk: seq<CodePoint>)
    ensures forall u | u in Word(chunk) :: !IsWsp(u)
  {
    var letters := Base64(Utf8(chunk));
    Base64Alphabet(Utf8(chunk));
    forall u | u in Wrap(letters) ensures !IsWsp(u) {
      assert u in PREFIX || u in letters || u in SUFFIX;
      if u in letters { assert Base64Unit(u); }
    }
  }

  lemma {:induction false} SpanOf(first: Text, rest: Text, white: bool)
    requires (forall u | u in first :: IsWsp(u) == white) && (rest == [] || IsWsp(rest[0]) != white)
    ensures Span(first + rest, white) == |first|
  {
    if first != [] {
      assert first[0] in first && (first + rest)[1..] == first[1..] + rest;
      SpanOf(first[1..], rest, white);
    } else {
      assert first + rest == rest;
    }
  }

  lemma CutIs(white: Text, token: Text, rest: Text)
    requires (forall u | u in white :: IsWsp(u)) && (forall u | u in token :: !IsWsp(u)) && token != []
    requires rest == [] || IsWsp(rest[0])
    ensures CutOf(white + (token + rest)) == Cut(white, token, rest)
  {
    var text := white + (token + rest);
    assert token[0] in token && (token + rest)[0] == token[0];
    SpanOf(white, token + rest, true);
    assert text[..|white|] == white && text[|white|..] == token + rest;
    SpanOf(token, rest, false);
    assert (token + rest)[..|token|] == token && (token + rest)[|token|..] == rest;
  }

  lemma PiecesCut(text: Text, white: Text, token: Text, rest: Text)
    requires (forall u | u in white :: IsWsp(u)) && (forall u | u in token :: !IsWsp(u)) && token != []
    requires (rest == [] || IsWsp(rest[0])) && text == white + (token + rest)
    ensures Pieces(text) == [token] + Pieces(rest)
  {
    CutIs(white, token, rest);
  }

  lemma HoldsFirst(reader: Receiver, text: Text, token: Text, rest: Text)
    requires Pieces(text) == [token] + Pieces(rest)
    ensures DecodeToken(reader, token).Some? || HoldsWord(reader, rest) ==> HoldsWord(reader, text)
  {
    forall piece | piece == token || piece in Pieces(rest) ensures piece in Pieces(text) {}
  }

  /** A word is held by a text when it is all of it... */
  lemma HoldsAlone(reader: Receiver, word: Text)
    requires (forall u | u in word :: !IsWsp(u)) && word != [] && DecodeToken(reader, word).Some?
    ensures HoldsWord(reader, word)
  {
    assert word == [] + (word + []);
    PiecesCut(word, [], word, []);
    HoldsFirst(reader, word, word, []);
  }

  lemma HoldsSpaced(reader: Receiver, word: Text)
    requires (forall u | u in word :: !IsWsp(u)) && word != [] && DecodeToken(reader, word).Some?
    ensures HoldsWord(reader, [SP] + word)
  {
    var text := [SP] + word;
    assert text == [SP] + (word + []);
    PiecesCut(text, [SP], word, []);
    HoldsFirst(reader, text, word, []);
  }

  /** ...and when it follows another piece. */
  lemma HoldsAfter(reader: Receiver, before: Text, word: Text)
    requires (forall u | u in before :: !IsWsp(u)) && (forall u | u in word :: !IsWsp(u))
    requires before != [] && word != [] && DecodeToken(reader, word).Some?
    ensures HoldsWord(reader, before + ([SP] + word))
  {
    var tail := [SP] + word;
    var text := before + tail;
    HoldsSpaced(reader, word);
    assert text == [] + (before + tail);
    PiecesCut(text, [], before, tail);
    HoldsFirst(reader, text, before, tail);
  }

  /** One word at the front, alone or with a space between it and the word before. */
  lemma ShownWord(reader: Receiver, word: Text, rest: Text)
    requires word != [] && (forall u | u in word :: !IsWsp(u)) && (rest == [] || IsWsp(rest[0]))
    requires DecodeToken(reader, word).Some?
    ensures Shown(reader, word + rest, false) == DecodeToken(reader, word).value + Shown(reader, rest, true)
    ensures Shown(reader, [SP] + (word + rest), true) ==
      DecodeToken(reader, word).value + Shown(reader, rest, true)
  {
    CutIs([], word, rest);
    assert [] + (word + rest) == word + rest;
    CutIs([SP], word, rest);
    var tail := DecodeToken(reader, word).value + Shown(reader, rest, true);
    assert CodePoints([]) + tail == tail && [] + tail == tail;
  }

  lemma JoinWords(chunks: seq<seq<CodePoint>>)
    requires |chunks| > 1
    ensures Join(Words(chunks), [SP]) == Word(chunks[0]) + ([SP] + Join(Words(chunks[1..]), [SP]))
    ensures Flatten(chunks) == chunks[0] + Flatten(chunks[1..])
  {
    assert Words(chunks)[1..] == Words(chunks[1..]);
    Associative(Word(chunks[0]), [SP], Join(Words(chunks[1..]), [SP]));
  }

  /** A text of words reads as `shown`, at the start and after another word. */
  predicate Reads(reader: Receiver, text: Text, shown: seq<CodePoint>) {
    Shown(reader, text, false) == shown && Shown(reader, [SP] + text, true) == shown
  }

  lemma ReadsOne(reader: Receiver, chunk: seq<CodePoint>)
    requires Known(reader) && chunk != [] && |Word(chunk)| <= reader.longest
    ensures Reads(reader, Word(chunk), Scalars(chunk))
  {
    WordDecodes(reader, chunk);
    WordHasNoWhite(chunk);
    ShownWord(reader, Word(chunk), []);
    assert Word(chunk) + [] == Word(chunk);
    assert Shown(reader, [], true) == [];
    assert Scalars(chunk) + [] == Scalars(chunk);
  }

  lemma ReadsMore(reader: Receiver, chunk: seq<CodePoint>, text: Text, shown: seq<CodePoint>)
    requires Known(reader) && chunk != [] && |Word(chunk)| <= reader.longest && Reads(reader, text, shown)
    ensures Reads(reader, Word(chunk) + ([SP] + text), Scalars(chunk) + shown)
  {
    WordDecodes(reader, chunk);
    WordHasNoWhite(chunk);
    ShownWord(reader, Word(chunk), [SP] + text);
  }

  lemma FlattenMore(chunks: seq<seq<CodePoint>>)
    requires chunks != []
    ensures Scalars(Flatten(chunks)) == Scalars(chunks[0]) + Scalars(Flatten(chunks[1..]))
  {
    var rest := Flatten(chunks[1..]);
    assert Flatten(chunks) == chunks[0] + rest;
    ScalarsConcat(chunks[0], rest);
  }

  lemma FlattenOne(chunks: seq<seq<CodePoint>>)
    requires |chunks| == 1
    ensures Flatten(chunks) == chunks[0] && Join(Words(chunks), [SP]) == Word(chunks[0]) == Word(chunks[0]) + []
  {
    assert chunks[1..] == [] && chunks[0] + [] == chunks[0];
  }

  lemma {:induction false} ReadsAll(reader: Receiver, chunks: seq<seq<CodePoint>>) returns (text: Text, shown: seq<CodePoint>)
    requires Known(reader) && chunks != []
    requires forall i | 0 <= i < |chunks| :: chunks[i] != [] && |Word(chunks[i])| <= reader.longest
    ensures text == Join(Words(chunks), [SP]) && shown == Scalars(Flatten(chunks)) && Reads(reader, text, shown)
    decreases chunks
  {
    if |chunks| == 1 {
      FlattenOne(chunks);
      ReadsOne(reader, chunks[0]);
      text, shown := Word(chunks[0]), Scalars(chunks[0]);
    } else {
      JoinWords(chunks);
      FlattenMore(chunks);
      text, shown := ReadsAll(reader, chunks[1..]);
      ReadsMore(reader, chunks[0], text, shown);
      text, shown := Word(chunks[0]) + ([SP] + text), Scalars(chunks[0]) + shown;
    }
  }

  // ---- Words the receiver finds too long ----

  lemma {:induction false} ScalarsLength(cs: seq<CodePoint>)
    ensures |Scalars(cs)| == |cs| && |Utf8(cs)| >= |cs|
  {
    if cs != [] { ScalarsLength(cs[1..]); }
  }

  /** A word left as it is takes more room than the characters it stands for. */
  lemma WordIsLonger(lead: Text, chunk: seq<CodePoint>)
    requires lead == [] || lead == [SP]
    ensures |CodePoints(lead + Word(chunk))| > |chunk|
  {
    WordHasNoWhite(chunk);
    WordIsAscii(chunk);
    AsciiCodePoints(lead + Word(chunk));
    WordLength(chunk);
    ScalarsLength(chunk);
  }

  lemma WordIsAscii(chunk: seq<CodePoint>)
    ensures IsAscii(Word(chunk)) && IsAscii([SP] + Word(chunk)) && IsAscii([] + Word(chunk))
  {
    var letters := Base64(Utf8(chunk));
    Base64Alphabet(Utf8(chunk));
    forall u | u in Wrap(letters) ensures 32 <= u <= 126 {
      assert u in PREFIX || u in letters || u in SUFFIX;
      if u in letters { assert Base64Unit(u); }
    }
  }

  predicate TooLong(reader: Receiver, chunk: seq<CodePoint>) {
    |Word(chunk)| > reader.longest
  }

  predicate Refused(reader: Receiver, chunks: seq<seq<CodePoint>>) {
    exists i :: 0 <= i < |chunks| && TooLong(reader, chunks[i])
  }

  /** What is shown for `text`, after `lead`, has at least `n` characters. */
  predicate ShowsAtLeast(reader: Receiver, lead: Text, text: Text, afterWord: bool, n: nat) {
    |Shown(reader, lead + text, afterWord)| >= n
  }

  /** Showing a text begins with its first token. */
  lemma ShownCut(reader: Receiver, white: Text, token: Text, rest: Text, afterWord: bool)
    requires (forall u | u in white :: IsWsp(u)) && (forall u | u in token :: !IsWsp(u)) && token != []
    requires rest == [] || IsWsp(rest[0])
    ensures var word := DecodeToken(reader, token);
      Shown(reader, white + (token + rest), afterWord) ==
        if word.Some? then (if afterWord then [] else CodePoints(white)) + (word.value + Shown(reader, rest, true))
        else CodePoints(white + token) + Shown(reader, rest, false)
  {
    CutIs(white, token, rest);
  }

  /** One word at the front: it shows as much as it stands for, and more when it is too long. */
  lemma ShownFront(reader: Receiver, lead: Text, chunk: seq<CodePoint>, rest: Text, afterWord: bool, n: nat)
    requires Known(reader) && chunk != [] && (lead == [] || lead == [SP]) && (rest == [] || IsWsp(rest[0]))
    requires |Shown(reader, rest, !TooLong(reader, chunk))| >= n
    ensures ShowsAtLeast(reader, lead, Word(chunk) + rest, afterWord,
                         |chunk| + n + if TooLong(reader, chunk) then 1 else 0)
  {
    var word := Word(chunk);
    WordHasNoWhite(chunk);
    WordLength(chunk);
    ShownCut(reader, lead, word, rest, afterWord);
    if TooLong(reader, chunk) {
      WordIsLonger(lead, chunk);
      assert DecodeToken(reader, word).None?;
    } else {
      WordDecodes(reader, chunk);
      ScalarsLength(chunk);
    }
  }

  lemma ShownMore(reader: Receiver, lead: Text, chunk: seq<CodePoint>, text: Text, afterWord: bool, n: nat)
    requires Known(reader) && chunk != [] && (lead == [] || lead == [SP])
    requires ShowsAtLeast(reader, [SP], text, !TooLong(reader, chunk), n)
    ensures ShowsAtLeast(reader, lead, Word(chunk) + ([SP] + text), afterWord,
                         |chunk| + n + if TooLong(reader, chunk) then 1 else 0)
  {
    ShownFront(reader, lead, chunk, [SP] + text, afterWord, n);
  }

  lemma {:induction false} ShownLonger(reader: Receiver, lead: Text, chunks: seq<seq<CodePoint>>, afterWord: bool)
      returns (text: Text, n: nat)
    requires Known(reader) && chunks != [] && (lead == [] || lead == [SP])
    requires forall i | 0 <= i < |chunks| :: chunks[i] != []
    ensures text == Join(Words(chunks), [SP]) && ShowsAtLeast(reader, lead, text, afterWord, n)
    ensures n >= |Flatten(chunks)| + if Refused(reader, chunks) then 1 else 0
    decreases chunks
  {
    RefusedRest(reader, chunks);
    var extra := if TooLong(reader, chunks[0]) then 1 else 0;
    if |chunks| == 1 {
      FlattenOne(chunks);
      ShownFront(reader, lead, chunks[0], [], afterWord, 0);
      text, n := Word(chunks[0]) + [], |chunks[0]| + 0 + extra;
    } else {
      JoinWords(chunks);
      text, n := ShownLonger(reader, [SP], chunks[1..], !TooLong(reader, chunks[0]));
      ShownMore(reader, lead, chunks[0], text, afterWord, n);
      text, n := Word(chunks[0]) + ([SP] + text), |chunks[0]| + n + extra;
    }
  }

  lemma RefusedRest(reader: Receiver, chunks: seq<seq<CodePoint>>)
    requires chunks != []
    ensures Refused(reader, chunks) ==> TooLong(reader, chunks[0]) || Refused(reader, chunks[1..])
    ensures |Flatten(chunks)| == |chunks[0]| + |Flatten(chunks[1..])|
  {
    if Refused(reader, chunks) {
      var i :| 0 <= i < |chunks| && TooLong(reader, chunks[i]);
      if i > 0 { assert chunks[1..][i - 1] == chunks[i]; }
    }
  }

  lemma JoinedUnfolds(value: Text)
    ensures Unfold(EncodeWord(value)) == Join(Words(Chunks(value)), [SP])
  {
    var chunks := Chunks(value);
    var words := Words(chunks);
    forall word | word in words ensures CR !in word {
      var i :| 0 <= i < |words| && words[i] == word;
      WordHasNoBreak(chunks[i]);
    }
    UnfoldJoin(words);
  }

  /** A value sent as encoded words is shown as the value, whatever it holds, if and only if the
      receiver takes every one of them for a word. */
  lemma {:induction false} WordsAreShown(reader: Receiver, value: Text)
    requires Known(reader) && value != []
    ensures ReadHeaderText(reader, EncodeWord(value)) == Scalars(CodePoints(value)) <==> !Refused(reader, Chunks(value))
  {
    var chunks := Chunks(value);
    ChunksPartition(value);
    forall i | 0 <= i < |chunks| ensures chunks[i] != [] { assert Fits(chunks[i]); }
    JoinedUnfolds(value);
    if Refused(reader, chunks) {
      var text, n := ShownLonger(reader, [], chunks, false);
      assert [] + text == text;
      ScalarsLength(CodePoints(value));
    } else {
      assert forall i | 0 <= i < |chunks| :: !TooLong(reader, chunks[i]);
      var text, shown := ReadsAll(reader, chunks);
    }
  }

  /** Every receiver that puts up with 76 characters takes all words; one that keeps to the 75
      of the standard refuses exactly those of 46 or 47 bytes. */
  lemma RefusedAre(reader: Receiver, value: Text)
    ensures reader.longest >= 76 ==> !Refused(reader, Chunks(value))
    ensures reader.longest == 75 ==>
      (Refused(reader, Chunks(value)) <==> exists i :: 0 <= i < |Chunks(value)| && |Utf8(Chunks(value)[i])| >= 46)
  {
    var chunks := Chunks(value);
    forall i | 0 <= i < |chunks| ensures |Word(chunks[i])| <= 76 && (|Word(chunks[i])| > 75 <==> |Utf8(chunks[i])| >= 46) {
      WordLimit(value, i);
      assert Words(chunks)[i] == Word(chunks[i]);
    }
    assert forall i | 0 <= i < |chunks| :: TooLong(reader, chunks[i]) <==> |Word(chunks[i])| > reader.longest;
  }
}
