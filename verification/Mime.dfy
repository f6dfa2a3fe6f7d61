/** `buildMimeMessage` (`apps/api/src/providers/gmail/mime.ts`) and the reader that takes the
    message apart again: no value can add, drop or move a header, and both bodies come back.
 */
module Mime {
  import opened Common
  import opened Strings
  import opened Encoding
  import opened EncodedWords
  import opened WordReader

  datatype Error = NoRecipients | InvalidEmail(email: Text) | IllegalLineBreak(field: Text)

  type Result<+T> = Common.Result<T, Error>

  datatype MimeAddress = MimeAddress(name: Option<Text>, email: Text)

  datatype MimeMessageInput = MimeMessageInput(
    from: MimeAddress, recipients: seq<MimeAddress>, cc: seq<MimeAddress>, bcc: seq<MimeAddress>,
    subject: Text, text: Text, html: Text, inReplyTo: Option<Text>, references: seq<Text>)

  const WIDTH: nat := 78

  // ---- Header safety ----

  predicate HeaderSafe(value: Text) {
    CR !in value && LF !in value && NUL !in value
  }

  predicate FoldedHeaderSafe(value: Text) {
    HeaderSafe(Unfold(value))
  }

  /** The check lets through folds and no other line break. */
  lemma {:induction false} SafeIsTame(value: Text)
    requires FoldedHeaderSafe(value)
    ensures Tame(value)
  {
    if value != [] {
      var fold := |value| >= 3 && value[0] == CR && value[1] == LF && IsWsp(value[2]);
      var n := if fold then 3 else 1;
      var rest := value[n..];
      assert Unfold(value)[1..] == Unfold(rest);
      assert FoldedHeaderSafe(rest);
      SafeIsTame(rest);
      assert Unfold(value)[0] in Unfold(value);
      forall i | 0 <= i < |value| && value[i] == CR ensures i + 2 < |value| && value[i + 1] == LF && IsWsp(value[i + 2]) {
        if i >= n { assert rest[i - n] == CR; }
      }
    }
  }

  lemma PlainIsSafe(value: Text)
    requires HeaderSafe(value)
    ensures FoldedHeaderSafe(value) && Tame(value)
  {
    UnfoldPlain(value);
    assert forall i | 0 <= i < |value| :: value[i] in value;
  }

  lemma {:induction false} TameConcat(a: Text, b: Text)
    requires Tame(a) && Tame(b)
    ensures Tame(a + b)
  {
    forall i | 0 <= i < |a + b| && (a + b)[i] == CR
      ensures i + 2 < |a + b| && (a + b)[i + 1] == LF && IsWsp((a + b)[i + 2])
    {
      if i < |a| { assert a[i] == CR; } else { assert b[i - |a|] == CR; }
    }
  }

  /** Safety of a concatenation is the safety of its parts. */
  lemma SafeConcat(a: Text, b: Text)
    requires Tame(a)
    ensures FoldedHeaderSafe(a + b) <==> FoldedHeaderSafe(a) && FoldedHeaderSafe(b)
  {
    UnfoldConcat(a, b);
  }

  // ---- Addresses ----

  /** What an address may be made of. */
  predicate Plain(u: Unit) {
    !IsSpace(u) && u !in {LESS, GREATER, COMMA, 0x3B, COLON, QUOTE, LPAREN, RPAREN, 0x5B, 0x5D, BACKSLASH}
  }

  predicate ValidEmail(email: Text) {
    && (forall u | u in email :: Plain(u))
    && exists i, j :: 1 <= i < |email| && email[i] == AT && i + 2 <= j < |email| - 1 && email[j] == DOT
  }

  /** Three non-empty texts with an at sign and a dot between them. */
  predicate IsAddress(email: Text, local: Text, domain: Text, top: Text) {
    local != [] && domain != [] && top != [] && email == local + ([AT] + (domain + ([DOT] + top)))
  }

  /** An email is well-formed when it is such an address of plain characters. */
  lemma EmailShape(email: Text)
    ensures ValidEmail(email) <==>
      (forall u | u in email :: Plain(u))
      && exists local: Text, domain: Text, top: Text :: IsAddress(email, local, domain, top)
  {
    if local: Text, domain: Text, top: Text :| IsAddress(email, local, domain, top) {
      var i, j := |local|, |local| + 1 + |domain|;
      assert email[i] == AT && email[j] == DOT;
    }
    if ValidEmail(email) {
      var i, j :| 1 <= i < |email| && email[i] == AT && i + 2 <= j < |email| - 1 && email[j] == DOT;
      assert IsAddress(email, email[..i], email[i + 1..j], email[j + 1..]);
    }
  }

  function Escape(name: Text): Text {
    if name == [] then []
    else (if name[0] == QUOTE || name[0] == BACKSLASH then [BACKSLASH, name[0]] else [name[0]]) + Escape(name[1..])
  }

  function EncodeDisplayName(name: Text): Text {
    if !IsAscii(name) then EncodeWord(name) else [QUOTE] + Escape(name) + [QUOTE]
  }

  function FormatMimeAddress(address: MimeAddress): Result<Text> {
    var email := Trim(address.email);
    if !ValidEmail(email) then Err(InvalidEmail(email))
    else if address.name.None? || Trim(address.name.value) == [] then Ok(email)
    else if !HeaderSafe(Trim(address.name.value)) then Err(IllegalLineBreak(Lit("display name")))
    else Ok(EncodeDisplayName(Trim(address.name.value)) + [SP, LESS] + email + [GREATER])
  }

  function FormatAll(addresses: seq<MimeAddress>): Result<seq<Text>> {
    if addresses == [] then Ok([])
    else
      var first := FormatMimeAddress(addresses[0]);
      if first.Err? then Err(first.error)
      else
        var rest := FormatAll(addresses[1..]);
        if rest.Err? then rest else Ok([first.value] + rest.value)
  }

  /** The caller's side of it: a well-formed email and a name without line breaks. */
  predicate GoodAddress(a: MimeAddress) {
    ValidEmail(Trim(a.email)) && (a.name.Some? ==> HeaderSafe(Trim(a.name.value)))
  }

  lemma {:induction false} EscapeSafe(name: Text)
    requires HeaderSafe(name)
    ensures HeaderSafe(Escape(name))
  {
    if name != [] { EscapeSafe(name[1..]); }
  }

  lemma {:induction false} WordsSafe(value: Text)
    ensures FoldedHeaderSafe(EncodeWord(value)) && Tame(EncodeWord(value))
  {
    var words := Words(Chunks(value));
    forall w | w in words ensures NoBreak(w) {
      var i :| 0 <= i < |words| && words[i] == w;
      WordHasNoBreak(Chunks(value)[i]);
    }
    UnfoldJoin(words);
    JoinNoBreak(words);
  }

  lemma {:induction false} JoinNoBreak(lines: seq<Text>)
    requires forall line | line in lines :: NoBreak(line)
    ensures HeaderSafe(Join(lines, [SP]))
  {
    if lines != [] {
      assert NoBreak(lines[0]);
      JoinNoBreak(lines[1..]);
    }
  }

  lemma NameSafe(name: Text)
    requires HeaderSafe(name)
    ensures FoldedHeaderSafe(EncodeDisplayName(name)) && Tame(EncodeDisplayName(name))
  {
    if IsAscii(name) {
      EscapeSafe(name);
      PlainIsSafe([QUOTE] + Escape(name) + [QUOTE]);
    } else {
      WordsSafe(name);
    }
  }

  /** A good address is formatted, and the result is header-safe unless the email hides a NUL. */
  lemma AddressFormats(a: MimeAddress)
    ensures FormatMimeAddress(a).Ok? <==> GoodAddress(a)
    ensures GoodAddress(a) ==> Tame(FormatMimeAddress(a).value)
    ensures GoodAddress(a) ==> (FoldedHeaderSafe(FormatMimeAddress(a).value) <==> NUL !in Trim(a.email))
  {
    var email := Trim(a.email);
    if GoodAddress(a) {
      assert CR !in email && LF !in email by { assert !Plain(CR) && !Plain(LF); }
      UnfoldPlain(email);
      assert Tame(email) by { assert forall i | 0 <= i < |email| :: email[i] in email; }
      if a.name.Some? && Trim(a.name.value) != [] {
        var name := EncodeDisplayName(Trim(a.name.value));
        NameSafe(Trim(a.name.value));
        var open, close: Text := [SP, LESS], [GREATER];
        PlainIsSafe(open);
        PlainIsSafe(close);
        TameConcat(name, open);
        SafeConcat(name, open);
        TameConcat(name + open, email);
        SafeConcat(name + open, email);
        TameConcat(name + open + email, close);
        SafeConcat(name + open + email, close);
      }
    }
  }

  lemma {:induction false} AllFormat(addresses: seq<MimeAddress>)
    ensures FormatAll(addresses).Ok? <==> forall a | a in addresses :: GoodAddress(a)
    ensures FormatAll(addresses).Ok? ==> |FormatAll(addresses).value| == |addresses|
  {
    if addresses != [] {
      AddressFormats(addresses[0]);
      AllFormat(addresses[1..]);
      assert forall a :: a in addresses <==> a == addresses[0] || a in addresses[1..];
    }
  }

  const COMMA_SP: Text := [COMMA, SP]

  lemma {:induction false} ListSafe(addresses: seq<MimeAddress>)
    requires FormatAll(addresses).Ok?
    ensures Tame(Join(FormatAll(addresses).value, COMMA_SP))
    ensures FoldedHeaderSafe(Join(FormatAll(addresses).value, COMMA_SP))
        <==> forall a | a in addresses :: NUL !in Trim(a.email)
  {
    if addresses != [] {
      var first, rest := addresses[0], addresses[1..];
      AddressFormats(first);
      ListSafe(rest);
      AllFormat(rest);
      assert forall a :: a in addresses <==> a == first || a in rest;
      var text, tail := FormatMimeAddress(first).value, Join(FormatAll(rest).value, COMMA_SP);
      assert FormatAll(addresses).value[1..] == FormatAll(rest).value;
      if rest != [] {
        PlainIsSafe(COMMA_SP);
        TameConcat(text, COMMA_SP);
        SafeConcat(text, COMMA_SP);
        TameConcat(text + COMMA_SP, tail);
        SafeConcat(text + COMMA_SP, tail);
      }
    }
  }

  // ---- Subject ----

  predicate IsBreak(u: Unit) {
    u == CR || u == LF
  }

  /** Each run of line breaks becomes one space. */
  function CollapseBreaks(s: Text): Text {
    if s == [] then []
    else if !IsBreak(s[0]) then [s[0]] + CollapseBreaks(s[1..])
    else if |s| > 1 && IsBreak(s[1]) then CollapseBreaks(s[1..])
    else [SP] + CollapseBreaks(s[1..])
  }

  function WithoutNul(s: Text): Text {
    if s == [] then [] else (if s[0] == NUL then [] else [s[0]]) + WithoutNul(s[1..])
  }

  function SingleLine(subject: Text): Text {
    Trim(WithoutNul(CollapseBreaks(subject)))
  }

  function FoldSubject(subject: Text): Text {
    var single := SingleLine(subject);
    if IsAscii(single) then single else EncodeWord(single)
  }

  lemma {:induction false} CollapseSafe(s: Text)
    ensures CR !in CollapseBreaks(s) && LF !in CollapseBreaks(s)
  {
    if s != [] { CollapseSafe(s[1..]); }
  }

  lemma {:induction false} WithoutNulSafe(s: Text)
    ensures NUL !in WithoutNul(s) && forall u | u in WithoutNul(s) :: u in s
  {
    if s != [] { WithoutNulSafe(s[1..]); }
  }

  lemma SubjectSafe(subject: Text)
    ensures HeaderSafe(SingleLine(subject))
    ensures FoldedHeaderSafe(FoldSubject(subject)) && Tame(FoldSubject(subject))
  {
    CollapseSafe(subject);
    WithoutNulSafe(CollapseBreaks(subject));
    TrimIs(WithoutNul(CollapseBreaks(subject)));
    if IsAscii(SingleLine(subject)) {
      PlainIsSafe(SingleLine(subject));
    } else {
      WordsSafe(SingleLine(subject));
    }
  }

  /** A receiver reads the typed subject, its line breaks collapsed, exactly when it is either
      an ASCII line without an encoded word the receiver would decode, between white space (the
      line is sent raw), or not ASCII and sent as words none of which is too long for it. */
  lemma {:induction false} SubjectReadsBack(reader: Receiver, subject: Text)
    requires Known(reader)
    ensures var single := SingleLine(subject);
      ReadHeaderText(reader, FoldSubject(subject)) == Scalars(CodePoints(single))
      <==> if IsAscii(single) then !HoldsWord(reader, single) else !Refused(reader, Chunks(single))
  {
    var single := SingleLine(subject);
    if IsAscii(single) {
      UnfoldPlain(single);
      AsciiCodePoints(single);
      ShownLine(reader, single, false);
    } else {
      WordsAreShown(reader, single);
    }
  }

  /** No line break and no NUL. */
  predicate OnOneLine(s: Text) {
    forall u | u in s :: !IsBreak(u) && u != NUL
  }

  lemma {:induction false} CollapseNothing(s: Text)
    requires OnOneLine(s)
    ensures CollapseBreaks(s) == s && WithoutNul(s) == s
  {
    if s != [] {
      assert s[0] in s && forall u | u in s[1..] :: u in s;
      CollapseNothing(s[1..]);
      assert [s[0]] + s[1..] == s;
    }
  }

  /** A subject on one line loses nothing but white space around it. */
  lemma SingleLineKept(s: Text)
    requires OnOneLine(s)
    ensures SingleLine(s) == Trim(s) && (Trimmed(s) ==> SingleLine(s) == s)
  {
    CollapseNothing(s);
    TrimIs(s);
  }

  /** The end of one text and the start of the next are not both line breaks. */
  predicate BreaksApart(a: Text, b: Text) {
    a == [] || b == [] || !IsBreak(a[|a| - 1]) || !IsBreak(b[0])
  }

  lemma {:induction false} CollapseConcat(a: Text, b: Text)
    requires BreaksApart(a, b)
    ensures CollapseBreaks(a + b) == CollapseBreaks(a) + CollapseBreaks(b)
  {
    if a == [] {
      assert a + b == b;
    } else {
      assert (a + b)[1..] == a[1..] + b;
      CollapseConcat(a[1..], b);
    }
  }

  lemma {:induction false} CollapseRun(run: Text)
    requires run != [] && forall u | u in run :: IsBreak(u)
    ensures CollapseBreaks(run) == [SP]
  {
    assert run[0] in run;
    if |run| > 1 {
      assert run[1] in run && forall u | u in run[1..] :: u in run;
      CollapseRun(run[1..]);
    }
  }

  lemma {:induction false} WithoutNulConcat(a: Text, b: Text)
    ensures WithoutNul(a + b) == WithoutNul(a) + WithoutNul(b)
  {
    if a == [] {
      assert a + b == b;
    } else {
      assert (a + b)[1..] == a[1..] + b;
      WithoutNulConcat(a[1..], b);
    }
  }

  /** A run of line breaks in a subject reads as one space. */
  lemma BreaksCollapse(a: Text, run: Text, b: Text)
    requires run != [] && (forall u | u in run :: IsBreak(u)) && BreaksApart(a, run) && BreaksApart(run, b)
    ensures SingleLine(a + run + b) == SingleLine(a + [SP] + b)
  {
    assert run[|run| - 1] in run;
    CollapseConcat(a + run, b);
    CollapseConcat(a, run);
    CollapseRun(run);
    CollapseConcat(a + [SP], b);
    CollapseConcat(a, [SP]);
    assert CollapseBreaks([SP]) == [SP];
  }

  /** A NUL in it is dropped. */
  lemma NulIsDropped(a: Text, b: Text)
    requires BreaksApart(a, b)
    ensures SingleLine(a + [NUL] + b) == SingleLine(a + b)
  {
    CollapseConcat(a + [NUL], b);
    CollapseConcat(a, [NUL]);
    CollapseConcat(a, b);
    assert CollapseBreaks([NUL]) == [NUL] && WithoutNul([NUL]) == [];
    WithoutNulConcat(CollapseBreaks(a) + [NUL], CollapseBreaks(b));
    WithoutNulConcat(CollapseBreaks(a), [NUL]);
    WithoutNulConcat(CollapseBreaks(a), CollapseBreaks(b));
    assert WithoutNul(CollapseBreaks(a)) + [] == WithoutNul(CollapseBreaks(a));
  }

  /** `aGk=` is "hi" in base64. */
  const HI: Text := [97, 71, 107, EQUALS]

  const UTF8_LOWER: Text := [117, 116, 102, 45, 56]

  lemma HiDecodes()
    ensures DecodeBase64(HI) == Some([104, 105]) && DecodeUtf8([104, 105]) == Some([104, 105])
  {
    var bytes: seq<Byte> := [104, 105];
    assert HI[4..] == [] && DecodeBase64(HI[4..]) == Some([]);
    assert Quantum(97, 71, 107, EQUALS) == Some(bytes);
    assert bytes + [] == bytes;
    HiCharacters(bytes, [105]);
  }

  lemma HiCharacters(bytes: seq<Byte>, last: seq<Byte>)
    requires bytes == [104, 105] && last == [105]
    ensures DecodeUtf8(bytes) == Some([104, 105])
  {
    assert bytes[1..] == last && last[1..] == [];
    assert ReadChar(last) == Some(105) && DecodeUtf8(last[1..]) == Some([]);
    var i: seq<CodePoint> := [105];
    assert [105] + [] == i && DecodeUtf8(last) == Some(i);
    assert ReadChar(bytes) == Some(104) && Extra(bytes[0]) == Some(0);
    assert [104] + i == [104, 105];
  }

  lemma HiIsAWord(reader: Receiver, name: Text, encoding: Unit)
    requires Known(reader) && reader.longest >= 16
    requires (name == UTF8_NAME || name == UTF8_LOWER) && encoding in {66, 98}
    ensures DecodeToken(reader, Token(name, encoding, HI)) == Some([104, 105])
  {
    NameIsUtf8();
    assert Lower(UTF8_LOWER) == Lit("utf-8");
    TokenDecodes(reader, name, encoding, HI);
    HiDecodes();
  }

  const RE: Text := [82, 101, COLON]

  lemma SentRaw(reader: Receiver, subject: Text)
    requires Known(reader) && IsAscii(subject) && Trimmed(subject) && HoldsWord(reader, subject)
    ensures FoldSubject(subject) == subject
    ensures ReadHeaderText(reader, FoldSubject(subject)) != Scalars(CodePoints(subject))
  {
    SingleLineKept(subject);
    SubjectReadsBack(reader, subject);
  }

  /** Two typed subjects that arrive changed, whatever the receiver: "=?utf-8?b?aGk=?=" and
      "Re: =?UTF-8?B?aGk=?=". */
  lemma TypedWordsGetDecoded(reader: Receiver, word: Text, subject: Text)
    requires Known(reader) && reader.longest >= 16 && (subject == word || subject == RE + ([SP] + word))
    requires word == Token(UTF8_NAME, 66, HI) || word == Token(UTF8_LOWER, 98, HI)
    ensures FoldSubject(subject) == subject
    ensures ReadHeaderText(reader, FoldSubject(subject)) != Scalars(CodePoints(subject))
  {
    HiShape(reader, word);
    if subject == word { HoldsAlone(reader, word); } else { HoldsAfter(reader, RE, word); }
    ShapeOf(word, subject);
    SentRaw(reader, subject);
  }

  lemma HiShape(reader: Receiver, word: Text)
    requires Known(reader) && reader.longest >= 16 && (word == Token(UTF8_NAME, 66, HI) || word == Token(UTF8_LOWER, 98, HI))
    ensures DecodeToken(reader, word).Some? && |word| == 16
    ensures word[0] == EQUALS == word[15] && forall u | u in word :: 33 <= u <= 126
  {
    assert forall u | u in UTF8_NAME || u in UTF8_LOWER || u in HI :: 33 <= u <= 126;
    if word == Token(UTF8_NAME, 66, HI) {
      HiIsAWord(reader, UTF8_NAME, 66);
      TokenShape(UTF8_NAME, 66, HI);
    } else {
      HiIsAWord(reader, UTF8_LOWER, 98);
      TokenShape(UTF8_LOWER, 98, HI);
    }
  }

  lemma ShapeOf(word: Text, subject: Text)
    requires |word| == 16 && word[0] == EQUALS == word[15] && forall u | u in word :: 33 <= u <= 126
    requires subject == word || subject == RE + ([SP] + word)
    ensures IsAscii(subject) && Trimmed(subject)
  {
    if subject != word {
      assert subject[|subject| - 1] == word[15];
      forall u | u in subject ensures 32 <= u <= 126 {
        assert u in RE || u == SP || u in word;
      }
    }
  }

  // ---- The message ----

  const SEPARATOR: Text := [COLON, SP]
  const FROM: Text := Lit("From")
  const TO: Text := Lit("To")
  const CC: Text := Lit("Cc")
  const BCC: Text := Lit("Bcc")
  const SUBJECT: Text := Lit("Subject")
  const IN_REPLY_TO: Text := Lit("In-Reply-To")
  const REFERENCES: Text := Lit("References")
  const MIME_VERSION: Text := Lit("MIME-Version")
  const CONTENT: Text := Lit("Content")
  const CONTENT_TYPE: Text := CONTENT + Lit("-Type")

  function Line(field: Text, value: Text): Text {
    field + SEPARATOR + value
  }

  /** `addHeader`. */
  function Header(field: Text, value: Text): Result<seq<Text>> {
    if FoldedHeaderSafe(value) then Ok([Line(field, value)]) else Err(IllegalLineBreak(field))
  }

  function AddressHeader(field: Text, addresses: seq<MimeAddress>): Result<seq<Text>> {
    if addresses == [] then Ok([])
    else
      var formatted := FormatAll(addresses);
      if formatted.Err? then formatted else Header(field, Join(formatted.value, COMMA_SP))
  }

  function ReplyHeader(inReplyTo: Option<Text>): Result<seq<Text>> {
    if inReplyTo.None? || inReplyTo.value == [] then Ok([]) else Header(IN_REPLY_TO, inReplyTo.value)
  }

  function FoldedReferences(references: seq<Text>): Text {
    FoldHeaderLine(REFERENCES, Join(references, [SP]), WIDTH)
  }

  function ReferencesHeader(references: seq<Text>): Result<seq<Text>> {
    if references == [] then Ok([])
    else if exists id | id in references :: !HeaderSafe(id) then Err(IllegalLineBreak(REFERENCES))
    else if !FoldedHeaderSafe(FoldedReferences(references)) then Err(IllegalLineBreak(REFERENCES))
    else Ok([FoldedReferences(references)])
  }

  function ContentType(boundary: Text): Text {
    Lit("multipart/alternative; boundary=\"") + boundary + [QUOTE]
  }

  function Then(a: Result<seq<Text>>, b: Result<seq<Text>>): Result<seq<Text>> {
    if a.Err? then a else if b.Err? then b else Ok(a.value + b.value)
  }

  function Gather(groups: seq<Result<seq<Text>>>): Result<seq<Text>> {
    if groups == [] then Ok([]) else Then(Gather(groups[..|groups| - 1]), groups[|groups| - 1])
  }

  function Fixed(boundary: Text): seq<Text> {
    [Line(MIME_VERSION, Lit("1.0")), Line(CONTENT_TYPE, ContentType(boundary))]
  }

  /** The headers of a message, in the order they are written; a group may be empty. */
  function Groups(input: MimeMessageInput, boundary: Text): seq<Result<seq<Text>>> {
    [AddressHeader(FROM, [input.from]), AddressHeader(TO, input.recipients),
     AddressHeader(CC, input.cc), AddressHeader(BCC, input.bcc),
     Ok([Line(SUBJECT, FoldSubject(input.subject))]),
     ReplyHeader(input.inReplyTo), ReferencesHeader(input.references), Ok(Fixed(boundary))]
  }

  predicate AreGroups(g: seq<Result<seq<Text>>>, input: MimeMessageInput, boundary: Text) {
    && |g| == 8
    && g[0] == AddressHeader(FROM, [input.from]) && g[1] == AddressHeader(TO, input.recipients)
    && g[2] == AddressHeader(CC, input.cc) && g[3] == AddressHeader(BCC, input.bcc)
    && g[4] == Ok([Line(SUBJECT, FoldSubject(input.subject))]) && g[5] == ReplyHeader(input.inReplyTo)
    && g[6] == ReferencesHeader(input.references) && g[7] == Ok(Fixed(boundary))
  }

  lemma GroupsAre(input: MimeMessageInput, boundary: Text)
    ensures AreGroups(Groups(input, boundary), input, boundary)
  {}

  function Headers(input: MimeMessageInput, boundary: Text): Result<seq<Text>> {
    if input.recipients == [] then Err(NoRecipients) else Gather(Groups(input, boundary))
  }

  lemma GatherStep(groups: seq<Result<seq<Text>>>, k: nat)
    requires k < |groups|
    ensures Gather(groups[..k + 1]) == Then(Gather(groups[..k]), groups[k])
  {
    assert groups[..k + 1][..k] == groups[..k];
  }

  lemma {:induction false} GatherFails(groups: seq<Result<seq<Text>>>, k: nat)
    requires k <= |groups| && Gather(groups[..k]).Err?
    ensures Gather(groups) == Gather(groups[..k])
  {
    if k < |groups| {
      assert groups[..|groups| - 1][..k] == groups[..k];
      GatherFails(groups[..|groups| - 1], k);
    } else {
      assert groups[..k] == groups;
    }
  }

  lemma {:induction false} GathersAll(groups: seq<Result<seq<Text>>>)
    ensures Gather(groups).Ok? <==> forall i | 0 <= i < |groups| :: groups[i].Ok?
  {
    if groups != [] {
      var front := groups[..|groups| - 1];
      GathersAll(front);
      assert forall i | 0 <= i < |front| :: front[i] == groups[i];
    }
  }

  /** Base64 in lines of 76. */
  function Wrapped(letters: Text): seq<Text> {
    if |letters| <= 76 then [letters] else [letters[..76]] + Wrapped(letters[76..])
  }

  function BodyLines(text: Text): seq<Text> {
    Wrapped(Base64(Utf8(CodePoints(text))))
  }

  const TRANSFER: Text := CONTENT + Lit("-Transfer-Encoding: base64")
  const CHARSET: Text := Lit("; charset=\"utf-8\"")
  const TEXT_PLAIN: Text := CONTENT + Lit("-Type: text/plain") + CHARSET
  const TEXT_HTML: Text := CONTENT + Lit("-Type: text/html") + CHARSET

  function Delimiter(boundary: Text): Text {
    [DASH, DASH] + boundary
  }

  function Closing(boundary: Text): Text {
    Delimiter(boundary) + [DASH, DASH]
  }

  function Part(kind: Text, body: Text): seq<Text> {
    [kind, TRANSFER, []] + BodyLines(body)
  }

  function Parts(text: Text, html: Text, boundary: Text): seq<Text> {
    [Delimiter(boundary)] + Part(TEXT_PLAIN, text)
    + [Delimiter(boundary)] + Part(TEXT_HTML, html)
    + [Closing(boundary), []]
  }

  function BuildMimeMessage(input: MimeMessageInput, boundary: Text): Result<Text> {
    var headers := Headers(input, boundary);
    if headers.Err? then Err(headers.error)
    else Ok(Join(headers.value + [[]] + Parts(input.text, input.html, boundary), CRLF))
  }

  // ---- Reading a message ----

  /** The first line break that is not a fold, or the length. */
  function FirstBreak(s: Text): (k: nat)
    ensures k <= |s|
    ensures k < |s| ==> k + 2 <= |s|
  {
    if |s| < 2 then |s|
    else if s[0] == CR && s[1] == LF && !(|s| > 2 && IsWsp(s[2])) then 0
    else 1 + FirstBreak(s[1..])
  }

  datatype Message = Message(headers: seq<Text>, body: Text)

  /** Logical header lines up to the first empty one; the rest is the body. */
  function ReadMessage(s: Text): Message {
    var k := FirstBreak(s);
    if k == |s| then Message(if s == [] then [] else [s], [])
    else if k == 0 then Message([], s[2..])
    else
      var rest := ReadMessage(s[k + 2..]);
      Message([s[..k]] + rest.headers, rest.body)
  }

  /** A header as it may be written: a name first, breaks only as folds. */
  predicate Written(line: Text) {
    line != [] && !IsWsp(line[0]) && line[0] != CR && Tame(line)
  }

  lemma {:induction false} FirstBreakAfter(line: Text, rest: Text)
    requires Tame(line) && |rest| >= 2 && rest[..2] == CRLF && !(|rest| > 2 && IsWsp(rest[2]))
    ensures FirstBreak(line + rest) == |line|
  {
    if line == [] {
      assert line + rest == rest;
      assert rest[0] == rest[..2][0] && rest[1] == rest[..2][1];
    } else {
      var s := line + rest;
      assert forall i | 0 <= i < |line[1..]| :: line[1..][i] == line[i + 1];
      assert s[1..] == line[1..] + rest;
      FirstBreakAfter(line[1..], rest);
      if line[0] == CR { assert s[2] == line[2]; }
    }
  }

  lemma {:induction false} ReadStep(line: Text, rest: Text)
    requires Written(line) && !(rest != [] && IsWsp(rest[0]))
    ensures ReadMessage(line + CRLF + rest) == Message([line] + ReadMessage(rest).headers, ReadMessage(rest).body)
  {
    var s := line + CRLF + rest;
    assert s == line + (CRLF + rest);
    FirstBreakAfter(line, CRLF + rest);
    assert s[..|line|] == line && s[|line| + 2..] == rest;
  }

  lemma HeadOfJoin(lines: seq<Text>, sep: Text)
    requires lines != [] && lines[0] != []
    ensures Join(lines, sep) != [] && Join(lines, sep)[0] == lines[0][0]
  {}

  lemma Regroup(first: Text, tail: Text, body: Text)
    ensures first + CRLF + tail + CRLF + body == first + CRLF + (tail + CRLF + body)
  {}

  /** Header lines read back one by one, however they were folded. */
  lemma {:induction false} ReadHeaders(headers: seq<Text>, body: Text)
    requires forall h | h in headers :: Written(h)
    requires !(body != [] && IsWsp(body[0]))
    ensures ReadMessage(Join(headers + [[]], CRLF) + CRLF + body) == Message(headers, body)
  {
    if headers == [] {
      assert headers + [[]] == [[]] && [] + CRLF + body == CRLF + body;
      ReadEmptyLine(body);
    } else {
      var first, rest := headers[0], headers[1..];
      assert Written(first) && forall h | h in rest :: h in headers;
      ReadHeaders(rest, body);
      ReadFirst(headers, body);
    }
  }

  lemma JoinFirst(headers: seq<Text>)
    requires headers != []
    ensures Join(headers + [[]], CRLF) == headers[0] + CRLF + Join(headers[1..] + [[]], CRLF)
  {
    assert (headers + [[]])[1..] == headers[1..] + [[]];
  }

  lemma ReadFirst(headers: seq<Text>, body: Text)
    requires headers != [] && forall h | h in headers :: Written(h)
    requires ReadMessage(Join(headers[1..] + [[]], CRLF) + CRLF + body) == Message(headers[1..], body)
    ensures ReadMessage(Join(headers + [[]], CRLF) + CRLF + body) == Message(headers, body)
  {
    var first, tail := headers[0], Join(headers[1..] + [[]], CRLF);
    assert Written(first) && forall h | h in headers[1..] :: h in headers;
    JoinFirst(headers);
    Regroup(first, tail, body);
    NextLineStarts(headers[1..], body);
    ReadStep(first, tail + CRLF + body);
  }

  lemma ReadEmptyLine(body: Text)
    requires !(body != [] && IsWsp(body[0]))
    ensures ReadMessage(CRLF + body) == Message([], body)
  {
    var s := CRLF + body;
    FirstBreakAfter([], s);
    assert [] + s == s && s[2..] == body;
  }

  lemma NextLineStarts(rest: seq<Text>, body: Text)
    requires forall h | h in rest :: Written(h)
    ensures var next := Join(rest + [[]], CRLF) + CRLF + body; next != [] && !IsWsp(next[0])
  {
    if rest != [] {
      assert Written(rest[0]);
      HeadOfJoin(rest + [[]], CRLF);
    } else {
      assert rest + [[]] == [[]];
    }
  }

  /** `split("\r\n")`. */
  function FirstLineEnd(s: Text): (k: nat)
    ensures k <= |s|
    ensures k < |s| ==> k + 2 <= |s|
  {
    if |s| < 2 then |s| else if s[0] == CR && s[1] == LF then 0 else 1 + FirstLineEnd(s[1..])
  }

  function LinesOf(s: Text): seq<Text> {
    var k := FirstLineEnd(s);
    if k == |s| then [s] else [s[..k]] + LinesOf(s[k + 2..])
  }

  lemma {:induction false} FirstLineEndAfter(line: Text, rest: Text)
    requires CR !in line && (rest == [] || CRLF <= rest)
    ensures FirstLineEnd(line + rest) == |line|
  {
    if line != [] {
      assert (line + rest)[1..] == line[1..] + rest;
      FirstLineEndAfter(line[1..], rest);
    } else {
      assert line + rest == rest;
      assert rest != [] ==> rest[0] == CRLF[0] && rest[1] == CRLF[1];
    }
  }

  lemma {:induction false} LinesOfJoin(lines: seq<Text>)
    requires lines != [] && forall line | line in lines :: CR !in line
    ensures LinesOf(Join(lines, CRLF)) == lines
  {
    assert lines[0] in lines;
    var s := Join(lines, CRLF);
    if |lines| == 1 {
      FirstLineEndAfter(s, []);
      assert s + [] == s;
    } else {
      var rest := Join(lines[1..], CRLF);
      assert s == lines[0] + (CRLF + rest);
      FirstLineEndAfter(lines[0], CRLF + rest);
      assert s[..|lines[0]|] == lines[0] && s[|lines[0]| + 2..] == rest;
      LinesOfJoin(lines[1..]);
    }
  }

  /** Lines before the first `end`, and the lines after it. */
  function Before(lines: seq<Text>, end: Text): seq<Text> {
    if lines == [] || lines[0] == end then [] else [lines[0]] + Before(lines[1..], end)
  }

  function After(lines: seq<Text>, end: Text): seq<Text> {
    if lines == [] then [] else if lines[0] == end then lines[1..] else After(lines[1..], end)
  }

  lemma {:induction false} BeforeAfter(a: seq<Text>, end: Text, b: seq<Text>)
    requires end !in a
    ensures Before(a + [end] + b, end) == a && After(a + [end] + b, end) == b
  {
    var all := a + [end] + b;
    if a == [] {
      assert all == [end] + b;
    } else {
      assert all[1..] == a[1..] + [end] + b;
      BeforeAfter(a[1..], end, b);
    }
  }

  /** One part: its headers end at an empty line, the rest is base64. */
  function ReadPart(lines: seq<Text>): Option<seq<Byte>> {
    DecodeBase64(Flatten(After(lines, [])))
  }

  /** The two alternatives of a multipart body. */
  function ReadParts(body: Text, boundary: Text): (Option<seq<Byte>>, Option<seq<Byte>>) {
    var first := After(LinesOf(body), Delimiter(boundary));
    var second := After(first, Delimiter(boundary));
    (ReadPart(Before(first, Delimiter(boundary))), ReadPart(Before(second, Closing(boundary))))
  }

  predicate InBase64(s: Text) {
    forall u | u in s :: Base64Unit(u)
  }

  predicate Base64Line(line: Text) {
    |line| <= 76 && InBase64(line)
  }

  lemma {:induction false} WrappedIs(letters: Text)
    requires InBase64(letters)
    ensures Flatten(Wrapped(letters)) == letters
    ensures forall line | line in Wrapped(letters) :: Base64Line(line)
  {
    if |letters| > 76 {
      assert InBase64(letters[..76]) && InBase64(letters[76..]);
      WrappedIs(letters[76..]);
      assert letters == letters[..76] + letters[76..];
    } else {
      assert Flatten([letters]) == letters + Flatten<Unit>([]);
    }
  }

  /** Body lines stay within the 76 characters of RFC 2045 and decode to the text. */
  lemma {:induction false} BodyLinesDecode(text: Text)
    ensures DecodeBase64(Flatten(BodyLines(text))) == Some(Utf8(CodePoints(text)))
    ensures forall line | line in BodyLines(text) :: Base64Line(line)
  {
    var bytes := Utf8(CodePoints(text));
    Base64Alphabet(bytes);
    WrappedIs(Base64(bytes));
    Base64RoundTrip(bytes);
  }

  lemma PartHeadersPlain(kind: Text, delimiter: Text)
    requires kind == TEXT_PLAIN || kind == TEXT_HTML
    requires delimiter != [] && delimiter[0] == DASH
    ensures kind != delimiter && TRANSFER != delimiter && kind != [] && TRANSFER != []
    ensures CR !in kind && CR !in TRANSFER
  {
    assert CONTENT[0] == 67;
    assert kind[0] == CONTENT[0] && TRANSFER[0] == CONTENT[0];
  }

  lemma BodyHasNoDelimiter(text: Text, delimiter: Text)
    requires delimiter != [] && delimiter[0] == DASH
    ensures delimiter !in BodyLines(text) && forall line | line in BodyLines(text) :: CR !in line
  {
    BodyLinesDecode(text);
    forall line | line in BodyLines(text) ensures line != delimiter && CR !in line {
      assert Base64Line(line);
      Base64LineIsPlain(line, delimiter);
    }
  }

  lemma Base64LineIsPlain(line: Text, delimiter: Text)
    requires InBase64(line) && delimiter != [] && delimiter[0] == DASH
    ensures line != delimiter && CR !in line
  {
    assert !Base64Unit(CR) && !Base64Unit(DASH);
    if line != [] { assert line[0] in line; }
  }

  /** A base64 line cannot be a delimiter, whatever the boundary: it has no dash. */
  lemma PartHasNoDelimiter(kind: Text, text: Text, delimiter: Text)
    requires kind == TEXT_PLAIN || kind == TEXT_HTML
    requires delimiter != [] && delimiter[0] == DASH
    ensures delimiter !in Part(kind, text)
    ensures forall line | line in Part(kind, text) :: CR !in line
    ensures ReadPart(Part(kind, text)) == Some(Utf8(CodePoints(text)))
  {
    PartHeadersPlain(kind, delimiter);
    BodyHasNoDelimiter(text, delimiter);
    var body := BodyLines(text);
    assert Part(kind, text) == [kind, TRANSFER] + [[]] + body;
    BeforeAfter([kind, TRANSFER], [], body);
    BodyLinesDecode(text);
  }

  lemma LinesOfParts(text: Text, html: Text, boundary: Text)
    requires NoBreak(boundary)
    ensures LinesOf(Join(Parts(text, html, boundary), CRLF)) == Parts(text, html, boundary)
  {
    var d := Delimiter(boundary);
    PartHasNoDelimiter(TEXT_PLAIN, text, d);
    PartHasNoDelimiter(TEXT_HTML, html, d);
    LinesOfJoin(Parts(text, html, boundary));
  }

  /** Both alternatives come back byte for byte, for every text and every boundary. */
  lemma {:induction false} PartsRoundTrip(text: Text, html: Text, boundary: Text)
    requires NoBreak(boundary)
    ensures ReadParts(Join(Parts(text, html, boundary), CRLF), boundary)
         == (Some(Utf8(CodePoints(text))), Some(Utf8(CodePoints(html))))
  {
    LinesOfParts(text, html, boundary);
    var d, c := Delimiter(boundary), Closing(boundary);
    var a, b := Part(TEXT_PLAIN, text), Part(TEXT_HTML, html);
    PartHasNoDelimiter(TEXT_PLAIN, text, d);
    PartHasNoDelimiter(TEXT_HTML, html, c);
    TwoSections(d, a, b, c);
  }

  lemma {:induction false} TwoSections(d: Text, a: seq<Text>, b: seq<Text>, c: Text)
    requires d !in a && c !in b
    ensures var first := After([d] + a + [d] + b + [c, []], d);
      Before(first, d) == a && Before(After(first, d), c) == b
  {
    var second := b + [c] + [[]];
    var first := a + [d] + second;
    assert [d] + a + [d] + b + [c, []] == [] + [d] + first;
    BeforeAfter([], d, first);
    BeforeAfter(a, d, second);
    BeforeAfter(b, c, [[]]);
  }

  // ---- Which headers, in which order ----

  function NameOf(line: Text): Text {
    line[..IndexOf(line, COLON)]
  }

  predicate FieldName(field: Text) {
    field != [] && forall u | u in field :: 33 <= u <= 126 && u != COLON
  }

  lemma LineWritten(field: Text, value: Text)
    requires FieldName(field) && Tame(value)
    ensures Written(Line(field, value)) && NameOf(Line(field, value)) == field
  {
    var line := Line(field, value);
    assert line == field + (SEPARATOR + value);
    IndexOfAfter(field, SEPARATOR + value, COLON);
    assert field[0] in field && Tame(field) by { assert forall i | 0 <= i < |field| :: field[i] in field; }
    assert Tame(SEPARATOR);
    TameConcat(field, SEPARATOR);
    TameConcat(field + SEPARATOR, value);
    assert line[..|field|] == field;
  }

  /** Headers read as `names`, each one line as far as a reader is concerned. */
  ghost predicate Named(r: Result<seq<Text>>, names: seq<Text>) {
    r.Ok? ==> |r.value| == |names| && forall i | 0 <= i < |names| :: Written(r.value[i]) && NameOf(r.value[i]) == names[i]
  }

  lemma {:induction false} GatherNamed(groups: seq<Result<seq<Text>>>, names: seq<seq<Text>>)
    requires |groups| == |names|
    requires forall i | 0 <= i < |groups| :: Named(groups[i], names[i])
    ensures Named(Gather(groups), Flatten(names))
  {
    if groups != [] {
      var n := |groups| - 1;
      GatherNamed(groups[..n], names[..n]);
      FlattenAppend(names[..n], names[n]);
      assert names == names[..n] + [names[n]];
      assert Named(groups[n], names[n]);
    }
  }

  lemma HeaderNamed(field: Text, value: Text)
    requires FieldName(field)
    ensures Named(Header(field, value), [field])
  {
    if FoldedHeaderSafe(value) {
      SafeIsTame(value);
      LineWritten(field, value);
    }
  }

  function Given(field: Text, present: bool): seq<Text> {
    if present then [field] else []
  }

  function NameGroups(input: MimeMessageInput): seq<seq<Text>> {
    [[FROM], [TO], Given(CC, input.cc != []), Given(BCC, input.bcc != []), [SUBJECT],
     Given(IN_REPLY_TO, input.inReplyTo.Some? && input.inReplyTo.value != []),
     Given(REFERENCES, input.references != []), [MIME_VERSION, CONTENT_TYPE]]
  }

  function ExpectedNames(input: MimeMessageInput): seq<Text> {
    Flatten(NameGroups(input))
  }

  lemma AddressesNamed(field: Text, addresses: seq<MimeAddress>)
    requires FieldName(field)
    ensures Named(AddressHeader(field, addresses), Given(field, addresses != []))
  {
    var formatted := FormatAll(addresses);
    if formatted.Ok? { HeaderNamed(field, Join(formatted.value, COMMA_SP)); }
  }

  lemma {:induction false} FoldStarts(field: Text, tokens: seq<Text>, width: nat)
    requires forall t | t in tokens :: IsToken(t)
    ensures field + [COLON] <= Join(FoldLines(field, tokens, width), FOLD)
    ensures Fold(field, tokens, width).line != []
  {
    if tokens != [] {
      var front, token := tokens[..|tokens| - 1], tokens[|tokens| - 1];
      assert token in tokens && forall t | t in front :: t in tokens;
      FoldStarts(field, front, width);
      var before := Fold(field, front, width);
      JoinExtend(before.done, before.line, [SP] + token, FOLD);
      JoinAppend(before.done + [before.line], token, FOLD);
      assert before.line + [SP] + token == before.line + ([SP] + token);
    }
  }

  lemma JoinSafe(references: seq<Text>)
    requires forall id | id in references :: HeaderSafe(id)
    ensures HeaderSafe(Join(references, [SP]))
  {
    assert forall id | id in references :: NoBreak(id);
    JoinNoBreak(references);
  }

  lemma {:induction false} SpacedSafe(tokens: seq<Text>)
    requires forall t | t in tokens :: HeaderSafe(t)
    ensures HeaderSafe(Spaced(tokens))
  {
    if tokens != [] {
      assert tokens[|tokens| - 1] in tokens;
      SpacedSafe(tokens[..|tokens| - 1]);
    }
  }

  lemma {:induction false} TokensSafe(value: Text)
    requires HeaderSafe(value)
    ensures forall t | t in Tokens(value) :: HeaderSafe(t)
  {
    if value != [] {
      var k := IndexOf(value, SP);
      assert HeaderSafe(value[..k]);
      if k < |value| {
        assert HeaderSafe(value[k + 1..]);
        TokensSafe(value[k + 1..]);
      }
    }
  }

  lemma StartsWithName(field: Text, line: Text)
    requires FieldName(field) && field + [COLON] <= line && Tame(line)
    ensures Written(line) && NameOf(line) == field
  {
    var rest := line[|field|..];
    assert line == field + rest;
    assert rest[0] == COLON by { assert line[|field|] == (field + [COLON])[|field|]; }
    IndexOfAfter(field, rest, COLON);
    assert line[0] == field[0] && field[0] in field;
  }

  lemma SafeValueFolds(field: Text, value: Text, width: nat)
    requires FieldName(field) && HeaderSafe(value)
    ensures FoldedHeaderSafe(FoldHeaderLine(field, value, width)) && Tame(FoldHeaderLine(field, value, width))
  {
    assert HeaderSafe(field);
    FoldUnfolds(field, value, width);
    TokensSafe(value);
    SpacedSafe(Tokens(value));
  }

  lemma SafeValueNamed(field: Text, value: Text, width: nat)
    requires FieldName(field) && HeaderSafe(value)
    ensures Written(FoldHeaderLine(field, value, width)) && NameOf(FoldHeaderLine(field, value, width)) == field
  {
    SafeValueFolds(field, value, width);
    TokensAre(value);
    FoldStarts(field, Tokens(value), width);
    StartsWithName(field, FoldHeaderLine(field, value, width));
  }

  /** A chain of safe ids folds into a safe header: its own folds are never refused. */
  lemma ReferencesFold(references: seq<Text>)
    requires forall id | id in references :: HeaderSafe(id)
    ensures FoldedHeaderSafe(FoldedReferences(references))
    ensures Written(FoldedReferences(references)) && NameOf(FoldedReferences(references)) == REFERENCES
  {
    JoinSafe(references);
    assert FieldName(REFERENCES);
    SafeValueFolds(REFERENCES, Join(references, [SP]), WIDTH);
    SafeValueNamed(REFERENCES, Join(references, [SP]), WIDTH);
  }

  lemma TokensOfJoinStep(first: Text, rest: Text)
    requires first != [] && SP !in first
    ensures Tokens(first + [SP] + rest) == [first] + Tokens(rest)
  {
    Associative(first, [SP], rest);
    TokensTake(first, [SP] + rest);
    TokensSkip(rest);
  }

  lemma {:induction false} TokensOfJoin(ids: seq<Text>)
    requires forall id | id in ids :: IsToken(id)
    ensures Tokens(Join(ids, [SP])) == ids
  {
    if ids != [] {
      var first, rest := ids[0], ids[1..];
      assert first in ids && forall id | id in rest :: id in ids;
      if rest == [] {
        TokensTake(first, []);
        assert first + [] == first;
      } else {
        TokensOfJoin(rest);
        TokensOfJoinStep(first, Join(rest, [SP]));
      }
    }
  }

  /** Threading survives: a reader of the folded header finds the chain, id by id. */
  lemma {:induction false} ReferencesSurvive(ids: seq<Text>)
    requires forall id | id in ids :: HeaderSafe(id) && IsToken(id)
    ensures Unfold(FoldedReferences(ids)) == REFERENCES + [COLON] + Spaced(ids)
    ensures Tokens(Spaced(ids)) == ids
  {
    JoinSafe(ids);
    FoldUnfolds(REFERENCES, Join(ids, [SP]), WIDTH);
    TokensOfJoin(ids);
    TokensOfSpaced(ids);
  }

  lemma {:induction false} ReferencesNamed(references: seq<Text>)
    ensures Named(ReferencesHeader(references), Given(REFERENCES, references != []))
  {
    if ReferencesHeader(references).Ok? && references != [] { ReferencesFold(references); }
  }

  lemma ContentTypeTame(boundary: Text)
    requires NoBreak(boundary)
    ensures Tame(ContentType(boundary)) && Tame(Lit("1.0"))
  {
    var open := Lit("multipart/alternative; boundary=\"");
    assert Tame(open);
    assert Tame(boundary) by { assert forall i | 0 <= i < |boundary| :: boundary[i] in boundary; }
    assert Tame([QUOTE]);
    TameConcat(open, boundary);
    TameConcat(open + boundary, [QUOTE]);
  }

  lemma SubjectNamed(subject: Text)
    ensures Named(Ok([Line(SUBJECT, FoldSubject(subject))]), [SUBJECT])
  {
    SubjectSafe(subject);
    LineWritten(SUBJECT, FoldSubject(subject));
  }

  lemma FixedNamed(boundary: Text)
    requires NoBreak(boundary)
    ensures Named(Ok(Fixed(boundary)), [MIME_VERSION, CONTENT_TYPE])
  {
    ContentTypeTame(boundary);
    LineWritten(MIME_VERSION, Lit("1.0"));
    LineWritten(CONTENT_TYPE, ContentType(boundary));
  }

  lemma ReplyNamed(inReplyTo: Option<Text>)
    ensures Named(ReplyHeader(inReplyTo), Given(IN_REPLY_TO, inReplyTo.Some? && inReplyTo.value != []))
  {
    if inReplyTo.Some? { HeaderNamed(IN_REPLY_TO, inReplyTo.value); }
  }

  lemma {:induction false} EightNamed(g: seq<Result<seq<Text>>>, names: seq<seq<Text>>)
    requires |g| == |names| == 8
    requires Named(g[0], names[0]) && Named(g[1], names[1]) && Named(g[2], names[2]) && Named(g[3], names[3])
    requires Named(g[4], names[4]) && Named(g[5], names[5]) && Named(g[6], names[6]) && Named(g[7], names[7])
    ensures Named(Gather(g), Flatten(names))
  {
    GatherNamed(g, names);
  }

  lemma RecipientsNamed(input: MimeMessageInput)
    ensures Named(AddressHeader(FROM, [input.from]), [FROM])
    ensures input.recipients != [] ==> Named(AddressHeader(TO, input.recipients), [TO])
    ensures Named(AddressHeader(CC, input.cc), Given(CC, input.cc != []))
    ensures Named(AddressHeader(BCC, input.bcc), Given(BCC, input.bcc != []))
  {
    AddressesNamed(FROM, [input.from]);
    AddressesNamed(TO, input.recipients);
    AddressesNamed(CC, input.cc);
    AddressesNamed(BCC, input.bcc);
  }

  lemma RestNamed(input: MimeMessageInput, boundary: Text)
    requires NoBreak(boundary)
    ensures Named(Ok([Line(SUBJECT, FoldSubject(input.subject))]), [SUBJECT])
    ensures Named(ReplyHeader(input.inReplyTo), Given(IN_REPLY_TO, input.inReplyTo.Some? && input.inReplyTo.value != []))
    ensures Named(ReferencesHeader(input.references), Given(REFERENCES, input.references != []))
    ensures Named(Ok(Fixed(boundary)), [MIME_VERSION, CONTENT_TYPE])
  {
    SubjectNamed(input.subject);
    ReplyNamed(input.inReplyTo);
    ReferencesNamed(input.references);
    FixedNamed(boundary);
  }

  lemma GroupsNamed(input: MimeMessageInput, boundary: Text, g: seq<Result<seq<Text>>>)
    requires NoBreak(boundary) && AreGroups(g, input, boundary) && input.recipients != []
    ensures Named(Gather(g), ExpectedNames(input))
  {
    RecipientsNamed(input);
    RestNamed(input, boundary);
    EightNamed(g, NameGroups(input));
  }

  lemma HeadersNamed(input: MimeMessageInput, boundary: Text)
    requires NoBreak(boundary)
    ensures Named(Headers(input, boundary), ExpectedNames(input))
  {
    if input.recipients != [] {
      GroupsAre(input, boundary);
      GroupsNamed(input, boundary, Groups(input, boundary));
    }
  }

  /** The message read back: exactly the expected headers in order, and both bodies. */
  lemma MessageRoundTrip(input: MimeMessageInput, boundary: Text)
    requires NoBreak(boundary) && BuildMimeMessage(input, boundary).Ok?
    ensures var m := ReadMessage(BuildMimeMessage(input, boundary).value);
      && m.headers == Headers(input, boundary).value
      && |m.headers| == |ExpectedNames(input)|
      && (forall i | 0 <= i < |m.headers| :: NameOf(m.headers[i]) == ExpectedNames(input)[i])
      && ReadParts(m.body, boundary) == (Some(Utf8(CodePoints(input.text))), Some(Utf8(CodePoints(input.html))))
      && m.body == Join(Parts(input.text, input.html, boundary), CRLF)
  {
    var headers := Headers(input, boundary).value;
    var parts := Parts(input.text, input.html, boundary);
    HeadersNamed(input, boundary);
    forall h | h in headers ensures Written(h) {
      var i :| 0 <= i < |headers| && headers[i] == h;
      assert NameOf(headers[i]) == ExpectedNames(input)[i];
    }
    var body := Join(parts, CRLF);
    HeadOfJoin(parts, CRLF);
    JoinConcat(headers + [[]], parts, CRLF);
    ReadHeaders(headers, body);
    PartsRoundTrip(input.text, input.html, boundary);
  }

  // ---- Which messages are built ----

  predicate Deliverable(addresses: seq<MimeAddress>) {
    forall a | a in addresses :: GoodAddress(a) && NUL !in Trim(a.email)
  }

  predicate Acceptable(input: MimeMessageInput) {
    && input.recipients != []
    && Deliverable([input.from]) && Deliverable(input.recipients) && Deliverable(input.cc) && Deliverable(input.bcc)
    && (input.inReplyTo.Some? ==> FoldedHeaderSafe(input.inReplyTo.value))
    && forall id | id in input.references :: HeaderSafe(id)
  }

  lemma AddressHeaderOk(field: Text, addresses: seq<MimeAddress>)
    ensures AddressHeader(field, addresses).Ok? <==> Deliverable(addresses)
  {
    AllFormat(addresses);
    if FormatAll(addresses).Ok? { ListSafe(addresses); }
  }

  lemma {:induction false} ReferencesOk(references: seq<Text>)
    ensures ReferencesHeader(references).Ok? <==> forall id | id in references :: HeaderSafe(id)
  {
    if forall id | id in references :: HeaderSafe(id) { ReferencesFold(references); }
  }

  lemma ReplyOk(inReplyTo: Option<Text>)
    ensures ReplyHeader(inReplyTo).Ok? <==> (inReplyTo.Some? ==> FoldedHeaderSafe(inReplyTo.value))
  {}

  lemma EightOk(g: seq<Result<seq<Text>>>)
    requires |g| == 8 && g[4].Ok? && g[7].Ok?
    ensures Gather(g).Ok? <==> g[0].Ok? && g[1].Ok? && g[2].Ok? && g[3].Ok? && g[5].Ok? && g[6].Ok?
  {
    GathersAll(g);
  }

  lemma GroupsOk(input: MimeMessageInput, boundary: Text)
    ensures Gather(Groups(input, boundary)).Ok? <==>
      (AddressHeader(FROM, [input.from]).Ok? && AddressHeader(TO, input.recipients).Ok?
       && AddressHeader(CC, input.cc).Ok? && AddressHeader(BCC, input.bcc).Ok?
       && ReplyHeader(input.inReplyTo).Ok? && ReferencesHeader(input.references).Ok?)
  {
    EightOk(Groups(input, boundary));
  }

  /** A message is refused for exactly these reasons, and never for a fold of its own making. */
  lemma BuildsExactlyWhen(input: MimeMessageInput, boundary: Text)
    ensures BuildMimeMessage(input, boundary).Ok? <==> Acceptable(input)
  {
    AddressHeaderOk(FROM, [input.from]);
    AddressHeaderOk(TO, input.recipients);
    AddressHeaderOk(CC, input.cc);
    AddressHeaderOk(BCC, input.bcc);
    ReferencesOk(input.references);
    ReplyOk(input.inReplyTo);
    GroupsOk(input, boundary);
  }

  // ---- The procedure ----

  method FormatEach(addresses: seq<MimeAddress>) returns (r: Result<seq<Text>>)
    ensures r == FormatAll(addresses)
  {
    var parts: seq<Text> := [];
    assert addresses[0..] == addresses;
    assert forall all: seq<Text> :: parts + all == all;
    for i := 0 to |addresses|
      invariant FormatAll(addresses) ==
        if FormatAll(addresses[i..]).Ok? then Ok(parts + FormatAll(addresses[i..]).value) else FormatAll(addresses[i..])
    {
      assert addresses[i..][1..] == addresses[i + 1..];
      var formatted := FormatMimeAddress(addresses[i]);
      if formatted.Err? { return Err(formatted.error); }
      if FormatAll(addresses[i + 1..]).Ok? {
        Associative(parts, [formatted.value], FormatAll(addresses[i + 1..]).value);
      }
      parts := parts + [formatted.value];
    }
    assert addresses[|addresses|..] == [];
    assert parts + [] == parts;
    return Ok(parts);
  }

  lemma Pushed(g: seq<Result<seq<Text>>>, k: nat, before: seq<Text>, after: Result<seq<Text>>)
    requires k < |g| && Gather(g[..k]) == Ok(before) && after == Then(Ok(before), g[k])
    ensures Gather(g[..k + 1]) == after
    ensures after.Err? || k + 1 == |g| ==> Gather(g) == after
  {
    GatherStep(g, k);
    if after.Err? { GatherFails(g, k + 1); }
    if k + 1 == |g| { assert g[..k + 1] == g; }
  }

  /** Pushes the k-th group of headers when it is an address header. */
  method AddAddresses(headers: seq<Text>, field: Text, addresses: seq<MimeAddress>,
      ghost g: seq<Result<seq<Text>>>, ghost k: nat)
    returns (r: Result<seq<Text>>)
    requires k < |g| && Gather(g[..k]) == Ok(headers) && g[k] == AddressHeader(field, addresses)
    ensures r == Gather(g[..k + 1]) && (r.Err? ==> r == Gather(g))
  {
    if addresses == [] {
      assert headers + [] == headers;
      r := Ok(headers);
    } else {
      r := FormatEach(addresses);
      if r.Ok? {
        var value := Join(r.value, COMMA_SP);
        r := if FoldedHeaderSafe(value) then Ok(headers + [Line(field, value)]) else Err(IllegalLineBreak(field));
      }
    }
    Pushed(g, k, headers, r);
  }

  method AddReply(headers: seq<Text>, inReplyTo: Option<Text>) returns (r: Result<seq<Text>>)
    ensures r == Then(Ok(headers), ReplyHeader(inReplyTo))
  {
    if inReplyTo.Some? && inReplyTo.value != [] {
      if !FoldedHeaderSafe(inReplyTo.value) { return Err(IllegalLineBreak(IN_REPLY_TO)); }
      return Ok(headers + [Line(IN_REPLY_TO, inReplyTo.value)]);
    }
    assert headers + [] == headers;
    return Ok(headers);
  }

  method AddReferences(headers: seq<Text>, references: seq<Text>) returns (r: Result<seq<Text>>)
    ensures r == Then(Ok(headers), ReferencesHeader(references))
  {
    if references == [] {
      assert headers + [] == headers;
      return Ok(headers);
    }
    for i := 0 to |references|
      invariant forall k | 0 <= k < i :: HeaderSafe(references[k])
    {
      if !HeaderSafe(references[i]) {
        assert references[i] in references;
        return Err(IllegalLineBreak(REFERENCES));
      }
    }
    var folded := FoldTokens(REFERENCES, Join(references, [SP]), WIDTH);
    if !FoldedHeaderSafe(folded) { return Err(IllegalLineBreak(REFERENCES)); }
    return Ok(headers + [folded]);
  }

  /** The headers pushed one after another, stopping at the first refusal. */
  method CollectHeaders(input: MimeMessageInput, boundary: Text, ghost g: seq<Result<seq<Text>>>)
    returns (r: Result<seq<Text>>)
    requires |g| == 8
    requires g[0] == AddressHeader(FROM, [input.from]) && g[1] == AddressHeader(TO, input.recipients)
    requires g[2] == AddressHeader(CC, input.cc) && g[3] == AddressHeader(BCC, input.bcc)
    requires g[4] == Ok([Line(SUBJECT, FoldSubject(input.subject))]) && g[5] == ReplyHeader(input.inReplyTo)
    requires g[6] == ReferencesHeader(input.references) && g[7] == Ok(Fixed(boundary))
    ensures r == Gather(g)
  {
    r := AddFirst(input, g);
    if r.Err? { return; }
    r := AddCopies(r.value, input, g);
    if r.Err? { return; }
    r := AddRest(r.value, input, boundary, g);
  }

  method AddFirst(input: MimeMessageInput, ghost g: seq<Result<seq<Text>>>) returns (r: Result<seq<Text>>)
    requires |g| == 8 && g[0] == AddressHeader(FROM, [input.from]) && g[1] == AddressHeader(TO, input.recipients)
    ensures r == Gather(g[..2]) && (r.Err? ==> r == Gather(g))
  {
    assert Gather(g[..0]) == Ok([]);
    r := AddAddresses([], FROM, [input.from], g, 0);
    if r.Err? {
      assert g[..2][..1] == g[..1];
      return;
    }
    r := AddAddresses(r.value, TO, input.recipients, g, 1);
  }

  method AddCopies(addressed: seq<Text>, input: MimeMessageInput, ghost g: seq<Result<seq<Text>>>) returns (r: Result<seq<Text>>)
    requires |g| == 8 && Gather(g[..2]) == Ok(addressed)
    requires g[2] == AddressHeader(CC, input.cc) && g[3] == AddressHeader(BCC, input.bcc)
    ensures r == Gather(g[..4]) && (r.Err? ==> r == Gather(g))
  {
    r := AddAddresses(addressed, CC, input.cc, g, 2);
    if r.Err? {
      assert g[..4][..3] == g[..3];
      return;
    }
    r := AddAddresses(r.value, BCC, input.bcc, g, 3);
  }

  method AddRest(addressed: seq<Text>, input: MimeMessageInput, boundary: Text, ghost g: seq<Result<seq<Text>>>)
    returns (r: Result<seq<Text>>)
    requires |g| == 8 && Gather(g[..4]) == Ok(addressed)
    requires g[4] == Ok([Line(SUBJECT, FoldSubject(input.subject))]) && g[5] == ReplyHeader(input.inReplyTo)
    requires g[6] == ReferencesHeader(input.references) && g[7] == Ok(Fixed(boundary))
    ensures r == Gather(g)
  {
    var headers := addressed + [Line(SUBJECT, FoldSubject(input.subject))];
    Pushed(g, 4, addressed, Ok(headers));
    r := AddReply(headers, input.inReplyTo);
    Pushed(g, 5, headers, r);
    if r.Err? { return; }
    headers := r.value;
    r := AddReferences(headers, input.references);
    Pushed(g, 6, headers, r);
    if r.Err? { return; }
    headers := r.value;
    r := Ok(headers + Fixed(boundary));
    Pushed(g, 7, headers, r);
  }

  /** `buildMimeMessage`. */
  method BuildMessage(input: MimeMessageInput, boundary: Text) returns (r: Result<Text>)
    ensures r == BuildMimeMessage(input, boundary)
  {
    if input.recipients == [] { return Err(NoRecipients); }
    GroupsAre(input, boundary);
    var headers := CollectHeaders(input, boundary, Groups(input, boundary));
    r := Assemble(headers, input, boundary);
  }

  /** Headers, an empty line, and the two parts between their delimiters. */
  method Assemble(headers: Result<seq<Text>>, input: MimeMessageInput, boundary: Text) returns (r: Result<Text>)
    requires headers == Headers(input, boundary)
    ensures r == BuildMimeMessage(input, boundary)
  {
    if headers.Err? { return Err(headers.error); }
    return Ok(Join(headers.value + [[]] + Parts(input.text, input.html, boundary), CRLF));
  }
}
