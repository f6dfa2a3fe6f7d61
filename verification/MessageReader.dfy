/** What a receiver finds in a message that `buildMimeMessage` wrote
    (`apps/api/src/providers/gmail/mime.ts`): under each header name the value that was meant,
    and through the named boundary both bodies.
 */
module MessageReader {
  import opened Common
  import opened Strings
  import opened Encoding
  import opened EncodedWords
  import opened WordReader
  import opened Mime
  import A = AddressList

  // ---- A reader of header fields ----

  /** The value of a header line: unfolded, after the colon and a space. */
  function ValueOf(line: Text): Text {
    AfterColon(Unfold(line))
  }

  function AfterColon(u: Text): Text {
    var k := IndexOf(u, COLON);
    if k + 1 < |u| && u[k + 1] == SP then u[k + 2..] else if k < |u| then u[k + 1..] else []
  }

  /** The values of all headers with this name, in order. */
  function Values(headers: seq<Text>, name: Text): seq<Text> {
    if headers == [] then []
    else (if NameOf(headers[0]) == name then [ValueOf(headers[0])] else []) + Values(headers[1..], name)
  }

  /** The quoted parameter of a header value. */
  function QuotedParameter(value: Text): Text {
    var q := IndexOf(value, QUOTE);
    if q == |value| then [] else value[q + 1..][..IndexOf(value[q + 1..], QUOTE)]
  }

  lemma {:induction false} ValuesConcat(a: seq<Text>, b: seq<Text>, name: Text)
    ensures Values(a + b, name) == Values(a, name) + Values(b, name)
  {
    if a == [] {
      assert a + b == b;
    } else {
      assert (a + b)[1..] == a[1..] + b;
      ValuesConcat(a[1..], b, name);
    }
  }

  lemma {:induction false} NoValues(headers: seq<Text>, name: Text)
    requires forall i | 0 <= i < |headers| :: NameOf(headers[i]) != name
    ensures Values(headers, name) == []
  {
    if headers != [] {
      forall i | 0 <= i < |headers[1..]| ensures NameOf(headers[1..][i]) != name { assert headers[1..][i] == headers[i + 1]; }
      NoValues(headers[1..], name);
    }
  }

  lemma OneValue(line: Text)
    ensures Values([line], NameOf(line)) == [ValueOf(line)]
  {
    assert [line][1..] == [];
  }

  /** `name: ` in front of a text is read as a name and that text. */
  lemma AfterName(field: Text, rest: Text)
    requires COLON !in field
    ensures AfterColon(field + SEPARATOR + rest) == rest
  {
    assert field + SEPARATOR + rest == field + (SEPARATOR + rest);
    IndexOfAfter(field, SEPARATOR + rest, COLON);
  }

  lemma LineUnfolds(field: Text, value: Text)
    requires FieldName(field)
    ensures Unfold(Line(field, value)) == field + SEPARATOR + Unfold(value)
  {
    var head := field + SEPARATOR;
    forall u | u in head ensures u != CR {
      assert u in field || u == COLON || u == SP;
    }
    assert Tame(head) by { assert forall i | 0 <= i < |head| :: head[i] in head; }
    UnfoldPlain(head);
    UnfoldConcat(head, value);
  }

  /** A written line has the value it was written with. */
  lemma LineValue(field: Text, value: Text)
    requires FieldName(field) && Tame(value)
    ensures Values([Line(field, value)], field) == [Unfold(value)]
  {
    LineWritten(field, value);
    LineUnfolds(field, value);
    AfterName(field, Unfold(value));
    OneValue(Line(field, value));
  }

  // ---- One header among the groups ----

  lemma {:induction false} OneGroup(g: seq<Mime.Result<seq<Text>>>, i: nat, name: Text)
    requires i < |g| && Gather(g).Ok?
    requires forall j | 0 <= j < |g| && j != i :: g[j].Ok? ==> Values(g[j].value, name) == []
    ensures g[i].Ok? && Values(Gather(g).value, name) == Values(g[i].value, name)
    decreases |g|
  {
    var n := |g| - 1;
    var front := g[..n];
    assert forall j | 0 <= j < n :: front[j] == g[j];
    ValuesConcat(Gather(front).value, g[n].value, name);
    if i < n {
      OneGroup(front, i, name);
      assert Values(g[i].value, name) + [] == Values(g[i].value, name);
    } else {
      NoGroup(front, name);
      assert [] + Values(g[n].value, name) == Values(g[n].value, name);
    }
  }

  lemma {:induction false} NoGroup(g: seq<Mime.Result<seq<Text>>>, name: Text)
    requires Gather(g).Ok?
    requires forall j | 0 <= j < |g| :: g[j].Ok? ==> Values(g[j].value, name) == []
    ensures Values(Gather(g).value, name) == []
    decreases |g|
  {
    if g != [] {
      var n := |g| - 1;
      var front := g[..n];
      assert forall j | 0 <= j < n :: front[j] == g[j];
      NoGroup(front, name);
      ValuesConcat(Gather(front).value, g[n].value, name);
    }
  }

  lemma OtherName(r: Mime.Result<seq<Text>>, names: seq<Text>, name: Text)
    requires Named(r, names) && name !in names
    ensures r.Ok? ==> Values(r.value, name) == []
  {
    if r.Ok? {
      forall i | 0 <= i < |r.value| ensures NameOf(r.value[i]) != name { assert names[i] in names; }
      NoValues(r.value, name);
    }
  }

  /** The nine names are all different. */
  lemma DistinctNames()
    ensures |FROM| == 4 && |TO| == 2 && |CC| == 2 && |BCC| == 3 && |SUBJECT| == 7 && |IN_REPLY_TO| == 11
    ensures |REFERENCES| == 10 && |MIME_VERSION| == 12 && |CONTENT_TYPE| == 12
    ensures TO[0] != CC[0] && MIME_VERSION[0] != CONTENT_TYPE[0]
  {}

  ghost predicate AllNamed(g: seq<Mime.Result<seq<Text>>>, names: seq<seq<Text>>) {
    |g| == |names| && forall i | 0 <= i < |g| :: Named(g[i], names[i])
  }

  lemma GroupsAllNamed(input: MimeMessageInput, boundary: Text)
    requires NoBreak(boundary) && input.recipients != []
    ensures AllNamed(Groups(input, boundary), NameGroups(input))
  {
    RecipientsNamed(input);
    RestNamed(input, boundary);
    GroupsAre(input, boundary);
  }

  /** What is read under a name is read from its own group. */
  lemma GroupValues(input: MimeMessageInput, boundary: Text, i: nat, name: Text)
    requires NoBreak(boundary) && Headers(input, boundary).Ok? && i < 8
    requires forall j | 0 <= j < 8 && j != i :: name !in NameGroups(input)[j]
    ensures Groups(input, boundary)[i].Ok?
    ensures Values(Headers(input, boundary).value, name) == Values(Groups(input, boundary)[i].value, name)
  {
    var g, names := Groups(input, boundary), NameGroups(input);
    GroupsAllNamed(input, boundary);
    forall j | 0 <= j < |g| && j != i ensures g[j].Ok? ==> Values(g[j].value, name) == [] {
      OtherName(g[j], names[j], name);
    }
    OneGroup(g, i, name);
  }

  /** Where each name may stand. */
  function PlaceOf(name: Text): nat {
    if name == FROM then 0 else if name == TO then 1 else if name == CC then 2 else if name == BCC then 3
    else if name == SUBJECT then 4 else if name == IN_REPLY_TO then 5 else if name == REFERENCES then 6 else 7
  }

  lemma PlacesApart()
    ensures PlaceOf(FROM) == 0 && PlaceOf(TO) == 1 && PlaceOf(CC) == 2 && PlaceOf(BCC) == 3 && PlaceOf(SUBJECT) == 4
    ensures PlaceOf(IN_REPLY_TO) == 5 && PlaceOf(REFERENCES) == 6 && PlaceOf(MIME_VERSION) == 7 && PlaceOf(CONTENT_TYPE) == 7
  {
    DistinctNames();
  }

  lemma NamesInPlace(input: MimeMessageInput, j: nat, name: Text)
    requires j < 8 && name in NameGroups(input)[j]
    ensures PlaceOf(name) == j
  {
    PlacesApart();
  }

  /** What is read under a name is read from the group in its place. */
  lemma ReadInPlace(input: MimeMessageInput, boundary: Text, name: Text)
    requires NoBreak(boundary) && Headers(input, boundary).Ok? && PlaceOf(name) < 8
    ensures var i := PlaceOf(name);
      Groups(input, boundary)[i].Ok?
      && Values(Headers(input, boundary).value, name) == Values(Groups(input, boundary)[i].value, name)
  {
    forall j: nat | j < 8 && j != PlaceOf(name) ensures name !in NameGroups(input)[j] {
      if name in NameGroups(input)[j] { NamesInPlace(input, j, name); }
    }
    GroupValues(input, boundary, PlaceOf(name), name);
  }

  // ---- Each header ----

  lemma AddressValues(field: Text, addresses: seq<MimeAddress>)
    requires FieldName(field) && AddressHeader(field, addresses).Ok?
    ensures addresses == [] ==> Values(AddressHeader(field, addresses).value, field) == []
    ensures addresses != [] ==>
      FormatAll(addresses).Ok?
      && Values(AddressHeader(field, addresses).value, field) == [Unfold(Join(FormatAll(addresses).value, COMMA_SP))]
  {
    if addresses != [] {
      var value := Join(FormatAll(addresses).value, COMMA_SP);
      SafeIsTame(value);
      LineValue(field, value);
    }
  }

  lemma ReplyValues(inReplyTo: Option<Text>)
    requires ReplyHeader(inReplyTo).Ok?
    ensures Values(ReplyHeader(inReplyTo).value, IN_REPLY_TO)
         == if inReplyTo.Some? && inReplyTo.value != [] then [Unfold(inReplyTo.value)] else []
  {
    if inReplyTo.Some? && inReplyTo.value != [] {
      SafeIsTame(inReplyTo.value);
      LineValue(IN_REPLY_TO, inReplyTo.value);
    }
  }

  lemma AfterNameOnly(field: Text)
    requires COLON !in field
    ensures AfterColon(field + [COLON]) == []
  {
    IndexOfAfter(field, [COLON], COLON);
  }

  lemma TokensAfterName(field: Text, spaced: Text)
    requires COLON !in field && (spaced == [] || spaced[0] == SP)
    ensures Tokens(AfterColon(field + [COLON] + spaced)) == Tokens(spaced)
  {
    if spaced == [] {
      AfterNameOnly(field);
      assert field + [COLON] + spaced == field + [COLON];
    } else {
      var rest := spaced[1..];
      assert spaced == [SP] + rest;
      AfterName(field, rest);
      assert field + [COLON] + spaced == field + SEPARATOR + rest;
      TokensSkip(rest);
    }
  }

  lemma SpacedTokens(value: Text)
    ensures Tokens(Spaced(Tokens(value))) == Tokens(value)
    ensures Spaced(Tokens(value)) == [] || Spaced(Tokens(value))[0] == SP
  {
    TokensAre(value);
    TokensOfSpaced(Tokens(value));
    SpacedStarts(Tokens(value));
  }

  lemma ReferencesName()
    ensures FieldName(REFERENCES)
  {
    assert forall i | 0 <= i < |REFERENCES| :: 33 <= REFERENCES[i] <= 126 && REFERENCES[i] != COLON;
  }

  lemma ChainUnfolds(references: seq<Text>)
    requires forall id | id in references :: HeaderSafe(id)
    ensures Unfold(FoldedReferences(references)) == REFERENCES + [COLON] + Spaced(Tokens(Join(references, [SP])))
  {
    JoinSafe(references);
    FoldUnfolds(REFERENCES, Join(references, [SP]), WIDTH);
  }

  lemma ChainReads(line: Text, field: Text, chain: Text)
    requires FieldName(field) && Unfold(line) == field + [COLON] + Spaced(Tokens(chain))
    ensures Tokens(ValueOf(line)) == Tokens(chain)
  {
    SpacedTokens(chain);
    TokensAfterName(field, Spaced(Tokens(chain)));
  }

  /** The folded chain: unfolded, it is the tokens of the chain with spaces between. */
  lemma ReferencesValue(references: seq<Text>)
    requires forall id | id in references :: HeaderSafe(id)
    ensures Tokens(ValueOf(FoldedReferences(references))) == Tokens(Join(references, [SP]))
  {
    ChainUnfolds(references);
    ReferencesName();
    ChainReads(FoldedReferences(references), REFERENCES, Join(references, [SP]));
  }

  lemma ReferencesValues(references: seq<Text>)
    requires ReferencesHeader(references).Ok?
    ensures references == [] ==> Values(ReferencesHeader(references).value, REFERENCES) == []
    ensures references != [] ==>
      var vs := Values(ReferencesHeader(references).value, REFERENCES);
      |vs| == 1 && Tokens(vs[0]) == Tokens(Join(references, [SP]))
  {
    if references != [] {
      ReferencesFold(references);
      OneValue(FoldedReferences(references));
      ReferencesValue(references);
    }
  }

  lemma TwoValues(first: Text, second: Text)
    requires NameOf(first) != NameOf(second)
    ensures Values([first, second], NameOf(first)) == [ValueOf(first)]
    ensures Values([first, second], NameOf(second)) == [ValueOf(second)]
  {
    OneValue(second);
    assert [first, second][1..] == [second];
    NoValues([second], NameOf(first));
  }

  lemma LineReads(field: Text, value: Text)
    requires FieldName(field) && Tame(value) && Unfold(value) == value
    ensures NameOf(Line(field, value)) == field && ValueOf(Line(field, value)) == value
  {
    LineWritten(field, value);
    LineUnfolds(field, value);
    AfterName(field, value);
  }

  lemma FixedValues(boundary: Text)
    requires NoBreak(boundary)
    ensures Values(Fixed(boundary), MIME_VERSION) == [Lit("1.0")]
    ensures Values(Fixed(boundary), CONTENT_TYPE) == [ContentType(boundary)]
  {
    ContentTypeTame(boundary);
    UnfoldPlain(Lit("1.0"));
    ContentTypePlain(boundary);
    LineReads(MIME_VERSION, Lit("1.0"));
    LineReads(CONTENT_TYPE, ContentType(boundary));
    DistinctNames();
    TwoValues(Line(MIME_VERSION, Lit("1.0")), Line(CONTENT_TYPE, ContentType(boundary)));
  }

  const OPENING: Text := Lit("multipart/alternative; boundary=")

  lemma ContentTypeIs(boundary: Text)
    ensures ContentType(boundary) == OPENING + ([QUOTE] + (boundary + [QUOTE]))
  {
    assert Lit("multipart/alternative; boundary=\"") == OPENING + [QUOTE];
  }

  lemma ContentTypePlain(boundary: Text)
    requires NoBreak(boundary)
    ensures Unfold(ContentType(boundary)) == ContentType(boundary)
  {
    ContentTypeIs(boundary);
    forall u | u in ContentType(boundary) ensures u != CR { assert u in OPENING || u == QUOTE || u in boundary; }
    UnfoldPlain(ContentType(boundary));
  }

  lemma BoundaryRead(boundary: Text)
    requires QUOTE !in boundary
    ensures QuotedParameter(ContentType(boundary)) == boundary
  {
    var value, rest := ContentType(boundary), boundary + [QUOTE];
    ContentTypeIs(boundary);
    assert QUOTE !in OPENING;
    IndexOfAfter(OPENING, [QUOTE] + rest, QUOTE);
    assert value[|OPENING| + 1..] == rest;
    IndexOfAfter(boundary, [QUOTE], QUOTE);
    assert rest[..|boundary|] == boundary;
  }

  // ---- The message read back ----

  const ONE_ZERO: Text := Lit("1.0")
  const MULTIPART: Text := Lit("multipart/alternative; boundary=\"")

  /** No header when there is nobody to name, and otherwise one with everybody. */
  ghost predicate AddressesUnder(headers: seq<Text>, name: Text, addresses: seq<MimeAddress>) {
    && (addresses == [] ==> Values(headers, name) == [])
    && (addresses != [] ==>
          FormatAll(addresses).Ok? && Values(headers, name) == [Unfold(Join(FormatAll(addresses).value, COMMA_SP))])
  }

  ghost predicate RecipientsAre(headers: seq<Text>, input: MimeMessageInput) {
    && AddressesUnder(headers, FROM, [input.from]) && AddressesUnder(headers, TO, input.recipients)
    && AddressesUnder(headers, CC, input.cc) && AddressesUnder(headers, BCC, input.bcc)
  }

  ghost predicate ThreadIs(headers: seq<Text>, inReplyTo: Option<Text>, references: seq<Text>) {
    && Values(headers, IN_REPLY_TO) ==
         (if inReplyTo.Some? && inReplyTo.value != [] then [Unfold(inReplyTo.value)] else [])
    && (references == [] ==> Values(headers, REFERENCES) == [])
    && (references != [] ==> ChainIs(Values(headers, REFERENCES), references))
  }

  ghost predicate ChainIs(values: seq<Text>, references: seq<Text>) {
    |values| == 1 && Tokens(values[0]) == Tokens(Join(references, [SP]))
  }

  /** What stands under each name of the headers. */
  ghost predicate FieldsAre(headers: seq<Text>, input: MimeMessageInput, boundary: Text) {
    && RecipientsAre(headers, input)
    && Values(headers, SUBJECT) == [Unfold(FoldSubject(input.subject))]
    && ThreadIs(headers, input.inReplyTo, input.references)
    && Values(headers, MIME_VERSION) == [ONE_ZERO]
    && Values(headers, CONTENT_TYPE) == [MULTIPART + boundary + [QUOTE]]
  }

  lemma AddressesRead(input: MimeMessageInput, boundary: Text, name: Text, place: nat, addresses: seq<MimeAddress>)
    requires NoBreak(boundary) && Headers(input, boundary).Ok? && FieldName(name) && PlaceOf(name) == place < 8
    requires Groups(input, boundary)[place] == AddressHeader(name, addresses)
    ensures AddressesUnder(Headers(input, boundary).value, name, addresses)
  {
    ReadInPlace(input, boundary, name);
    AddressValues(name, addresses);
  }

  lemma RecipientsRead(input: MimeMessageInput, boundary: Text)
    requires NoBreak(boundary) && Headers(input, boundary).Ok?
    ensures RecipientsAre(Headers(input, boundary).value, input)
  {
    FromRead(input, boundary);
    ToRead(input, boundary);
    CcRead(input, boundary);
    BccRead(input, boundary);
  }

  lemma FromRead(input: MimeMessageInput, boundary: Text)
    requires NoBreak(boundary) && Headers(input, boundary).Ok?
    ensures AddressesUnder(Headers(input, boundary).value, FROM, [input.from])
  {
    PlacesApart();
    GroupsAre(input, boundary);
    AddressesRead(input, boundary, FROM, 0, [input.from]);
  }

  lemma ToRead(input: MimeMessageInput, boundary: Text)
    requires NoBreak(boundary) && Headers(input, boundary).Ok?
    ensures AddressesUnder(Headers(input, boundary).value, TO, input.recipients)
  {
    PlacesApart();
    GroupsAre(input, boundary);
    AddressesRead(input, boundary, TO, 1, input.recipients);
  }

  lemma CcRead(input: MimeMessageInput, boundary: Text)
    requires NoBreak(boundary) && Headers(input, boundary).Ok?
    ensures AddressesUnder(Headers(input, boundary).value, CC, input.cc)
  {
    PlacesApart();
    GroupsAre(input, boundary);
    AddressesRead(input, boundary, CC, 2, input.cc);
  }

  lemma BccRead(input: MimeMessageInput, boundary: Text)
    requires NoBreak(boundary) && Headers(input, boundary).Ok?
    ensures AddressesUnder(Headers(input, boundary).value, BCC, input.bcc)
  {
    PlacesApart();
    GroupsAre(input, boundary);
    AddressesRead(input, boundary, BCC, 3, input.bcc);
  }

  lemma SubjectRead(input: MimeMessageInput, boundary: Text)
    requires NoBreak(boundary) && Headers(input, boundary).Ok?
    ensures Values(Headers(input, boundary).value, SUBJECT) == [Unfold(FoldSubject(input.subject))]
  {
    PlacesApart();
    GroupsAre(input, boundary);
    ReadInPlace(input, boundary, SUBJECT);
    SubjectValue(input.subject);
  }

  lemma SubjectValue(subject: Text)
    ensures Values([Line(SUBJECT, FoldSubject(subject))], SUBJECT) == [Unfold(FoldSubject(subject))]
  {
    SubjectSafe(subject);
    LineValue(SUBJECT, FoldSubject(subject));
  }

  lemma ThreadRead(input: MimeMessageInput, boundary: Text)
    requires NoBreak(boundary) && Headers(input, boundary).Ok?
    ensures ThreadIs(Headers(input, boundary).value, input.inReplyTo, input.references)
  {
    PlacesApart();
    GroupsAre(input, boundary);
    ReadInPlace(input, boundary, IN_REPLY_TO);
    ReadInPlace(input, boundary, REFERENCES);
    ReplyValues(input.inReplyTo);
    ReferencesValues(input.references);
  }

  lemma FixedRead(input: MimeMessageInput, boundary: Text)
    requires NoBreak(boundary) && Headers(input, boundary).Ok?
    ensures Values(Headers(input, boundary).value, MIME_VERSION) == [ONE_ZERO]
    ensures Values(Headers(input, boundary).value, CONTENT_TYPE) == [MULTIPART + boundary + [QUOTE]]
  {
    PlacesApart();
    GroupsAre(input, boundary);
    ReadInPlace(input, boundary, MIME_VERSION);
    ReadInPlace(input, boundary, CONTENT_TYPE);
    FixedValues(boundary);
  }

  /** Under every name stands what was given: the addresses as formatted, the folded subject,
      the reply id, the chain, the version, and the boundary. */
  lemma FieldsReadBack(input: MimeMessageInput, boundary: Text)
    requires NoBreak(boundary) && BuildMimeMessage(input, boundary).Ok?
    ensures FieldsAre(ReadMessage(BuildMimeMessage(input, boundary).value).headers, input, boundary)
  {
    MessageRoundTrip(input, boundary);
    RecipientsRead(input, boundary);
    SubjectRead(input, boundary);
    ThreadRead(input, boundary);
    FixedRead(input, boundary);
  }

  lemma {:induction false} PrintedIsPlain(addresses: seq<MimeAddress>, lower: Text -> Text)
    requires FormatAll(addresses).Ok? && forall a | a in addresses :: A.Printable(a, lower)
    ensures CR !in Join(FormatAll(addresses).value, COMMA_SP)
  {
    if addresses != [] {
      var first, rest := addresses[0], addresses[1..];
      assert A.Printable(first, lower) && forall a | a in rest :: a in addresses;
      PrintedIsPlain(rest, lower);
      OnePrintedIsPlain(first, lower);
      assert FormatAll(addresses).value[1..] == FormatAll(rest).value;
    }
  }

  lemma PlainHasNoBreak(text: Text)
    requires IsAscii(text) || forall u | u in text :: Plain(u)
    ensures CR !in text
  {}

  lemma AngledIsPlain(name: Text, email: Text)
    requires CR !in name && CR !in email
    ensures CR !in A.Angled(name, email)
  {}

  lemma OnePrintedIsPlain(a: MimeAddress, lower: Text -> Text)
    requires A.Printable(a, lower)
    ensures FormatMimeAddress(a).Ok? && CR !in FormatMimeAddress(a).value
  {
    A.FormattedAs(a);
    A.EmailIsPlain(a.email);
    assert CR !in a.email by { assert forall u | u in a.email :: Plain(u); }
    if a.name.Some? {
      A.EscapePlain(a.name.value);
      AngledIsPlain(a.name.value, a.email);
    }
  }

  /** Under the name the parser finds exactly these addresses, or there is no such header. */
  ghost predicate ParsedAs(headers: seq<Text>, name: Text, addresses: seq<MimeAddress>, lower: Text -> Text) {
    && (addresses == [] ==> Values(headers, name) == [])
    && (addresses != [] ==>
          |Values(headers, name)| == 1 && A.ParseAddressList(Values(headers, name)[0], lower) == addresses)
  }

  lemma ListParses(headers: seq<Text>, name: Text, addresses: seq<MimeAddress>, lower: Text -> Text)
    requires AddressesUnder(headers, name, addresses) && forall a | a in addresses :: A.Printable(a, lower)
    ensures ParsedAs(headers, name, addresses, lower)
  {
    if addresses != [] {
      A.AddressListRoundTrip(addresses, lower);
      PrintedIsPlain(addresses, lower);
      UnfoldPlain(Join(FormatAll(addresses).value, COMMA_SP));
    }
  }

  /** A receiver that parses the lists finds the addresses that were given. */
  lemma {:induction false} AddressesFound(input: MimeMessageInput, boundary: Text, lower: Text -> Text)
    requires NoBreak(boundary) && BuildMimeMessage(input, boundary).Ok?
    requires forall a | a in [input.from] + input.recipients + input.cc + input.bcc :: A.Printable(a, lower)
    ensures var headers := ReadMessage(BuildMimeMessage(input, boundary).value).headers;
      && ParsedAs(headers, FROM, [input.from], lower) && ParsedAs(headers, TO, input.recipients, lower)
      && ParsedAs(headers, CC, input.cc, lower) && ParsedAs(headers, BCC, input.bcc, lower)
  {
    var headers := ReadMessage(BuildMimeMessage(input, boundary).value).headers;
    FieldsReadBack(input, boundary);
    ListParses(headers, FROM, [input.from], lower);
    ListParses(headers, TO, input.recipients, lower);
    ListParses(headers, CC, input.cc, lower);
    ListParses(headers, BCC, input.bcc, lower);
  }

  // ---- Display names ----

  /** A quoted string from behind its opening quote (section 3.2.4 of RFC 5322): what it holds,
      and what follows its closing quote. */
  function ReadQuoted(s: Text): (Text, Text) {
    if s == [] then ([], [])
    else if s[0] == QUOTE then ([], s[1..])
    else
      var n := if s[0] == BACKSLASH && |s| > 1 then 2 else 1;
      var rest := ReadQuoted(s[n..]);
      ([s[n - 1]] + rest.0, rest.1)
  }

  lemma {:induction false} EscapedReads(name: Text, after: Text)
    ensures ReadQuoted(Escape(name) + [QUOTE] + after) == (name, after)
  {
    var s := Escape(name) + [QUOTE] + after;
    if name == [] {
      assert s == [QUOTE] + after;
    } else {
      var head := if name[0] == QUOTE || name[0] == BACKSLASH then [BACKSLASH, name[0]] else [name[0]];
      EscapedReads(name[1..], after);
      assert s == head + (Escape(name[1..]) + [QUOTE] + after);
      assert s[|head|..] == Escape(name[1..]) + [QUOTE] + after;
      assert name == [name[0]] + name[1..];
    }
  }

  /** An ASCII name travels as a quoted string that holds it, in front of the email; a receiver
      that unescapes finds it whatever it holds. */
  lemma QuotedNameFound(a: MimeAddress)
    requires FormatMimeAddress(a).Ok? && a.name.Some? && Trim(a.name.value) != [] && IsAscii(Trim(a.name.value))
    ensures var text := FormatMimeAddress(a).value;
      text[0] == QUOTE && ReadQuoted(text[1..]) == (Trim(a.name.value), [SP, LESS] + Trim(a.email) + [GREATER])
  {
    var name, after := Trim(a.name.value), [SP, LESS] + Trim(a.email) + [GREATER];
    EscapedReads(name, after);
    QuotedText(Escape(name), Trim(a.email), FormatMimeAddress(a).value);
  }

  lemma QuotedText(name: Text, email: Text, text: Text)
    requires text == [QUOTE] + name + [QUOTE] + [SP, LESS] + email + [GREATER]
    ensures text[0] == QUOTE && text[1..] == name + [QUOTE] + ([SP, LESS] + email + [GREATER])
  {}

  lemma WordEnds(chunk: seq<CodePoint>)
    ensures |Word(chunk)| >= 2 && Word(chunk)[0] == EQUALS && Word(chunk)[|Word(chunk)| - 1] == EQUALS
  {}

  lemma {:induction false} JoinedEnds(chunks: seq<seq<CodePoint>>)
    requires chunks != []
    ensures var text := Join(Words(chunks), [SP]);
      |text| >= 2 && text[0] == EQUALS && text[|text| - 1] == EQUALS && IsAscii(text)
  {
    WordEnds(chunks[0]);
    WordIsAscii(chunks[0]);
    if |chunks| > 1 {
      JoinedEnds(chunks[1..]);
      JoinWords(chunks);
    }
  }

  lemma EncodedIsBare(name: Text)
    requires name != []
    ensures A.BareName(Unfold(EncodeWord(name))) && IsAscii(Unfold(EncodeWord(name)))
  {
    ChunksPartition(name);
    JoinedUnfolds(name);
    JoinedEnds(Chunks(name));
  }

  lemma {:induction false} AsciiUnfolds(text: Text)
    requires IsAscii(text)
    ensures Unfold(text) == text
  {
    UnfoldPlain(text);
  }

  lemma UnfoldBefore(head: Text, email: Text)
    requires Tame(head) && CR !in email
    ensures Unfold(head + [SP, LESS] + email + [GREATER]) == A.Unquoted(Unfold(head), email)
  {
    var rest := [SP] + ([LESS] + email + [GREATER]);
    assert head + [SP, LESS] + email + [GREATER] == head + rest;
    UnfoldConcat(head, rest);
    UnfoldPlain(rest);
    Associative(Unfold(head), [SP], [LESS] + email + [GREATER]);
  }

  lemma SentEncoded(a: MimeAddress)
    requires FormatMimeAddress(a).Ok? && a.name.Some? && !IsAscii(Trim(a.name.value))
    ensures ValidEmail(Trim(a.email))
    ensures Unfold(FormatMimeAddress(a).value) == A.Unquoted(Unfold(EncodeWord(Trim(a.name.value))), Trim(a.email))
  {
    WordsSafe(Trim(a.name.value));
    assert CR !in Trim(a.email) by { assert forall u | u in Trim(a.email) :: Plain(u); }
    UnfoldBefore(EncodeWord(Trim(a.name.value)), Trim(a.email));
  }

  lemma EncodedShown(name: Text, reader: Receiver)
    requires name != [] && Known(reader)
    ensures ReadHeaderText(reader, Unfold(EncodeWord(name))) == Scalars(CodePoints(name)) <==> !Refused(reader, Chunks(name))
  {
    EncodedIsBare(name);
    AsciiUnfolds(Unfold(EncodeWord(name)));
    WordsAreShown(reader, name);
  }

  /** A name that is not ASCII is sent as encoded words in front of the email: the parser finds
      that email, and a receiver shows the name as it was given, exactly when none of the words
      is too long for it. */
  lemma EncodedNameFound(a: MimeAddress, lower: Text -> Text, reader: Receiver) returns (shown: Text)
    requires FormatMimeAddress(a).Ok? && lower(Trim(a.email)) != [] && Known(reader)
    requires a.name.Some? && !IsAscii(Trim(a.name.value))
    ensures A.ParseAddress(Unfold(FormatMimeAddress(a).value), lower) == Some(MimeAddress(Some(shown), lower(Trim(a.email))))
    ensures ReadHeaderText(reader, shown) == Scalars(CodePoints(Trim(a.name.value)))
        <==> !Refused(reader, Chunks(Trim(a.name.value)))
  {
    var name := Trim(a.name.value);
    shown := Unfold(EncodeWord(name));
    SentEncoded(a);
    EncodedIsBare(name);
    A.UnquotedNameReads(shown, Trim(a.email), lower);
    EncodedShown(name, reader);
  }

  /** One that reads subjects finds the subject as it was typed, unless a piece of it looks
      like an encoded word or its words are too long for this receiver. */
  lemma SubjectFound(input: MimeMessageInput, boundary: Text, reader: Receiver)
    requires NoBreak(boundary) && BuildMimeMessage(input, boundary).Ok? && Known(reader)
    ensures var headers := ReadMessage(BuildMimeMessage(input, boundary).value).headers;
      var typed := SingleLine(input.subject);
      && |Values(headers, SUBJECT)| == 1
      && (ReadHeaderText(reader, Values(headers, SUBJECT)[0]) == Scalars(CodePoints(typed))
          <==> if IsAscii(typed) then !HoldsWord(reader, typed) else !Refused(reader, Chunks(typed)))
  {
    FieldsReadBack(input, boundary);
    SubjectReadsBack(reader, input.subject);
    UnfoldTwice(input.subject);
  }

  /** A folded subject unfolds to a line that unfolds no further. */
  lemma UnfoldTwice(subject: Text)
    ensures Unfold(Unfold(FoldSubject(subject))) == Unfold(FoldSubject(subject))
  {
    SubjectSafe(subject);
    UnfoldPlain(Unfold(FoldSubject(subject)));
  }

  /** One that follows threads finds the id replied to and the chain, id by id. */
  lemma ThreadFound(input: MimeMessageInput, boundary: Text)
    requires NoBreak(boundary) && BuildMimeMessage(input, boundary).Ok?
    requires input.inReplyTo.Some? ==> HeaderSafe(input.inReplyTo.value)
    requires forall id | id in input.references :: IsToken(id)
    ensures var headers := ReadMessage(BuildMimeMessage(input, boundary).value).headers;
      && Values(headers, IN_REPLY_TO) ==
           (if input.inReplyTo.Some? && input.inReplyTo.value != [] then [input.inReplyTo.value] else [])
      && |Values(headers, REFERENCES)| == (if input.references == [] then 0 else 1)
      && (input.references != [] ==> Tokens(Values(headers, REFERENCES)[0]) == input.references)
  {
    FieldsReadBack(input, boundary);
    TokensOfJoin(input.references);
    if input.inReplyTo.Some? { UnfoldPlain(input.inReplyTo.value); }
  }

  /** One that takes the boundary from the content type finds both bodies. */
  lemma BodiesFound(input: MimeMessageInput, boundary: Text)
    requires NoBreak(boundary) && QUOTE !in boundary && BuildMimeMessage(input, boundary).Ok?
    ensures var m := ReadMessage(BuildMimeMessage(input, boundary).value);
      && Values(m.headers, MIME_VERSION) == [ONE_ZERO]
      && |Values(m.headers, CONTENT_TYPE)| == 1
      && ReadParts(m.body, QuotedParameter(Values(m.headers, CONTENT_TYPE)[0]))
           == (Some(Utf8(CodePoints(input.text))), Some(Utf8(CodePoints(input.html))))
  {
    FieldsReadBack(input, boundary);
    MessageRoundTrip(input, boundary);
    BoundaryRead(boundary);
  }

  // ---- What each body is ----

  const UTF8_ONLY: Text := Lit("; charset=\"utf-8\"")
  const PLAIN: Text := Lit("text/plain") + UTF8_ONLY
  const HTML: Text := Lit("text/html") + UTF8_ONLY
  const BASE64: Text := Lit("base64")
  const TRANSFER_ENCODING: Text := CONTENT + Lit("-Transfer-Encoding")

  /** The header lines of the two parts of a multipart body. */
  function PartHeaders(body: Text, boundary: Text): (seq<Text>, seq<Text>) {
    var first := After(LinesOf(body), Delimiter(boundary));
    var second := After(first, Delimiter(boundary));
    (Before(Before(first, Delimiter(boundary)), []), Before(Before(second, Closing(boundary)), []))
  }

  lemma PartIs(kind: Text, text: Text)
    requires kind == TEXT_PLAIN || kind == TEXT_HTML
    ensures Before(Part(kind, text), []) == [kind, TRANSFER]
  {
    PartHeadersPlain(kind, [DASH]);
    var head, body := [kind, TRANSFER], BodyLines(text);
    assert Part(kind, text) == head + [[]] + body;
    BeforeAfter(head, [], body);
  }

  lemma PartHeadersAre(text: Text, html: Text, boundary: Text)
    requires NoBreak(boundary)
    ensures PartHeaders(Join(Parts(text, html, boundary), CRLF), boundary) == ([TEXT_PLAIN, TRANSFER], [TEXT_HTML, TRANSFER])
  {
    LinesOfParts(text, html, boundary);
    var d, c := Delimiter(boundary), Closing(boundary);
    PartHasNoDelimiter(TEXT_PLAIN, text, d);
    PartHasNoDelimiter(TEXT_HTML, html, c);
    TwoSections(d, Part(TEXT_PLAIN, text), Part(TEXT_HTML, html), c);
    PartIs(TEXT_PLAIN, text);
    PartIs(TEXT_HTML, html);
  }

  lemma PlainLine()
    ensures TEXT_PLAIN == CONTENT_TYPE + SEPARATOR + PLAIN
  {
    assert Lit("-Type: text/plain") == Lit("-Type") + SEPARATOR + Lit("text/plain");
  }

  lemma HtmlLine()
    ensures TEXT_HTML == CONTENT_TYPE + SEPARATOR + HTML
  {
    assert Lit("-Type: text/html") == Lit("-Type") + SEPARATOR + Lit("text/html");
  }

  lemma TransferLine()
    ensures TRANSFER == TRANSFER_ENCODING + SEPARATOR + BASE64
  {
    assert Lit("-Transfer-Encoding: base64") == Lit("-Transfer-Encoding") + SEPARATOR + BASE64;
  }

  lemma TwoLines(a: Text, x: Text, b: Text, y: Text)
    requires FieldName(a) && FieldName(b) && a != b && CR !in x && CR !in y
    ensures Values([a + SEPARATOR + x, b + SEPARATOR + y], a) == [x]
    ensures Values([a + SEPARATOR + x, b + SEPARATOR + y], b) == [y]
  {
    UnfoldPlain(x);
    UnfoldPlain(y);
    assert Tame(x) by { assert forall i | 0 <= i < |x| :: x[i] in x; }
    assert Tame(y) by { assert forall i | 0 <= i < |y| :: y[i] in y; }
    LineReads(a, x);
    LineReads(b, y);
    TwoValues(Line(a, x), Line(b, y));
  }

  lemma PartNames()
    ensures FieldName(CONTENT_TYPE) && FieldName(TRANSFER_ENCODING) && CONTENT_TYPE != TRANSFER_ENCODING
    ensures CR !in PLAIN && CR !in HTML && CR !in BASE64
  {
    assert |CONTENT_TYPE| != |TRANSFER_ENCODING|;
  }

  /** The first body is announced as plain text and the second as HTML, both in UTF-8 and in
      base64. */
  lemma KindsFound(input: MimeMessageInput, boundary: Text)
    requires NoBreak(boundary) && BuildMimeMessage(input, boundary).Ok?
    ensures var parts := PartHeaders(ReadMessage(BuildMimeMessage(input, boundary).value).body, boundary);
      && Values(parts.0, CONTENT_TYPE) == [PLAIN] && Values(parts.0, TRANSFER_ENCODING) == [BASE64]
      && Values(parts.1, CONTENT_TYPE) == [HTML] && Values(parts.1, TRANSFER_ENCODING) == [BASE64]
  {
    MessageRoundTrip(input, boundary);
    PartHeadersAre(input.text, input.html, boundary);
    PlainLine();
    HtmlLine();
    TransferLine();
    PartNames();
    TwoLines(CONTENT_TYPE, PLAIN, TRANSFER_ENCODING, BASE64);
    TwoLines(CONTENT_TYPE, HTML, TRANSFER_ENCODING, BASE64);
  }
}
