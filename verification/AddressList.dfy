/** `parseAddressList` (`apps/api/src/providers/gmail/map.ts`), which reads back the recipient
    lists that `formatMimeAddress` prints. `toLowerCase` is a parameter.
 */
module AddressList {
  import opened Common
  import opened Strings
  import opened EncodedWords
  import opened Mime

  // ---- Splitting at top-level commas ----

  datatype Scan = Scan(parts: seq<Text>, current: Text, inQuotes: bool, inAngles: bool)

  function Step(s: Scan, u: Unit): Scan {
    var inQuotes := if u == QUOTE then !s.inQuotes else s.inQuotes;
    var inAngles :=
      if u == LESS && !s.inQuotes then true else if u == GREATER && !s.inQuotes then false else s.inAngles;
    if u == COMMA && !inQuotes && !inAngles then Scan(s.parts + [s.current], [], inQuotes, inAngles)
    else Scan(s.parts, s.current + [u], inQuotes, inAngles)
  }

  function ScanFrom(s: Scan, value: Text): Scan
    decreases value
  {
    if value == [] then s else ScanFrom(Step(s, value[0]), value[1..])
  }

  function Pieces(value: Text): seq<Text> {
    var end := ScanFrom(Scan([], [], false, false), value);
    end.parts + [end.current]
  }

  // ---- One address ----

  /** What `.` does not match in a pattern. */
  predicate IsTerminator(u: Unit) {
    u in {LF, CR, 0x2028, 0x2029}
  }

  predicate OneLine(s: Text) {
    forall u | u in s :: !IsTerminator(u)
  }

  /** `^(.*)<([^>]+)>\s*$` with its `<` at `p`; no white space can follow the `>` of a trimmed text. */
  predicate AngledAt(t: Text, p: nat) {
    p + 2 < |t| && t[p] == LESS && t[|t| - 1] == GREATER && GREATER !in t[p + 1..|t| - 1] && OneLine(t[..p])
  }

  /** The match a greedy first group finds: the last possible `<` before `k`. */
  function LastAngle(t: Text, k: nat): (r: Option<nat>)
    ensures r.Some? ==> AngledAt(t, r.value)
  {
    if k == 0 then None else if AngledAt(t, k - 1) then Some(k - 1) else LastAngle(t, k - 1)
  }

  function Unquote(s: Text): Text {
    if |s| >= 2 && s[0] == QUOTE && s[|s| - 1] == QUOTE && OneLine(s[1..|s| - 1]) then s[1..|s| - 1] else s
  }

  /** The last `)` on the line that a `(` at the front opens. */
  function LastClose(s: Text, k: nat): (r: Option<nat>)
    requires k <= |s|
    ensures r.Some? ==> 1 <= r.value < |s|
  {
    if k <= 1 then None
    else if s[k - 1] == RPAREN && OneLine(s[1..k - 1]) then Some(k - 1)
    else LastClose(s, k - 1)
  }

  function WithoutComments(s: Text): Text {
    if s == [] then []
    else if s[0] == LPAREN && LastClose(s, |s|).Some? then WithoutComments(s[LastClose(s, |s|).value + 1..])
    else [s[0]] + WithoutComments(s[1..])
  }

  function ParseAddress(value: Text, lower: Text -> Text): Option<MimeAddress> {
    var t := Trim(value);
    if t == [] then None
    else
      var angle := LastAngle(t, |t|);
      if angle.Some? then
        var name := Trim(Unquote(Trim(t[..angle.value])));
        var email := lower(Trim(t[angle.value + 1..|t| - 1]));
        if email == [] then None else Some(MimeAddress(if name == [] then None else Some(name), email))
      else
        var bare := Trim(Unquote(WithoutComments(t)));
        if bare == [] then None else Some(MimeAddress(None, lower(bare)))
  }

  function ParseAll(pieces: seq<Text>, lower: Text -> Text): seq<MimeAddress> {
    if pieces == [] then []
    else
      var first := ParseAddress(pieces[0], lower);
      (if first.Some? then [first.value] else []) + ParseAll(pieces[1..], lower)
  }

  function ParseAddressList(value: Text, lower: Text -> Text): seq<MimeAddress> {
    if value == [] then [] else ParseAll(Pieces(value), lower)
  }

  // ---- What survives the round trip ----

  predicate PlainName(name: Text) {
    name != [] && Trimmed(name) && IsAscii(name)
  }

  predicate Printable(a: MimeAddress, lower: Text -> Text) {
    && ValidEmail(a.email) && lower(a.email) == a.email
    && (a.name.Some? ==> PlainName(a.name.value) && QUOTE !in a.name.value && BACKSLASH !in a.name.value)
  }

  lemma {:induction false} ScanConcat(s: Scan, a: Text, b: Text)
    ensures ScanFrom(s, a + b) == ScanFrom(ScanFrom(s, a), b)
    decreases a
  {
    if a == [] {
      assert a + b == b;
    } else {
      assert (a + b)[1..] == a[1..] + b;
      ScanConcat(Step(s, a[0]), a[1..], b);
    }
  }

  /** Text that no rule reacts to is collected as it is. */
  lemma {:induction false} ScanText(s: Scan, text: Text)
    requires QUOTE !in text
    requires s.inQuotes || (forall u | u in text :: u != COMMA && u != LESS && u != GREATER)
    ensures ScanFrom(s, text) == Scan(s.parts, s.current + text, s.inQuotes, s.inAngles)
    decreases text
  {
    if text == [] {
      assert s.current + text == s.current;
    } else {
      assert text[0] in text && forall u | u in text[1..] :: u in text;
      var next := Step(s, text[0]);
      assert next == Scan(s.parts, s.current + [text[0]], s.inQuotes, s.inAngles);
      ScanText(next, text[1..]);
      assert s.current + [text[0]] + text[1..] == s.current + text;
    }
  }

  lemma {:induction false} ScanInAngles(s: Scan, text: Text)
    requires s.inAngles && !s.inQuotes && QUOTE !in text && GREATER !in text
    ensures ScanFrom(s, text) == Scan(s.parts, s.current + text, false, true)
    decreases text
  {
    if text == [] {
      assert s.current + text == s.current;
    } else {
      assert text[0] in text && forall u | u in text[1..] :: u in text;
      ScanInAngles(Step(s, text[0]), text[1..]);
      assert s.current + [text[0]] + text[1..] == s.current + text;
    }
  }

  /** A comma between angles separates nothing. */
  lemma AnglesKeepCommas(text: Text)
    requires QUOTE !in text && GREATER !in text
    ensures Pieces([LESS] + text + [GREATER]) == [[LESS] + text + [GREATER]]
  {
    var s := Scan([], [], false, false);
    ScanConcat(s, [LESS] + text, [GREATER]);
    ScanConcat(s, [LESS], text);
    assert ScanFrom(s, [LESS]) == Scan([], [LESS], false, true);
    ScanInAngles(Scan([], [LESS], false, true), text);
    assert ScanFrom(Scan([], [LESS] + text, false, true), [GREATER]) == Scan([], [LESS] + text + [GREATER], false, false);
  }

  /** Neither does one between quotes. */
  lemma QuotesKeepCommas(text: Text)
    requires QUOTE !in text
    ensures Pieces([QUOTE] + text + [QUOTE]) == [[QUOTE] + text + [QUOTE]]
  {
    var s := Scan([], [], false, false);
    ScanConcat(s, [QUOTE] + text, [QUOTE]);
    ScanConcat(s, [QUOTE], text);
    assert ScanFrom(s, [QUOTE]) == Scan([], [QUOTE], true, false);
    ScanText(Scan([], [QUOTE], true, false), text);
    ScanQuote(Scan([], [QUOTE] + text, true, false));
  }

  /** One anywhere else does. */
  lemma CommasSplit(before: Text, after: Text)
    requires forall u | u in before :: u != QUOTE && u != LESS && u != GREATER && u != COMMA
    ensures Pieces(before + [COMMA] + after) == [before] + Pieces(after)
  {
    var s := Scan([], [], false, false);
    ScanConcat(s, before + [COMMA], after);
    ScanConcat(s, before, [COMMA]);
    ScanText(s, before);
    assert [] + before == before;
    assert ScanFrom(Scan([], before, false, false), [COMMA]) == Scan([before], [], false, false);
    PartsGrow([before], s, after);
    assert [before] + s.parts == [before];
    var end := ScanFrom(s, after);
    assert [before] + end.parts + [end.current] == [before] + (end.parts + [end.current]);
  }

  /** What has been split off stays as it is. */
  lemma {:induction false} PartsGrow(done: seq<Text>, s: Scan, text: Text)
    ensures var end := ScanFrom(s, text);
      ScanFrom(Scan(done + s.parts, s.current, s.inQuotes, s.inAngles), text)
      == Scan(done + end.parts, end.current, end.inQuotes, end.inAngles)
    decreases text
  {
    if text != [] {
      var t := Step(s, text[0]);
      assert done + (s.parts + [s.current]) == done + s.parts + [s.current];
      PartsGrow(done, t, text[1..]);
    }
  }

  lemma EmailIsPlain(email: Text)
    requires ValidEmail(email)
    ensures email != [] && Trimmed(email) && Trim(email) == email && OneLine(email)
    ensures forall u | u in email :: u != QUOTE && u != COMMA && u != LESS && u != GREATER && u != LPAREN
  {
    assert email[0] in email && email[|email| - 1] in email;
    assert forall u | u in email :: Plain(u);
    TrimIs(email);
  }

  predicate NeedsEscape(name: Text) {
    exists i :: 0 <= i < |name| && (name[i] == QUOTE || name[i] == BACKSLASH)
  }

  lemma {:induction false} EscapeGrows(name: Text)
    ensures |Escape(name)| >= |name|
    ensures NeedsEscape(name) ==> |Escape(name)| > |name|
  {
    if name != [] {
      EscapeGrows(name[1..]);
      if NeedsEscape(name) && name[0] != QUOTE && name[0] != BACKSLASH {
        var i :| 0 <= i < |name| && (name[i] == QUOTE || name[i] == BACKSLASH);
        assert name[1..][i - 1] == name[i];
      }
    }
  }

  lemma {:induction false} EscapeNothing(name: Text)
    requires !NeedsEscape(name)
    ensures Escape(name) == name
  {
    if name != [] {
      assert forall i | 0 <= i < |name[1..]| :: name[1..][i] == name[i + 1];
      EscapeNothing(name[1..]);
      assert name == [name[0]] + name[1..];
    }
  }

  /** Escaping leaves a name alone exactly when it holds neither quote nor backslash. */
  lemma EscapePlain(name: Text)
    ensures Escape(name) == name <==> QUOTE !in name && BACKSLASH !in name
  {
    EscapeGrows(name);
    if !NeedsEscape(name) { EscapeNothing(name); }
  }

  lemma {:induction false} EscapeAscii(name: Text)
    requires IsAscii(name)
    ensures IsAscii(Escape(name))
  {
    if name != [] {
      assert name[0] in name && forall u | u in name[1..] :: u in name;
      EscapeAscii(name[1..]);
    }
  }

  lemma {:induction false} EscapeEnds(name: Text)
    requires name != []
    ensures Escape(name) != [] && Escape(name)[|Escape(name)| - 1] == name[|name| - 1]
    ensures Escape(name)[0] == name[0] || Escape(name)[0] == BACKSLASH
  {
    if |name| > 1 { EscapeEnds(name[1..]); }
  }

  lemma EscapedIsPlain(name: Text)
    requires PlainName(name)
    ensures PlainName(Escape(name))
  {
    EscapeAscii(name);
    EscapeEnds(name);
    assert !IsSpace(BACKSLASH);
  }

  function Angled(name: Text, email: Text): Text {
    [QUOTE] + name + [QUOTE] + [SP, LESS] + email + [GREATER]
  }

  lemma FormattedAs(a: MimeAddress)
    requires ValidEmail(a.email) && (a.name.Some? ==> PlainName(a.name.value))
    ensures FormatMimeAddress(a) == Ok(if a.name.None? then a.email else Angled(Escape(a.name.value), a.email))
  {
    EmailIsPlain(a.email);
    if a.name.Some? {
      TrimIs(a.name.value);
      assert HeaderSafe(a.name.value);
    }
  }

  lemma ScanAngled(s: Scan, name: Text, email: Text)
    requires ValidEmail(email) && QUOTE !in name && !s.inQuotes && !s.inAngles
    ensures ScanFrom(s, Angled(name, email)) == Scan(s.parts, s.current + Angled(name, email), false, false)
  {
    EmailIsPlain(email);
    var c := s.current;
    var s1 := Scan(s.parts, c + [QUOTE], true, false);
    var s2 := Scan(s.parts, c + [QUOTE] + name, true, false);
    var s3 := Scan(s.parts, c + [QUOTE] + name + [QUOTE] + [SP] + [LESS], false, true);
    var s4 := Scan(s.parts, c + [QUOTE] + name + [QUOTE] + [SP] + [LESS] + email, false, true);
    ScanConcat(s, [QUOTE] + name + [QUOTE] + [SP, LESS] + email, [GREATER]);
    ScanConcat(s, [QUOTE] + name + [QUOTE] + [SP, LESS], email);
    ScanConcat(s, [QUOTE] + name + [QUOTE], [SP, LESS]);
    ScanConcat(s, [QUOTE] + name, [QUOTE]);
    ScanConcat(s, [QUOTE], name);
    assert ScanFrom(s, [QUOTE]) == s1;
    ScanText(s1, name);
    ScanQuote(s2);
    ScanOpen(Scan(s.parts, s2.current + [QUOTE], false, false));
    ScanText(s3, email);
    assert ScanFrom(s4, [GREATER]) == Scan(s.parts, s4.current + [GREATER], false, false);
    assert s4.current + [GREATER] == c + Angled(name, email);
  }

  lemma ScanQuote(s: Scan)
    requires s.inQuotes
    ensures ScanFrom(s, [QUOTE]) == Scan(s.parts, s.current + [QUOTE], false, s.inAngles)
  {}

  lemma ScanOpen(s: Scan)
    requires !s.inQuotes && !s.inAngles
    ensures ScanFrom(s, [SP, LESS]) == Scan(s.parts, s.current + [SP] + [LESS], false, true)
  {
    ScanConcat(s, [SP], [LESS]);
    assert [SP] + [LESS] == [SP, LESS];
  }

  lemma ScanFormatted(s: Scan, a: MimeAddress, lower: Text -> Text)
    requires Printable(a, lower) && !s.inQuotes && !s.inAngles
    ensures FormatMimeAddress(a).Ok?
    ensures ScanFrom(s, FormatMimeAddress(a).value) == Scan(s.parts, s.current + FormatMimeAddress(a).value, false, false)
  {
    FormattedAs(a);
    EmailIsPlain(a.email);
    if a.name.None? {
      ScanText(s, a.email);
    } else {
      EscapePlain(a.name.value);
      ScanAngled(s, a.name.value, a.email);
    }
  }

  /** The pieces of a joined list: each as printed, a space before all but the first. */
  function Printed(addresses: seq<MimeAddress>): seq<Text>
    requires FormatAll(addresses).Ok?
  {
    if addresses == [] then [] else [[SP] + FormatMimeAddress(addresses[0]).value] + Printed(addresses[1..])
  }

  lemma {:induction false} ScanSeparated(s: Scan, text: Text, tail: Text)
    requires ScanFrom(s, text) == Scan(s.parts, s.current + text, false, false)
    ensures ScanFrom(s, text + COMMA_SP + tail) == ScanFrom(Scan(s.parts + [s.current + text], [SP], false, false), tail)
  {
    ScanConcat(s, text + COMMA_SP, tail);
    ScanConcat(s, text, COMMA_SP);
    ScanComma(ScanFrom(s, text));
  }

  lemma {:induction false} ScanList(s: Scan, addresses: seq<MimeAddress>, lower: Text -> Text)
    requires !s.inQuotes && !s.inAngles && addresses != [] && FormatAll(addresses).Ok?
    requires forall a | a in addresses :: Printable(a, lower)
    ensures var end := ScanFrom(s, Join(FormatAll(addresses).value, COMMA_SP));
      end.parts + [end.current] == s.parts + [s.current + FormatMimeAddress(addresses[0]).value] + Printed(addresses[1..])
    decreases addresses
  {
    var first, rest := addresses[0], addresses[1..];
    var text := FormatMimeAddress(first).value;
    ScanFormatted(s, first, lower);
    if rest != [] {
      assert forall a | a in rest :: a in addresses;
      assert FormatAll(addresses).value[1..] == FormatAll(rest).value;
      AllFormat(rest);
      ScanSeparated(s, text, Join(FormatAll(rest).value, COMMA_SP));
      var done := s.parts + [s.current + text];
      ScanList(Scan(done, [SP], false, false), rest, lower);
      Associative(done, [[SP] + FormatMimeAddress(rest[0]).value], Printed(rest[1..]));
    }
  }

  lemma {:induction false} ScanComma(s: Scan)
    requires !s.inQuotes && !s.inAngles
    ensures ScanFrom(s, COMMA_SP) == Scan(s.parts + [s.current], [SP], false, false)
  {
    ScanConcat(s, [COMMA], [SP]);
    assert [COMMA] + [SP] == COMMA_SP;
    assert ScanFrom(s, [COMMA]) == Scan(s.parts + [s.current], [], false, false);
  }

  // ---- Reading one printed address ----

  lemma {:induction false} LastAngleIs(t: Text, p: nat, k: nat)
    requires p < k <= |t| && AngledAt(t, p)
    requires forall i | p < i < k :: t[i] != LESS
    ensures LastAngle(t, k) == Some(p)
  {
    if k - 1 != p { LastAngleIs(t, p, k - 1); }
  }

  lemma {:induction false} NoAngle(t: Text, k: nat)
    requires t != [] && t[|t| - 1] != GREATER && k <= |t|
    ensures LastAngle(t, k) == None
  {
    if k > 0 { NoAngle(t, k - 1); }
  }

  lemma {:induction false} NoComments(s: Text)
    requires LPAREN !in s
    ensures WithoutComments(s) == s
  {
    if s != [] {
      assert s[0] in s;
      NoComments(s[1..]);
    }
  }

  lemma TrimLeadingSpace(s: Text)
    requires Trimmed(s)
    ensures Trim([SP] + s) == s && Trim(s) == s
  {
    assert ([SP] + s)[1..] == s;
    TrimIs(s);
  }

  lemma TrimTrailingSpace(s: Text)
    requires Trimmed(s) && s != []
    ensures Trim(s + [SP]) == s
  {
    assert (s + [SP])[..|s|] == s;
    TrimIs(s);
    assert TrimStart(s + [SP]) == s + [SP];
  }

  lemma AngledMatches(name: Text, email: Text)
    requires ValidEmail(email) && PlainName(name)
    ensures var t := Angled(name, email); var p := |name| + 3;
      && LastAngle(t, |t|) == Some(p)
      && t[..p] == [QUOTE] + name + [QUOTE] + [SP] && t[p + 1..|t| - 1] == email
  {
    EmailIsPlain(email);
    var t := Angled(name, email);
    var p := |name| + 3;
    assert t[..p] == [QUOTE] + name + [QUOTE] + [SP];
    assert t[p + 1..|t| - 1] == email;
    forall u | u in t[..p] ensures !IsTerminator(u) {
      assert u == QUOTE || u in name || u == SP;
    }
    forall i | p < i < |t| ensures t[i] != LESS {
      if i < |t| - 1 { assert t[i] == email[i - p - 1] && email[i - p - 1] in email; }
    }
    LastAngleIs(t, p, |t|);
  }

  lemma QuotedName(name: Text)
    requires PlainName(name)
    ensures Trim(Unquote(Trim([QUOTE] + name + [QUOTE] + [SP]))) == name
  {
    var quoted := [QUOTE] + name + [QUOTE];
    TrimTrailingSpace(quoted);
    assert quoted[1..|quoted| - 1] == name;
    assert OneLine(name);
    TrimIs(name);
  }

  lemma ParseAngled(name: Text, email: Text, lower: Text -> Text)
    requires ValidEmail(email) && lower(email) != [] && PlainName(name)
    ensures Trimmed(Angled(name, email))
    ensures ParseAddress(Angled(name, email), lower) == Some(MimeAddress(Some(name), lower(email)))
  {
    EmailIsPlain(email);
    AngledMatches(name, email);
    QuotedName(name);
    TrimIs(Angled(name, email));
  }

  lemma ParseBare(email: Text, lower: Text -> Text)
    requires ValidEmail(email)
    ensures ParseAddress(email, lower) == Some(MimeAddress(None, lower(email)))
  {
    EmailIsPlain(email);
    assert email[|email| - 1] in email && email[0] in email;
    NoAngle(email, |email|);
    NoComments(email);
  }

  /** A printed address is read back alone: its email in lower case, and its name as the quoted
      string holds it. */
  lemma PrintedNameReads(a: MimeAddress, lower: Text -> Text)
    requires ValidEmail(a.email) && lower(a.email) != [] && (a.name.Some? ==> PlainName(a.name.value))
    ensures FormatMimeAddress(a).Ok? && Trimmed(FormatMimeAddress(a).value)
    ensures ParseAddress(FormatMimeAddress(a).value, lower)
         == Some(MimeAddress(if a.name.None? then None else Some(Escape(a.name.value)), lower(a.email)))
  {
    FormattedAs(a);
    EmailIsPlain(a.email);
    if a.name.Some? {
      EscapedIsPlain(a.name.value);
      ParseAngled(Escape(a.name.value), a.email, lower);
    } else {
      ParseBare(a.email, lower);
    }
  }

  /** The name survives exactly when it needs no escape: the parser never unescapes. */
  lemma {:induction false} NameReadsBack(a: MimeAddress, lower: Text -> Text)
    requires ValidEmail(a.email) && lower(a.email) != [] && a.name.Some? && PlainName(a.name.value)
    ensures FormatMimeAddress(a).Ok?
    ensures ParseAddress(FormatMimeAddress(a).value, lower) == Some(MimeAddress(a.name, lower(a.email)))
        <==> QUOTE !in a.name.value && BACKSLASH !in a.name.value
  {
    PrintedNameReads(a, lower);
    EscapePlain(a.name.value);
  }

  // ---- Addresses that other senders write ----

  /** White space and a quoted text at either end are not part of a name. */
  predicate BareName(name: Text) {
    name != [] && Trimmed(name) && OneLine(name) && !(|name| >= 2 && name[0] == QUOTE && name[|name| - 1] == QUOTE)
  }

  function Unquoted(name: Text, email: Text): Text {
    name + [SP] + ([LESS] + email + [GREATER])
  }

  lemma UnquotedMatches(name: Text, email: Text)
    requires BareName(name) && ValidEmail(email)
    ensures var t := Unquoted(name, email); var p := |name| + 1;
      LastAngle(t, |t|) == Some(p) && t[..p] == name + [SP] && t[p + 1..|t| - 1] == email
  {
    EmailIsPlain(email);
    var t := Unquoted(name, email);
    var p := |name| + 1;
    assert t[..p] == name + [SP] && t[p + 1..|t| - 1] == email;
    forall u | u in t[..p] ensures !IsTerminator(u) {
      assert u in name || u == SP;
    }
    forall i | p < i < |t| ensures t[i] != LESS {
      if i < |t| - 1 { assert t[i] == email[i - p - 1] && email[i - p - 1] in email; }
    }
    LastAngleIs(t, p, |t|);
  }

  /** A name that is not quoted is read as it stands, whatever else is in it. */
  lemma UnquotedNameReads(name: Text, email: Text, lower: Text -> Text)
    requires BareName(name) && ValidEmail(email) && lower(email) != []
    ensures ParseAddress(Unquoted(name, email), lower) == Some(MimeAddress(Some(name), lower(email)))
  {
    var t := Unquoted(name, email);
    UnquotedMatches(name, email);
    EmailIsPlain(email);
    assert t[0] == name[0] && t[|t| - 1] == GREATER;
    TrimIs(t);
    TrimTrailingSpace(name);
    TrimIs(name);
  }

  lemma {:induction false} CommentsAfter(head: Text, tail: Text)
    requires LPAREN !in head
    ensures WithoutComments(head + tail) == head + WithoutComments(tail)
  {
    if head == [] {
      assert head + tail == tail;
    } else {
      assert head[0] in head && forall u | u in head[1..] :: u in head;
      assert (head + tail)[1..] == head[1..] + tail;
      CommentsAfter(head[1..], tail);
      assert [head[0]] + (head[1..] + WithoutComments(tail)) == head + WithoutComments(tail);
    }
  }

  /** A comment after a bare address is not part of it. */
  lemma CommentIsDropped(email: Text, comment: Text, lower: Text -> Text)
    requires ValidEmail(email) && OneLine(comment)
    ensures ParseAddress(email + [SP] + ([LPAREN] + comment + [RPAREN]), lower) == Some(MimeAddress(None, lower(email)))
  {
    EmailIsPlain(email);
    var note := [LPAREN] + comment + [RPAREN];
    var t := email + [SP] + note;
    assert note[1..|note| - 1] == comment && note[|note|..] == [];
    assert LastClose(note, |note|) == Some(|note| - 1);
    assert WithoutComments(note) == [];
    assert email[0] in email && t[0] == email[0] && t[|t| - 1] == RPAREN;
    NoAngle(t, |t|);
    assert LPAREN !in email + [SP];
    CommentsAfter(email + [SP], note);
    assert WithoutComments(t) == email + [SP];
    TrimTrailingSpace(email);
    TrimIs(t);
  }

  lemma NoParens(t: Text, email: Text)
    requires t == [QUOTE] + email + [QUOTE] && LPAREN !in email
    ensures LPAREN !in t
  {
    forall u | u in t ensures u != LPAREN { assert u == QUOTE || u in email; }
  }

  /** A bare address in quotes is read without them. */
  lemma QuotedAddressReads(email: Text, lower: Text -> Text)
    requires ValidEmail(email)
    ensures ParseAddress([QUOTE] + email + [QUOTE], lower) == Some(MimeAddress(None, lower(email)))
  {
    EmailIsPlain(email);
    var t := [QUOTE] + email + [QUOTE];
    assert t[1..|t| - 1] == email;
    NoAngle(t, |t|);
    NoParens(t, email);
    NoComments(t);
    TrimIs(t);
  }

  lemma {:induction false} LastCloseIs(s: Text, p: nat, k: nat)
    requires 1 <= p < k <= |s| && s[p] == RPAREN && OneLine(s[1..p])
    requires forall i | p < i < k :: s[i] != RPAREN
    ensures LastClose(s, k) == Some(p)
  {
    if k - 1 != p { LastCloseIs(s, p, k - 1); }
  }

  lemma FrontDropped(email: Text, comment: Text)
    requires ValidEmail(email) && OneLine(comment)
    ensures WithoutComments([LPAREN] + comment + [RPAREN] + [SP] + email) == [SP] + email
  {
    EmailIsPlain(email);
    var t := [LPAREN] + comment + [RPAREN] + [SP] + email;
    var p := |comment| + 1;
    assert t[p] == RPAREN && t[1..p] == comment && t[p + 1..] == [SP] + email;
    forall i | p < i < |t| ensures t[i] != RPAREN {
      if i > p + 1 { assert t[i] == email[i - p - 2] && email[i - p - 2] in email && Plain(t[i]); }
    }
    LastCloseIs(t, p, |t|);
    NoComments([SP] + email);
  }

  /** Neither is one in front of it. */
  lemma CommentInFront(email: Text, comment: Text, lower: Text -> Text)
    requires ValidEmail(email) && OneLine(comment)
    ensures ParseAddress([LPAREN] + comment + [RPAREN] + [SP] + email, lower) == Some(MimeAddress(None, lower(email)))
  {
    EmailIsPlain(email);
    var t := [LPAREN] + comment + [RPAREN] + [SP] + email;
    assert t[|t| - 1] == email[|email| - 1] && email[|email| - 1] in email;
    NoAngle(t, |t|);
    FrontDropped(email, comment);
    TrimIs(t);
    TrimLeadingSpace(email);
    Unenclosed([SP] + email);
  }

  lemma Unenclosed(s: Text)
    requires s != [] && s[0] != QUOTE
    ensures Unquote(s) == s
  {}

  /** A bracket that is never closed opens no comment. */
  lemma {:induction false} OpenIsKept(s: Text)
    requires RPAREN !in s
    ensures WithoutComments(s) == s
  {
    if s != [] {
      NoClose(s, |s|);
      OpenIsKept(s[1..]);
    }
  }

  lemma {:induction false} NoClose(s: Text, k: nat)
    requires RPAREN !in s && k <= |s|
    ensures LastClose(s, k).None?
  {
    if k > 1 {
      assert s[k - 1] in s;
      NoClose(s, k - 1);
    }
  }

  /** An address between angles alone has no name. */
  lemma NamelessReads(email: Text, lower: Text -> Text)
    requires ValidEmail(email) && lower(email) != []
    ensures ParseAddress([LESS] + email + [GREATER], lower) == Some(MimeAddress(None, lower(email)))
  {
    EmailIsPlain(email);
    var t := [LESS] + email + [GREATER];
    assert t[..0] == [] && t[1..|t| - 1] == email;
    forall i | 0 < i < |t| ensures t[i] != LESS {
      if i < |t| - 1 { assert t[i] == email[i - 1] && email[i - 1] in email; }
    }
    LastAngleIs(t, 0, |t|);
    TrimIs(t);
    assert Trim(t[..0]) == [] && Unquote([]) == [] && Trim([]) == [];
  }

  /** Whatever is parsed has an address and no empty name, and blank text is no address. */
  lemma ParsedIsReal(value: Text, lower: Text -> Text)
    requires forall text: Text | text != [] :: lower(text) != []
    ensures Trim(value) == [] ==> ParseAddress(value, lower).None?
    ensures ParseAddress(value, lower).Some? ==>
      var a := ParseAddress(value, lower).value; a.email != [] && (a.name.Some? ==> a.name.value != [])
  {}

  /** Splitting loses nothing: the pieces put together with commas are the text. */
  lemma {:induction false} PiecesJoin(s: Scan, value: Text)
    ensures var end := ScanFrom(s, value);
      Join(end.parts + [end.current], [COMMA]) == Join(s.parts + [s.current], [COMMA]) + value
    decreases value
  {
    if value == [] {
      assert Join(s.parts + [s.current], [COMMA]) + [] == Join(s.parts + [s.current], [COMMA]);
    } else {
      var t := Step(s, value[0]);
      PiecesJoin(t, value[1..]);
      StepJoin(s, value[0]);
      var before := Join(s.parts + [s.current], [COMMA]);
      assert before + [value[0]] + value[1..] == before + value;
    }
  }

  lemma {:induction false} StepJoin(s: Scan, u: Unit)
    ensures Join(Step(s, u).parts + [Step(s, u).current], [COMMA]) == Join(s.parts + [s.current], [COMMA]) + [u]
  {
    var t := Step(s, u);
    if |t.parts| > |s.parts| {
      JoinAppend(s.parts + [s.current], [], [COMMA]);
      assert Join(s.parts + [s.current], [COMMA]) + [COMMA] + [] == Join(s.parts + [s.current], [COMMA]) + [COMMA];
    } else if s.parts == [] {
      assert [] + [s.current] == [s.current] && [] + [s.current + [u]] == [s.current + [u]];
    } else {
      JoinAppend(s.parts, s.current, [COMMA]);
      JoinAppend(s.parts, s.current + [u], [COMMA]);
      var before := Join(s.parts, [COMMA]) + [COMMA];
      assert before + (s.current + [u]) == before + s.current + [u];
    }
  }

  lemma SplitLosesNothing(value: Text)
    ensures Join(Pieces(value), [COMMA]) == value
  {
    var none: seq<Text> := [];
    PiecesJoin(Scan(none, [], false, false), value);
    assert none + [[]] == [[]] && Join([[]], [COMMA]) == [] && [] + value == value;
  }

  lemma SpacedParses(text: Text, lower: Text -> Text)
    requires Trimmed(text)
    ensures ParseAddress([SP] + text, lower) == ParseAddress(text, lower)
  {
    TrimLeadingSpace(text);
  }

  lemma PrintableIsGood(a: MimeAddress, lower: Text -> Text)
    requires Printable(a, lower)
    ensures GoodAddress(a) && FormatMimeAddress(a).Ok? && FormatMimeAddress(a).value != []
    ensures Trimmed(FormatMimeAddress(a).value)
    ensures ParseAddress(FormatMimeAddress(a).value, lower) == Some(a)
  {
    PrintedNameReads(a, lower);
    AddressFormats(a);
    FormattedAs(a);
    EmailIsPlain(a.email);
    if a.name.Some? { EscapePlain(a.name.value); }
  }

  lemma {:induction false} PrintedParse(addresses: seq<MimeAddress>, lower: Text -> Text)
    requires FormatAll(addresses).Ok? && forall a | a in addresses :: Printable(a, lower)
    ensures ParseAll(Printed(addresses), lower) == addresses
  {
    if addresses != [] {
      var a, rest := addresses[0], addresses[1..];
      assert Printable(a, lower) && forall b | b in rest :: b in addresses;
      PrintedParse(rest, lower);
      PrintableIsGood(a, lower);
      SpacedParses(FormatMimeAddress(a).value, lower);
      ParseAllStep([SP] + FormatMimeAddress(a).value, Printed(rest), a, lower);
      assert [a] + rest == addresses;
    }
  }

  lemma ParseAllStep(piece: Text, rest: seq<Text>, a: MimeAddress, lower: Text -> Text)
    requires ParseAddress(piece, lower) == Some(a)
    ensures ParseAll([piece] + rest, lower) == [a] + ParseAll(rest, lower)
  {
    assert ([piece] + rest)[1..] == rest;
  }

  lemma ListFormats(addresses: seq<MimeAddress>, lower: Text -> Text)
    requires forall a | a in addresses :: Printable(a, lower)
    ensures FormatAll(addresses).Ok?
  {
    forall a | a in addresses ensures GoodAddress(a) { PrintableIsGood(a, lower); }
    AllFormat(addresses);
  }

  /** The pieces of a printed list are what was printed, but for a leading space. */
  lemma PiecesOfList(addresses: seq<MimeAddress>, lower: Text -> Text)
    requires addresses != [] && forall a | a in addresses :: Printable(a, lower)
    requires FormatAll(addresses).Ok?
    ensures Pieces(Join(FormatAll(addresses).value, COMMA_SP)) == [FormatMimeAddress(addresses[0]).value] + Printed(addresses[1..])
  {
    ScanList(Scan([], [], false, false), addresses, lower);
    assert [] + FormatMimeAddress(addresses[0]).value == FormatMimeAddress(addresses[0]).value;
    assert [] + [FormatMimeAddress(addresses[0]).value] == [FormatMimeAddress(addresses[0]).value];
  }

  lemma {:induction false} PiecesParse(addresses: seq<MimeAddress>, lower: Text -> Text)
    requires addresses != [] && forall a | a in addresses :: Printable(a, lower)
    requires FormatAll(addresses).Ok?
    ensures ParseAll([FormatMimeAddress(addresses[0]).value] + Printed(addresses[1..]), lower) == addresses
  {
    var first, rest := addresses[0], addresses[1..];
    assert Printable(first, lower) && forall a | a in rest :: a in addresses;
    PrintableIsGood(first, lower);
    PrintedParse(rest, lower);
    ParseAllStep(FormatMimeAddress(first).value, Printed(rest), first, lower);
    assert [first] + rest == addresses;
  }

  /** A printed recipient list is read back entry by entry; names may hold commas and angle brackets. */
  lemma {:induction false} AddressListRoundTrip(addresses: seq<MimeAddress>, lower: Text -> Text)
    requires forall a | a in addresses :: Printable(a, lower)
    ensures FormatAll(addresses).Ok?
    ensures ParseAddressList(Join(FormatAll(addresses).value, COMMA_SP), lower) == addresses
  {
    ListFormats(addresses, lower);
    if addresses != [] {
      var first, rest := addresses[0], addresses[1..];
      assert Printable(first, lower) && forall a | a in rest :: a in addresses;
      PrintableIsGood(first, lower);
      HeadOfJoin(FormatAll(addresses).value, COMMA_SP);
      PiecesOfList(addresses, lower);
      PiecesParse(addresses, lower);
    }
  }

  // ---- The procedure ----

  /** `parseAddressList`: one pass over the characters, then each piece. */
  method ParseList(value: Text, lower: Text -> Text) returns (r: seq<MimeAddress>)
    ensures r == ParseAddressList(value, lower)
  {
    if value == [] { return []; }
    var parts: seq<Text> := [];
    var current: Text := [];
    var inQuotes, inAngles := false, false;
    assert value[0..] == value;
    for i := 0 to |value|
      invariant ScanFrom(Scan(parts, current, inQuotes, inAngles), value[i..])
             == ScanFrom(Scan([], [], false, false), value)
    {
      var u := value[i];
      assert value[i..][1..] == value[i + 1..];
      if u == QUOTE { inQuotes := !inQuotes; }
      else if u == LESS && !inQuotes { inAngles := true; }
      else if u == GREATER && !inQuotes { inAngles := false; }
      if u == COMMA && !inQuotes && !inAngles {
        parts := parts + [current];
        current := [];
      } else {
        current := current + [u];
      }
    }
    assert value[|value|..] == [];
    parts := parts + [current];
    r := ParseEach(parts, lower);
  }

  method ParseEach(parts: seq<Text>, lower: Text -> Text) returns (r: seq<MimeAddress>)
    ensures r == ParseAll(parts, lower)
  {
    r := [];
    assert parts[0..] == parts;
    for i := 0 to |parts|
      invariant r + ParseAll(parts[i..], lower) == ParseAll(parts, lower)
    {
      assert parts[i..][1..] == parts[i + 1..];
      var address := ParseAddress(parts[i], lower);
      if address.Some? {
        Associative(r, [address.value], ParseAll(parts[i + 1..], lower));
        r := r + [address.value];
      } else {
        assert [] + ParseAll(parts[i + 1..], lower) == ParseAll(parts[i + 1..], lower);
      }
    }
    assert parts[|parts|..] == [];
  }
}
