/** `encodeWord` and `foldHeaderLine` (`apps/api/src/providers/gmail/mime.ts`): what they produce,
    and what unfolding and splitting recover from a folded header.
 */
module EncodedWords {
  import opened Common
  import opened Strings
  import opened Encoding

  /** `=?UTF-8?B?` */
  const PREFIX: Text := [0x3D, 0x3F, 0x55, 0x54, 0x46, 0x2D, 0x38, 0x3F, 0x42, 0x3F]

  /** `?=` */
  const SUFFIX: Text := [0x3F, 0x3D]

  const FOLD: Text := CRLF + [SP]

  /** The byte budget of one word: 47. */
  const MAX_BYTES: nat := (75 - 10 - 2) * 3 / 4

  lemma Associative<T>(a: seq<T>, b: seq<T>, c: seq<T>)
    ensures (a + b) + c == a + (b + c)
  {}

  // ---- Encoded words (RFC 2047) ----

  /** Finished chunks of code points, and the chunk still being filled. */
  datatype Chunking = Chunking(done: seq<seq<CodePoint>>, open: seq<CodePoint>)

  /** One character more: a chunk that it does not fit into is closed first. */
  function Place(k: Chunking, c: CodePoint): Chunking {
    if |Utf8(k.open)| + |Utf8Of(c)| > MAX_BYTES && |Utf8(k.open)| > 0
    then Chunking(k.done + [k.open], [c])
    else Chunking(k.done, k.open + [c])
  }

  function Chunk(cs: seq<CodePoint>): Chunking {
    if cs == [] then Chunking([], []) else Place(Chunk(cs[..|cs| - 1]), cs[|cs| - 1])
  }

  function Closed(k: Chunking): seq<seq<CodePoint>> {
    if |Utf8(k.open)| > 0 then k.done + [k.open] else k.done
  }

  function Chunks(value: Text): seq<seq<CodePoint>> {
    Closed(Chunk(CodePoints(value)))
  }

  function Wrap(letters: Text): Text {
    PREFIX + letters + SUFFIX
  }

  function Word(chunk: seq<CodePoint>): Text {
    Wrap(Base64(Utf8(chunk)))
  }

  function Words(chunks: seq<seq<CodePoint>>): seq<Text> {
    seq(|chunks|, i requires 0 <= i < |chunks| => Word(chunks[i]))
  }

  function EncodeWord(value: Text): Text {
    Join(Words(Chunks(value)), FOLD)
  }

  function Flatten<T>(parts: seq<seq<T>>): seq<T> {
    if parts == [] then [] else parts[0] + Flatten(parts[1..])
  }

  lemma {:induction false} FlattenAppend<T>(parts: seq<seq<T>>, last: seq<T>)
    ensures Flatten(parts + [last]) == Flatten(parts) + last
  {
    if parts == [] {
      assert Flatten([last]) == last + Flatten<T>([]);
    } else {
      assert (parts + [last])[1..] == parts[1..] + [last];
      FlattenAppend(parts[1..], last);
    }
  }

  lemma {:induction false} Utf8Empty(cs: seq<CodePoint>)
    ensures |Utf8(cs)| == 0 <==> cs == []
  {}

  /** What a chunk must be: whole code points, within the budget, not empty. */
  predicate Fits(chunk: seq<CodePoint>) {
    chunk != [] && |Utf8(chunk)| <= MAX_BYTES
  }

  lemma Utf8Snoc(cs: seq<CodePoint>, c: CodePoint)
    ensures |Utf8(cs + [c])| == |Utf8(cs)| + |Utf8Of(c)| && |Utf8([c])| == |Utf8Of(c)|
  {
    Utf8Concat(cs, [c]);
    assert Utf8([c]) == Utf8Of(c) by { assert Utf8Of(c) + [] == Utf8Of(c); }
  }

  predicate AllFit(chunks: seq<seq<CodePoint>>) {
    forall c | c in chunks :: Fits(c)
  }

  lemma {:induction false} ChunkFits(cs: seq<CodePoint>)
    ensures AllFit(Chunk(cs).done)
    ensures cs != [] ==> Fits(Chunk(cs).open)
  {
    if cs != [] {
      var front, c := cs[..|cs| - 1], cs[|cs| - 1];
      ChunkFits(front);
      Utf8Snoc(Chunk(front).open, c);
      Utf8Empty(Chunk(front).open);
    }
  }

  lemma {:induction false} ChunkKeeps(cs: seq<CodePoint>)
    ensures Flatten(Chunk(cs).done) + Chunk(cs).open == cs
  {
    if cs != [] {
      var front, c := cs[..|cs| - 1], cs[|cs| - 1];
      assert cs == front + [c];
      ChunkKeeps(front);
      ChunkSnoc(front, c);
      PlaceKeeps(Chunk(front), c);
    }
  }

  lemma ChunkSnoc(seen: seq<CodePoint>, c: CodePoint)
    ensures Chunk(seen + [c]) == Place(Chunk(seen), c)
  {
    assert (seen + [c])[..|seen|] == seen;
  }

  lemma PlaceKeeps(k: Chunking, c: CodePoint)
    ensures Flatten(Place(k, c).done) + Place(k, c).open == Flatten(k.done) + k.open + [c]
  {
    FlattenAppend(k.done, k.open);
    Associative(Flatten(k.done), k.open, [c]);
  }

  lemma ChunkSound(cs: seq<CodePoint>)
    ensures AllFit(Chunk(cs).done)
    ensures Chunk(cs).open == [] || Fits(Chunk(cs).open)
    ensures Flatten(Chunk(cs).done) + Chunk(cs).open == cs
    ensures cs != [] ==> Chunk(cs).open != []
  {
    ChunkFits(cs);
    ChunkKeeps(cs);
  }

  /** Chunks are whole code points in order, nothing lost, each within the byte budget. */
  lemma {:induction false} ChunksPartition(value: Text)
    ensures Flatten(Chunks(value)) == CodePoints(value)
    ensures AllFit(Chunks(value))
    ensures value != [] ==> Chunks(value) != []
  {
    var cs := CodePoints(value);
    ChunkSound(cs);
    var k := Chunk(cs);
    Utf8Empty(k.open);
    FlattenAppend(k.done, k.open);
  }

  /** The first character of `next` would not have fitted into `chunk`. */
  predicate Full(chunk: seq<CodePoint>, next: seq<CodePoint>) {
    next != [] && |Utf8(chunk)| + |Utf8Of(next[0])| > MAX_BYTES
  }

  /** No word is closed early. */
  ghost predicate Greedy(chunks: seq<seq<CodePoint>>) {
    forall i, j | 0 <= i < |chunks| && j == i + 1 && j < |chunks| :: Full(chunks[i], chunks[j])
  }

  lemma GreedyStep(done: seq<seq<CodePoint>>, open: seq<CodePoint>, c: CodePoint)
    requires Greedy(done + [open]) && open != []
    ensures |Utf8(open)| + |Utf8Of(c)| > MAX_BYTES ==> Greedy(done + [open] + [[c]])
    ensures Greedy(done + [open + [c]])
  {
    var was, split, grown := done + [open], done + [open] + [[c]], done + [open + [c]];
    if |Utf8(open)| + |Utf8Of(c)| > MAX_BYTES {
      assert Full(open, [c]);
      forall i, j | 0 <= i < |split| && j == i + 1 && j < |split| ensures Full(split[i], split[j]) {
        if j < |was| { assert Full(was[i], was[j]); }
      }
    }
    forall i, j | 0 <= i < |grown| && j == i + 1 && j < |grown| ensures Full(grown[i], grown[j]) {
      assert Full(was[i], was[j]);
      assert (open + [c])[0] == open[0];
    }
  }

  lemma {:induction false} ChunkGreedy(cs: seq<CodePoint>)
    requires cs != []
    ensures Greedy(Chunk(cs).done + [Chunk(cs).open])
  {
    var front, c := cs[..|cs| - 1], cs[|cs| - 1];
    if front == [] {
      assert Chunk(cs) == Chunking([], [] + [c]);
    } else {
      ChunkSound(front);
      ChunkGreedy(front);
      GreedyStep(Chunk(front).done, Chunk(front).open, c);
      Utf8Empty(Chunk(front).open);
    }
  }

  lemma ChunksGreedy(value: Text)
    ensures Greedy(Chunks(value))
  {
    if value != [] {
      ChunkGreedy(CodePoints(value));
      ChunkSound(CodePoints(value));
      Utf8Empty(Chunk(CodePoints(value)).open);
    }
  }

  // ---- Characters and lengths ----

  predicate NoBreak(s: Text) {
    forall u | u in s :: u != CR && u != LF && u != NUL
  }

  lemma WordHasNoBreak(chunk: seq<CodePoint>)
    ensures NoBreak(Word(chunk))
  {
    var letters := Base64(Utf8(chunk));
    Base64Alphabet(Utf8(chunk));
    forall u | u in Wrap(letters) ensures u != CR && u != LF && u != NUL {
      assert u in PREFIX || u in letters || u in SUFFIX;
      if u in letters { assert Base64Unit(u); }
    }
  }

  lemma WordLength(chunk: seq<CodePoint>)
    ensures |Word(chunk)| == 12 + 4 * ((|Utf8(chunk)| + 2) / 3)
  {
    Base64Length(Utf8(chunk));
  }

  lemma WordLimitOf(chunk: seq<CodePoint>)
    requires |Utf8(chunk)| <= MAX_BYTES
    ensures |Word(chunk)| <= 76 && (|Word(chunk)| > 75 <==> |Utf8(chunk)| >= 46)
  {
    WordLength(chunk);
  }

  /** Every word is at most 76 characters, and passes 75 exactly when its chunk holds 46 or 47 bytes. */
  lemma WordLimit(value: Text, i: nat)
    requires i < |Chunks(value)|
    ensures var chunk := Chunks(value)[i]; var word := Words(Chunks(value))[i];
      |word| <= 76 && (|word| > 75 <==> |Utf8(chunk)| >= 46)
  {
    ChunksPartition(value);
    assert Fits(Chunks(value)[i]);
    WordLimitOf(Chunks(value)[i]);
  }

  lemma {:induction false} OneChunk(cs: seq<CodePoint>)
    requires |Utf8(cs)| <= MAX_BYTES
    ensures Chunk(cs) == Chunking([], cs)
  {
    if cs != [] {
      var front, c := cs[..|cs| - 1], cs[|cs| - 1];
      assert cs == front + [c];
      Utf8Concat(front, [c]);
      assert Utf8([c]) == Utf8Of(c) by { assert Utf8Of(c) + [] == Utf8Of(c); }
      OneChunk(front);
    }
  }

  /** A value of at most 47 bytes is one word; from 46 bytes on that word breaks the limit of
      75 that section 2 of RFC 2047 sets. */
  lemma ShortValue(value: Text)
    requires value != [] && |Utf8(CodePoints(value))| <= MAX_BYTES
    ensures EncodeWord(value) == Word(CodePoints(value))
    ensures |EncodeWord(value)| > 75 <==> |Utf8(CodePoints(value))| >= 46
  {
    OneChunk(CodePoints(value));
    Utf8Empty(CodePoints(value));
    assert Chunks(value) == [CodePoints(value)];
    assert Words([CodePoints(value)]) == [Word(CodePoints(value))];
    WordLimitOf(CodePoints(value));
  }

  lemma {:induction false} AsciiLetters(n: nat)
    ensures |Utf8(CodePoints(seq(n, i => 97)))| == n
  {
    var s: Text := seq(n, i => 97);
    if n > 0 {
      AsciiLetters(n - 1);
      assert s[1..] == seq(n - 1, i => 97);
      assert CodePoints(s)[1..] == CodePoints(s[1..]);
    }
  }

  /** 46 letters are enough: the claim of at most 75 characters is missed by one. */
  lemma SeventySixCharacters()
    ensures |EncodeWord(seq(46, i => 97))| == 76
  {
    var value: Text := seq(46, i => 97);
    AsciiLetters(46);
    ShortValue(value);
    WordLength(CodePoints(value));
  }

  /** Words and chunk as the loop keeps them: in letters and in bytes. */
  predicate Mirrors(words: seq<Text>, chunk: seq<Byte>, k: Chunking) {
    words == Words(k.done) && chunk == Utf8(k.open)
  }

  /** The body of the loop. */
  method PutChar(words: seq<Text>, chunk: seq<Byte>, c: CodePoint, ghost k: Chunking)
    returns (moreWords: seq<Text>, nextChunk: seq<Byte>)
    requires Mirrors(words, chunk, k)
    ensures Mirrors(moreWords, nextChunk, Place(k, c))
  {
    var bytes := Utf8Of(c);
    Utf8Concat(k.open, [c]);
    assert Utf8([c]) == bytes by { assert bytes + [] == bytes; }
    WordsAppend(k.done, k.open);
    moreWords, nextChunk := words, chunk;
    if |chunk| + |bytes| > MAX_BYTES && |chunk| > 0 {
      moreWords := words + [Wrap(Base64(chunk))];
      nextChunk := [];
    }
    nextChunk := nextChunk + bytes;
  }

  lemma WordsAppend(chunks: seq<seq<CodePoint>>, last: seq<CodePoint>)
    ensures Words(chunks + [last]) == Words(chunks) + [Word(last)]
  {}

  lemma CodePointsStep(value: Text, i: nat)
    requires i < |value|
    ensures CodePoints(value[i..]) == [First(value[i..])] + CodePoints(value[i + Width(value[i..])..])
  {
    assert value[i..][Width(value[i..])..] == value[i + Width(value[i..])..];
  }

  /** `encodeWord`: the loop over characters, keeping bytes where the definition keeps code points. */
  method EncodeInWords(value: Text) returns (r: Text)
    ensures r == EncodeWord(value)
  {
    var words: seq<Text> := [];
    var chunk: seq<Byte> := [];
    ghost var seen: seq<CodePoint> := [];
    var i := 0;
    assert value[0..] == value;
    while i < |value|
      invariant i <= |value|
      invariant CodePoints(value) == seen + CodePoints(value[i..])
      invariant Mirrors(words, chunk, Chunk(seen))
    {
      var c := First(value[i..]);
      CodePointsStep(value, i);
      ChunkSnoc(seen, c);
      words, chunk := PutChar(words, chunk, c, Chunk(seen));
      i := i + Width(value[i..]);
      Associative(seen, [c], CodePoints(value[i..]));
      seen := seen + [c];
    }
    assert value[i..] == [];
    assert seen + [] == seen;
    WordsAppend(Chunk(seen).done, Chunk(seen).open);
    if |chunk| > 0 { words := words + [Wrap(Base64(chunk))]; }
    return Join(words, FOLD);
  }

  // ---- Unfolding (RFC 5322) ----

  /** Every fold collapsed to one space. */
  function Unfold(s: Text): Text {
    if s == [] then []
    else if |s| >= 3 && s[0] == CR && s[1] == LF && IsWsp(s[2]) then [SP] + Unfold(s[3..])
    else [s[0]] + Unfold(s[1..])
  }

  /** Line breaks occur only as folds. */
  predicate Tame(s: Text) {
    forall i | 0 <= i < |s| && s[i] == CR :: i + 2 < |s| && s[i + 1] == LF && IsWsp(s[i + 2])
  }

  lemma {:induction false} UnfoldConcat(a: Text, b: Text)
    requires Tame(a)
    ensures Unfold(a + b) == Unfold(a) + Unfold(b)
  {
    if a == [] {
      assert a + b == b;
    } else {
      var fold := a[0] == CR;
      var n := if fold then 3 else 1;
      var head := if fold then SP else a[0];
      TameTail(a, n);
      UnfoldConcat(a[n..], b);
      assert (a + b)[n..] == a[n..] + b;
      Associative([head], Unfold(a[n..]), Unfold(b));
    }
  }

  lemma TameTail(a: Text, n: nat)
    requires Tame(a) && n <= |a|
    ensures Tame(a[n..])
  {
    forall i | 0 <= i < |a[n..]| && a[n..][i] == CR
      ensures i + 2 < |a[n..]| && a[n..][i + 1] == LF && IsWsp(a[n..][i + 2])
    {
      assert a[i + n] == CR;
    }
  }

  lemma {:induction false} UnfoldPlain(s: Text)
    requires CR !in s
    ensures Unfold(s) == s
  {
    if s != [] { UnfoldPlain(s[1..]); }
  }

  lemma UnfoldFold(line: Text, rest: Text)
    requires CR !in line
    ensures Unfold(line + FOLD + rest) == line + [SP] + Unfold(rest)
    ensures Tame(rest) ==> Tame(line + FOLD + rest)
  {
    UnfoldPlain(line);
    UnfoldConcat(line, FOLD + rest);
    assert line + FOLD + rest == line + (FOLD + rest);
    assert (FOLD + rest)[3..] == rest;
    assert Unfold(FOLD + rest) == [SP] + Unfold(rest);
    Associative(line, [SP], Unfold(rest));
    if Tame(rest) {
      var all := line + FOLD + rest;
      assert forall i | 0 <= i < |line| :: all[i] == line[i] && line[i] in line;
      forall i | 0 <= i < |all| && all[i] == CR ensures i + 2 < |all| && all[i + 1] == LF && IsWsp(all[i + 2]) {
        if i >= |line| + 3 { assert rest[i - |line| - 3] == CR; }
      }
    }
  }

  /** Lines joined by folds unfold to the lines joined by spaces, and hold no other break. */
  lemma {:induction false} UnfoldJoin(lines: seq<Text>)
    requires forall line | line in lines :: CR !in line
    ensures Unfold(Join(lines, FOLD)) == Join(lines, [SP])
    ensures Tame(Join(lines, FOLD))
  {
    if lines != [] {
      assert lines[0] in lines;
      UnfoldPlain(lines[0]);
      UnfoldJoin(lines[1..]);
      UnfoldFold(lines[0], Join(lines[1..], FOLD));
    }
  }

  // ---- Folding a header of tokens ----

  /** `value.split(" ")` without the empty pieces. */
  function Tokens(value: Text): seq<Text> {
    if value == [] then []
    else
      var k := IndexOf(value, SP);
      (if k == 0 then [] else [value[..k]]) + (if k == |value| then [] else Tokens(value[k + 1..]))
  }

  predicate IsToken(t: Text) {
    t != [] && SP !in t
  }

  lemma {:induction false} TokensAre(value: Text)
    ensures forall t | t in Tokens(value) :: IsToken(t)
  {
    if value != [] {
      var k := IndexOf(value, SP);
      IndexOfIs(value, SP);
      if k < |value| { TokensAre(value[k + 1..]); }
    }
  }

  lemma {:induction false} TokensWithin(value: Text, u: Unit)
    requires u !in value
    ensures forall t | t in Tokens(value) :: u !in t
  {
    if value != [] {
      var k := IndexOf(value, SP);
      assert u !in value[..k];
      if k < |value| {
        assert u !in value[k + 1..];
        TokensWithin(value[k + 1..], u);
      }
    }
  }

  datatype Folding = Folding(done: seq<Text>, line: Text)

  function Fold(field: Text, tokens: seq<Text>, width: nat): Folding {
    if tokens == [] then Folding([], field + [COLON])
    else
      var before := Fold(field, tokens[..|tokens| - 1], width);
      var token := tokens[|tokens| - 1];
      if |before.line| + 1 + |token| <= width || before.line == field + [COLON]
      then Folding(before.done, before.line + [SP] + token)
      else Folding(before.done + [before.line], token)
  }

  function FoldLines(field: Text, tokens: seq<Text>, width: nat): seq<Text> {
    var f := Fold(field, tokens, width);
    if f.line != [] then f.done + [f.line] else f.done
  }

  function FoldHeaderLine(field: Text, value: Text, width: nat): Text {
    Join(FoldLines(field, Tokens(value), width), FOLD)
  }

  /** The tokens, a space before each. */
  function Spaced(tokens: seq<Text>): Text {
    if tokens == [] then [] else Spaced(tokens[..|tokens| - 1]) + ([SP] + tokens[|tokens| - 1])
  }

  lemma {:induction false} JoinExtend(done: seq<Text>, line: Text, more: Text, sep: Text)
    ensures Join(done + [line + more], sep) == Join(done + [line], sep) + more
  {
    if done == [] {
      assert done + [line] == [line] && done + [line + more] == [line + more];
    } else {
      JoinAppend(done, line, sep);
      JoinAppend(done, line + more, sep);
      Associative(Join(done, sep) + sep, line, more);
    }
  }

  lemma {:induction false} FoldKeeps(field: Text, tokens: seq<Text>, width: nat)
    requires forall t | t in tokens :: IsToken(t)
    ensures var f := Fold(field, tokens, width);
      f.line != [] && Join(f.done + [f.line], [SP]) == field + [COLON] + Spaced(tokens)
  {
    if tokens != [] {
      var front, token := tokens[..|tokens| - 1], tokens[|tokens| - 1];
      assert token in tokens && forall t | t in front :: t in tokens;
      FoldKeeps(field, front, width);
      var before := Fold(field, front, width);
      JoinExtend(before.done, before.line, [SP] + token, [SP]);
      JoinAppend(before.done + [before.line], token, [SP]);
      Associative(before.line, [SP], token);
      Associative(Join(before.done + [before.line], [SP]), [SP], token);
      Associative(field + [COLON], Spaced(front), [SP] + token);
    }
  }

  lemma {:induction false} FoldHasNoBreak(field: Text, tokens: seq<Text>, width: nat)
    requires CR !in field && forall t | t in tokens :: CR !in t
    ensures forall line | line in FoldLines(field, tokens, width) :: CR !in line
    ensures CR !in Fold(field, tokens, width).line
  {
    if tokens != [] {
      FoldHasNoBreak(field, tokens[..|tokens| - 1], width);
      assert tokens[|tokens| - 1] in tokens;
    }
  }

  /** The first token is never folded away from the field name, however long it is. */
  lemma {:induction false} FirstStays(field: Text, tokens: seq<Text>, width: nat)
    requires tokens != []
    ensures var f := Fold(field, tokens, width);
      field + [COLON] + [SP] + tokens[0] <= (if f.done == [] then f.line else f.done[0])
  {
    if |tokens| > 1 {
      FirstStays(field, tokens[..|tokens| - 1], width);
    } else {
      assert tokens[..0] == [];
    }
  }

  lemma FirstLineStarts(field: Text, tokens: seq<Text>, width: nat)
    requires tokens != []
    ensures FoldLines(field, tokens, width) != []
    ensures field + [COLON] + [SP] + tokens[0] <= FoldLines(field, tokens, width)[0]
  {
    FirstStays(field, tokens, width);
  }

  /** Unfolding gives back the field and its tokens, whatever the width. */
  lemma {:induction false} FoldUnfolds(field: Text, value: Text, width: nat)
    requires CR !in field && CR !in value
    ensures Unfold(FoldHeaderLine(field, value, width)) == field + [COLON] + Spaced(Tokens(value))
    ensures Tame(FoldHeaderLine(field, value, width))
  {
    TokensAre(value);
    TokensWithin(value, CR);
    FoldKeeps(field, Tokens(value), width);
    FoldHasNoBreak(field, Tokens(value), width);
    UnfoldJoin(FoldLines(field, Tokens(value), width));
  }

  lemma {:induction false} SpacedSplits(tokens: seq<Text>)
    requires tokens != []
    ensures Spaced(tokens) == ([SP] + tokens[0]) + Spaced(tokens[1..])
  {
    var front := tokens[..|tokens| - 1];
    if front != [] {
      SpacedSplits(front);
      var rest := tokens[1..];
      assert rest[..|rest| - 1] == front[1..];
      Associative([SP] + tokens[0], Spaced(front[1..]), [SP] + tokens[|tokens| - 1]);
    }
  }

  lemma TokensSkip(s: Text)
    ensures Tokens([SP] + s) == Tokens(s)
  {
    var spaced := [SP] + s;
    assert spaced[1..] == s && IndexOf(spaced, SP) == 0;
    assert Tokens(spaced) == [] + Tokens(s);
  }

  lemma TokensTake(first: Text, rest: Text)
    requires first != [] && SP !in first && (rest == [] || rest[0] == SP)
    ensures Tokens(first + rest) == [first] + Tokens(rest)
  {
    var s := first + rest;
    IndexOfAfter(first, rest, SP);
    assert s[..|first|] == first;
    if rest != [] {
      assert s[|first| + 1..] == rest[1..];
      assert rest == [SP] + rest[1..];
      TokensSkip(rest[1..]);
    }
  }

  /** A receiver that splits the unfolded value recovers the token list. */
  lemma {:induction false} TokensOfSpaced(tokens: seq<Text>)
    requires forall t | t in tokens :: IsToken(t)
    ensures Tokens(Spaced(tokens)) == tokens
  {
    if tokens != [] {
      var first, rest := tokens[0], tokens[1..];
      assert IsToken(first) && forall t | t in rest :: t in tokens;
      TokensOfSpaced(rest);
      SpacedSplits(tokens);
      Associative([SP], first, Spaced(rest));
      TokensSkip(first + Spaced(rest));
      SpacedStarts(rest);
      TokensTake(first, Spaced(rest));
    }
  }

  lemma SpacedStarts(tokens: seq<Text>)
    ensures Spaced(tokens) == [] || Spaced(tokens)[0] == SP
  {
    if tokens != [] { SpacedSplits(tokens); }
  }

  /** The two ways a line may pass the width: one token alone, or one token after `field:`,
      be that the field name or a token that equals it. */
  predicate Unbreakable(field: Text, tokens: seq<Text>, line: Text) {
    line == field + [COLON] || line in tokens || exists t | t in tokens :: line == field + [COLON] + [SP] + t
  }

  lemma {:induction false} FoldWidths(field: Text, tokens: seq<Text>, width: nat)
    ensures forall line | line in FoldLines(field, tokens, width) :: |line| <= width || Unbreakable(field, tokens, line)
    ensures |Fold(field, tokens, width).line| <= width || Unbreakable(field, tokens, Fold(field, tokens, width).line)
  {
    if tokens != [] {
      var front, token := tokens[..|tokens| - 1], tokens[|tokens| - 1];
      FoldWidths(field, front, width);
      assert token in tokens && forall t | t in front :: t in tokens;
      assert Unbreakable(field, tokens, field + [COLON] + [SP] + token);
    }
  }

  /** With no field-and-token pair longer than the width, no line is: 78 characters on the
      first, 79 on a continuation with its leading space. */
  lemma FoldWithinWidth(field: Text, tokens: seq<Text>, width: nat)
    requires tokens != []
    requires forall t | t in tokens :: |field| + 2 + |t| <= width
    ensures forall line | line in FoldLines(field, tokens, width) :: |line| <= width
  {
    FoldWidths(field, tokens, width);
    assert tokens[0] in tokens;
  }

  /** Folding happens only when it must: a header that fits stays on one line. */
  lemma {:induction false} FoldsOnlyWhenNeeded(field: Text, tokens: seq<Text>, width: nat)
    requires |field + [COLON] + Spaced(tokens)| <= width
    ensures Fold(field, tokens, width) == Folding([], field + [COLON] + Spaced(tokens))
  {
    if tokens != [] {
      FoldsOnlyWhenNeeded(field, tokens[..|tokens| - 1], width);
    }
  }

  /** `foldHeaderLine`. */
  method FoldTokens(field: Text, value: Text, width: nat) returns (r: Text)
    ensures r == FoldHeaderLine(field, value, width)
  {
    var tokens := Tokens(value);
    var lines: seq<Text> := [];
    var line := field + [COLON];
    assert tokens[..0] == [];
    for i := 0 to |tokens|
      invariant Fold(field, tokens[..i], width) == Folding(lines, line)
    {
      assert tokens[..i + 1][..i] == tokens[..i];
      if |line| + 1 + |tokens[i]| <= width || line == field + [COLON] {
        line := line + [SP] + tokens[i];
      } else {
        lines := lines + [line];
        line := tokens[i];
      }
    }
    assert tokens[..|tokens|] == tokens;
    if line != [] { lines := lines + [line]; }
    return Join(lines, FOLD);
  }
}
