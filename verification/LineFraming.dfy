/** Cutting a connection's byte stream into messages, chunk by chunk, and when the chunks do not show. */
module LineFraming {
  import opened Bytes
  import opened Utf8

  /** `split('\n')`: at least one part, and the parts contain no newline. */
  function Split(s: string): (parts: seq<string>)
    ensures parts != []
  {
    if s == [] then [[]] else Extended(Split(s[..|s| - 1]), s[|s| - 1])
  }

  /** One more character: a newline starts a new part, anything else continues the last one. */
  function Extended(parts: seq<string>, c: char): (longer: seq<string>)
    requires parts != []
    ensures longer != []
  {
    if c == '\n' then parts + [[]] else ButLast(parts) + [Last(parts) + [c]]
  }

  function Last(parts: seq<string>): string
    requires parts != []
  {
    parts[|parts| - 1]
  }

  function ButLast(parts: seq<string>): seq<string>
    requires parts != []
  {
    parts[..|parts| - 1]
  }

  /** The parts with newlines between them. */
  function Join(parts: seq<string>): string {
    if parts == [] then [] else if |parts| == 1 then parts[0]
    else Join(parts[..|parts| - 1]) + ['\n'] + parts[|parts| - 1]
  }

  predicate NoNewline(s: string) {
    '\n' !in s
  }

  predicate AreLines(parts: seq<string>) {
    forall i :: 0 <= i < |parts| ==> NoNewline(parts[i])
  }

  lemma {:induction false} JoinExtended(parts: seq<string>, c: char)
    requires parts != []
    ensures Join(Extended(parts, c)) == Join(parts) + [c]
  {
    var n := |parts| - 1;
    var longer := Extended(parts, c);
    if c == '\n' {
      assert longer[..n + 1] == parts;
      assert Join(longer) == Join(parts) + ['\n'] + [];
    } else {
      assert longer[..n] == parts[..n];
      if n > 0 {
        assert Join(longer) == Join(parts[..n]) + ['\n'] + (parts[n] + [c]);
      }
    }
  }

  /** Splitting is exactly the way to write a text as newline-separated lines. */
  lemma {:induction false} SplitJoins(s: string)
    ensures IsSplit(Split(s), s)
  {
    if s != [] {
      var front, c := s[..|s| - 1], s[|s| - 1];
      SplitJoins(front);
      SplitJoinsStep(front, Split(front), c);
      assert s == front + [c];
    }
  }

  /** The parts are lines, and joined give the text. */
  predicate IsSplit(parts: seq<string>, text: string) {
    Join(parts) == text && AreLines(parts)
  }

  lemma SplitJoinsStep(text: string, parts: seq<string>, c: char)
    requires parts != [] && IsSplit(parts, text)
    ensures IsSplit(Extended(parts, c), text + [c])
  {
    JoinExtended(parts, c);
    AreLinesExtended(parts, c);
  }

  lemma AreLinesExtended(parts: seq<string>, c: char)
    requires parts != [] && AreLines(parts)
    ensures AreLines(Extended(parts, c))
  {
    var longer := Extended(parts, c);
    forall i | 0 <= i < |longer| ensures NoNewline(longer[i]) {
      assert i < |parts| - 1 ==> longer[i] == parts[i];
    }
  }

  function NonEmpty(lines: seq<string>): seq<string> {
    if lines == [] then []
    else
      var front := NonEmpty(lines[..|lines| - 1]);
      if lines[|lines| - 1] == [] then front else front + [lines[|lines| - 1]]
  }

  /** Only empty lines are dropped. */
  lemma {:induction false} NonEmptyExactly(lines: seq<string>, l: string)
    ensures multiset(NonEmpty(lines))[l] == if l == [] then 0 else multiset(lines)[l]
  {
    if lines != [] {
      var front, last := lines[..|lines| - 1], lines[|lines| - 1];
      NonEmptyExactly(front, l);
      assert lines == front + [last];
      OneMore(front, last, l);
      OneMore(NonEmpty(front), last, l);
    }
  }

  lemma OneMore(lines: seq<string>, last: string, l: string)
    ensures multiset(lines + [last])[l] == multiset(lines)[l] + if last == l then 1 else 0
  {
  }

  lemma {:induction false} NonEmptyConcat(a: seq<string>, b: seq<string>)
    ensures NonEmpty(a + b) == NonEmpty(a) + NonEmpty(b)
  {
    if b == [] {
      assert a + b == a;
    } else {
      var n := |b| - 1;
      assert (a + b)[..|a| + n] == a + b[..n];
      NonEmptyConcat(a, b[..n]);
    }
  }

  lemma ExtendedBehind(xs: seq<string>, ys: seq<string>, c: char)
    requires ys != []
    ensures Extended(xs + ys, c) == xs + Extended(ys, c)
  {
    assert Last(xs + ys) == Last(ys) && ButLast(xs + ys) == xs + ButLast(ys);
  }

  lemma SplitSnoc(s: string, c: char)
    ensures Split(s + [c]) == Extended(Split(s), c)
  {
    assert (s + [c])[..|s|] == s;
  }

  /** Only the unfinished last part matters for what follows. */
  lemma {:induction false} SplitConcat(a: string, b: string)
    ensures Split(a + b) == ButLast(Split(a)) + Split(Last(Split(a)) + b)
  {
    var done, rest := ButLast(Split(a)), Last(Split(a));
    if b == [] {
      assert a + b == a && rest + b == rest;
      SplitLine(a);
    } else {
      var front, c := b[..|b| - 1], b[|b| - 1];
      assert a + b == (a + front) + [c] && rest + b == (rest + front) + [c];
      SplitConcat(a, front);
      SplitSnoc(a + front, c);
      SplitSnoc(rest + front, c);
      ExtendedBehind(done, Split(rest + front), c);
    }
  }

  lemma SplitLine(a: string)
    ensures Split(Last(Split(a))) == [Last(Split(a))]
    ensures ButLast(Split(a)) + [Last(Split(a))] == Split(a)
  {
    SplitJoins(a);
    SplitNoNewline(Last(Split(a)));
  }

  lemma {:induction false} SplitNoNewline(s: string)
    requires NoNewline(s)
    ensures Split(s) == [s]
  {
    if s != [] {
      SplitNoNewline(s[..|s| - 1]);
      assert s == s[..|s| - 1] + [s[|s| - 1]];
    }
  }

  function Concat(chunks: seq<string>): string {
    if chunks == [] then [] else Concat(chunks[..|chunks| - 1]) + chunks[|chunks| - 1]
  }

  /** What the handler extracts from a chunk, and what it keeps. */
  function Handled(buffer: string, data: string): (seq<string>, string) {
    var parts := Split(buffer + data);
    (NonEmpty(ButLast(parts)), Last(parts))
  }

  function HandledAll(chunks: seq<string>): (seq<string>, string) {
    if chunks == [] then ([], [])
    else
      var (lines, buffer) := HandledAll(chunks[..|chunks| - 1]);
      var (more, rest) := Handled(buffer, chunks[|chunks| - 1]);
      (lines + more, rest)
  }

  lemma HandledConcat(before: string, data: string)
    ensures var (lines, buffer) := Handled("", before);
            var (more, rest) := Handled(buffer, data);
            Handled("", before + data) == (lines + more, rest)
  {
    assert "" + before == before && "" + (before + data) == before + data;
    var done, kept := ButLast(Split(before)), Last(Split(before));
    var parts := Split(kept + data);
    SplitConcat(before, data);
    assert ButLast(done + parts) == done + ButLast(parts) && Last(done + parts) == Last(parts);
    NonEmptyConcat(done, ButLast(parts));
  }

  /** The messages, their order and the remainder depend on the stream alone, not on how it arrived. */
  lemma {:induction false} ChunkingIsInvisible(chunks: seq<string>)
    ensures HandledAll(chunks) == Handled("", Concat(chunks))
  {
    if chunks == [] {
      assert "" + "" == "" && NonEmpty([]) == [];
    } else {
      ChunkingIsInvisible(chunks[..|chunks| - 1]);
      HandledConcat(Concat(chunks[..|chunks| - 1]), chunks[|chunks| - 1]);
    }
  }

  // ---------- bytes ----------

  /** Every chunk is decoded by itself. */
  function Texts(chunks: seq<seq<Byte>>): seq<string> {
    seq(|chunks|, i requires 0 <= i < |chunks| => Decode(chunks[i]))
  }

  function Stream(chunks: seq<seq<Byte>>): seq<Byte> {
    if chunks == [] then [] else Stream(chunks[..|chunks| - 1]) + chunks[|chunks| - 1]
  }

  /** No chunk continues a character that the stream before it leaves open. */
  predicate AllHarmless(chunks: seq<seq<Byte>>) {
    chunks == [] ||
    (AllHarmless(chunks[..|chunks| - 1]) && Harmless(Stream(chunks[..|chunks| - 1]), chunks[|chunks| - 1]))
  }

  lemma TextsSnoc(chunks: seq<seq<Byte>>)
    requires chunks != []
    ensures var n := |chunks| - 1; Concat(Texts(chunks)) == Concat(Texts(chunks[..n])) + Decode(chunks[n])
  {
    assert Texts(chunks)[..|chunks| - 1] == Texts(chunks[..|chunks| - 1]);
  }

  /** Reading chunk by chunk gives the text of the stream exactly when all cuts are harmless, and a longer one otherwise. */
  lemma {:induction false} TextOfChunks(chunks: seq<seq<Byte>>)
    ensures |Decode(Stream(chunks))| <= |Concat(Texts(chunks))|
    ensures if AllHarmless(chunks) then Decode(Stream(chunks)) == Concat(Texts(chunks))
            else |Decode(Stream(chunks))| < |Concat(Texts(chunks))|
  {
    if chunks != [] {
      var front, last := chunks[..|chunks| - 1], chunks[|chunks| - 1];
      TextOfChunks(front);
      TextsSnoc(chunks);
      CutIff(Stream(front), last);
    }
  }

  lemma {:induction false} NewlinesOfChunks(chunks: seq<seq<Byte>>)
    ensures Newlines(Concat(Texts(chunks))) == NewlineBytes(Stream(chunks))
  {
    if chunks != [] {
      var front, last := chunks[..|chunks| - 1], chunks[|chunks| - 1];
      NewlinesOfChunks(front);
      TextsSnoc(chunks);
      DecodeNewlines(last);
      NewlinesConcat(Concat(Texts(front)), Decode(last));
      NewlineBytesConcat(Stream(front), last);
    }
  }

  function Total(lines: seq<string>): nat {
    if lines == [] then 0 else Total(lines[..|lines| - 1]) + |lines[|lines| - 1]|
  }

  lemma TotalSnoc(lines: seq<string>, last: string)
    ensures Total(lines + [last]) == Total(lines) + |last|
  {
    assert (lines + [last])[..|lines|] == lines;
  }

  lemma {:induction false} NonEmptyTotal(lines: seq<string>)
    ensures Total(NonEmpty(lines)) == Total(lines)
  {
    if lines != [] {
      NonEmptyTotal(lines[..|lines| - 1]);
      TotalSnoc(NonEmpty(lines[..|lines| - 1]), lines[|lines| - 1]);
    }
  }

  lemma TotalExtended(parts: seq<string>, c: char)
    requires parts != []
    ensures Total(Extended(parts, c)) == Total(parts) + if c == '\n' then 0 else 1
  {
    TotalSnoc(parts, []);
    TotalSnoc(ButLast(parts), Last(parts) + [c]);
  }

  lemma {:induction false} SplitTotal(s: string)
    ensures Total(Split(s)) + Newlines(s) == |s|
  {
    if s != [] {
      SplitTotal(s[..|s| - 1]);
      TotalExtended(Split(s[..|s| - 1]), s[|s| - 1]);
    } else {
      TotalSnoc([], []);
      assert [] + [[]] == Split(s);
    }
  }

  /** Everything but the newlines is in the messages or in the remainder. */
  lemma HandledTotal(text: string)
    ensures var (lines, rest) := Handled("", text); Total(lines) + |rest| + Newlines(text) == |text|
  {
    assert "" + text == text;
    SplitTotal(text);
    PartsTotal(Split(text));
  }

  lemma PartsTotal(parts: seq<string>)
    requires parts != []
    ensures Total(NonEmpty(ButLast(parts))) + |Last(parts)| == Total(parts)
  {
    NonEmptyTotal(ButLast(parts));
    TotalSnoc(ButLast(parts), Last(parts));
    assert ButLast(parts) + [Last(parts)] == parts;
  }

  /**
   * The messages and the remainder are those of the whole byte stream exactly when no chunk begins inside a
   * character: where a chunk continues an open character, each side is replaced by itself.
   */
  lemma ChunkingIsInvisibleIff(chunks: seq<seq<Byte>>)
    ensures HandledAll(Texts(chunks)) == Handled("", Decode(Stream(chunks))) <==> AllHarmless(chunks)
  {
    var apart, whole := Concat(Texts(chunks)), Decode(Stream(chunks));
    ChunkingIsInvisible(Texts(chunks));
    TextOfChunks(chunks);
    NewlinesOfChunks(chunks);
    DecodeNewlines(Stream(chunks));
    HandledTotal(apart);
    HandledTotal(whole);
  }

  function EncodeAll(texts: seq<string>): seq<seq<Byte>> {
    seq(|texts|, i requires 0 <= i < |texts| => Encode(texts[i]))
  }

  /** Text sent in pieces of whole characters arrives as if in one. */
  lemma WholeCharactersArrive(texts: seq<string>)
    ensures HandledAll(Texts(EncodeAll(texts))) == Handled("", Concat(texts))
  {
    forall i | 0 <= i < |texts| ensures Texts(EncodeAll(texts))[i] == texts[i] { DecodeEncode(texts[i]); }
    assert Texts(EncodeAll(texts)) == texts;
    ChunkingIsInvisible(texts);
  }

  /** A chunk that ends inside a two-byte character. */
  lemma CutCharacterIsReplacedTwice()
    ensures HandledAll(Texts([[0xC3], [0xA9, 0x0A]])) != Handled("", Decode([0xC3, 0xA9, 0x0A]))
    ensures Decode([0xC3]) + Decode([0xA9, 0x0A]) == [REPLACEMENT, REPLACEMENT, '\n']
    ensures Decode([0xC3, 0xA9, 0x0A]) == ['\U{00E9}', '\n']
  {
    DecodedParts();
    DecodedWhole();
    OpenAtCut();
    ChunkingIsInvisibleIff([[0xC3], [0xA9, 0x0A]]);
    StreamOfTwo([0xC3], [0xA9, 0x0A]);
    assert [0xC3] + [0xA9, 0x0A] == [0xC3, 0xA9, 0x0A];
  }

  lemma StreamOfTwo(a: seq<Byte>, b: seq<Byte>)
    ensures Stream([a, b]) == a + b && (AllHarmless([a, b]) ==> Harmless(a, b))
  {
    assert [a, b][..1] == [a] && [a][..0] == [] && Stream([a]) == a;
  }

  lemma OpenAtCut()
    ensures !Harmless([0xC3], [0xA9, 0x0A])
  {
    One(Start, 0xC3);
  }

  lemma DecodedParts()
    ensures Decode([0xC3]) + Decode([0xA9, 0x0A]) == [REPLACEMENT, REPLACEMENT, '\n']
  {
    One(Start, 0xC3);
    One(Start, 0xA9);
    Snoc(Start, [0xA9], 0x0A);
    assert [0xA9] + [0x0A] == [0xA9, 0x0A];
  }

  lemma DecodedWhole()
    ensures Decode([0xC3, 0xA9, 0x0A]) == ['\U{00E9}', '\n']
  {
    One(Start, 0xC3);
    Snoc(Start, [0xC3], 0xA9);
    Snoc(Start, [0xC3, 0xA9], 0x0A);
    assert [0xC3] + [0xA9] == [0xC3, 0xA9] && [0xC3, 0xA9] + [0x0A] == [0xC3, 0xA9, 0x0A];
  }

  class LineReader {
    var buffer: string
    ghost var received: seq<seq<Byte>>
    ghost var extracted: seq<string>

    /** So far, exactly the non-empty complete lines of the chunks' texts have been extracted. */
    ghost predicate Valid()
      reads this
    {
      (extracted, buffer) == Handled("", Concat(Texts(received)))
    }

    constructor ()
      ensures Valid() && received == [] && extracted == []
    {
      buffer, received, extracted := [], [], [];
    }

    /** With only harmless cuts, the lines are those of the byte stream, and otherwise they are not. */
    method OnData(data: seq<Byte>) returns (lines: seq<string>)
      requires Valid()
      modifies this
      ensures Valid()
      ensures received == old(received) + [data] && extracted == old(extracted) + lines
      ensures (extracted, buffer) == Handled("", Decode(Stream(received))) <==> AllHarmless(received)
    {
      var text := Decode(data);
      HandledConcat(Concat(Texts(received)), text);
      buffer := buffer + text;
      var parts := Split(buffer);
      buffer := parts[|parts| - 1];
      lines := NonEmpty(parts[..|parts| - 1]);
      received, extracted := received + [data], extracted + lines;
      TextsSnoc(received);
      assert received[..|received| - 1] == old(received);
      ChunkingIsInvisible(Texts(received));
      ChunkingIsInvisibleIff(received);
    }
  }
}
