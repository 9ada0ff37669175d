/**
 * `Buffer.toString()`: UTF-8 decoding (Unicode, section 3.9) with U+FFFD for every maximal ill-formed part, and
 * when it may be done piece by piece.
 */
module Utf8 {
  import opened Bytes

  /** What is still expected: continuation bytes, the range of the next one, and the bits read so far. */
  datatype State = Start | Need(count: nat, lower: Byte, upper: Byte, bits: nat)

  const REPLACEMENT: char := '\U{FFFD}'

  function CharOf(n: nat): char {
    if n < 0xD800 || 0xE000 <= n < 0x11_0000 then n as char else REPLACEMENT
  }

  predicate Accepts(st: State, b: Byte) {
    st.Need? && st.lower <= b <= st.upper
  }

  /** What the first byte of a character leaves expected. */
  function First(b: Byte): State {
    if 0xC2 <= b <= 0xDF then Need(1, 0x80, 0xBF, b - 0xC0)
    else if 0xE0 <= b <= 0xEF then
      Need(2, if b == 0xE0 then 0xA0 else 0x80, if b == 0xED then 0x9F else 0xBF, b - 0xE0)
    else if 0xF0 <= b <= 0xF4 then
      Need(3, if b == 0xF0 then 0x90 else 0x80, if b == 0xF4 then 0x8F else 0xBF, b - 0xF0)
    else Start
  }

  function FirstOut(b: Byte): string {
    if First(b).Need? then [] else [if b < 0x80 then CharOf(b) else REPLACEMENT]
  }

  function Bits(st: State, b: Byte): nat
    requires st.Need?
  {
    64 * st.bits + b % 64
  }

  /** One more byte; one that does not continue the character ends it and is read anew. */
  function Next(st: State, b: Byte): State {
    if !Accepts(st, b) then First(b)
    else if st.count <= 1 then Start else Need(st.count - 1, 0x80, 0xBF, Bits(st, b))
  }

  function NextOut(st: State, b: Byte): string {
    if st.Start? then FirstOut(b)
    else if !Accepts(st, b) then [REPLACEMENT] + FirstOut(b)
    else if st.count <= 1 then [CharOf(Bits(st, b))] else []
  }

  // ---------- reading a sequence ----------

  /** How a reader moves, and what it gives out, on one byte. */
  datatype Reader = Reader(next: (State, Byte) -> State, out: (State, Byte) -> string)

  function StateAfter(r: Reader, st: State, bytes: seq<Byte>): State {
    if bytes == [] then st else r.next(StateAfter(r, st, bytes[..|bytes| - 1]), bytes[|bytes| - 1])
  }

  function Output(r: Reader, st: State, bytes: seq<Byte>): string {
    if bytes == [] then []
    else
      var front, b := bytes[..|bytes| - 1], bytes[|bytes| - 1];
      Output(r, st, front) + r.out(StateAfter(r, st, front), b)
  }

  lemma OneMore(r: Reader, st: State, bytes: seq<Byte>, b: Byte)
    ensures StateAfter(r, st, bytes + [b]) == r.next(StateAfter(r, st, bytes), b)
    ensures Output(r, st, bytes + [b]) == Output(r, st, bytes) + r.out(StateAfter(r, st, bytes), b)
  {
    assert (bytes + [b])[..|bytes|] == bytes;
  }

  lemma {:induction false} TwoParts(r: Reader, st: State, a: seq<Byte>, b: seq<Byte>)
    ensures StateAfter(r, st, a + b) == StateAfter(r, StateAfter(r, st, a), b)
    ensures Output(r, st, a + b) == Output(r, st, a) + Output(r, StateAfter(r, st, a), b)
  {
    if b == [] {
      assert a + b == a;
    } else {
      var front, last := b[..|b| - 1], b[|b| - 1];
      TwoParts(r, st, a, front);
      OneMore(r, st, a + front, last);
      OneMore(r, StateAfter(r, st, a), front, last);
      assert a + b == (a + front) + [last] && front + [last] == b;
    }
  }

  function Utf8Reader(): Reader {
    Reader(Next, NextOut)
  }

  function After(st: State, bytes: seq<Byte>): State {
    StateAfter(Utf8Reader(), st, bytes)
  }

  function Out(st: State, bytes: seq<Byte>): string {
    Output(Utf8Reader(), st, bytes)
  }

  /** An unfinished character at the end is replaced. */
  function Flush(st: State): string {
    if st.Start? then [] else [REPLACEMENT]
  }

  function Decode(bytes: seq<Byte>): string {
    Out(Start, bytes) + Flush(After(Start, bytes))
  }

  lemma Snoc(st: State, bytes: seq<Byte>, b: Byte)
    ensures After(st, bytes + [b]) == Next(After(st, bytes), b)
    ensures Out(st, bytes + [b]) == Out(st, bytes) + NextOut(After(st, bytes), b)
  {
    OneMore(Utf8Reader(), st, bytes, b);
  }

  lemma One(st: State, b: Byte)
    ensures After(st, [b]) == Next(st, b) && Out(st, [b]) == NextOut(st, b)
  {
    Snoc(st, [], b);
    assert [] + [b] == [b];
  }

  lemma InTwo(st: State, a: seq<Byte>, b: seq<Byte>)
    ensures After(st, a + b) == After(After(st, a), b)
    ensures Out(st, a + b) == Out(st, a) + Out(After(st, a), b)
  {
    TwoParts(Utf8Reader(), st, a, b);
  }

  // ---------- cuts ----------

  /** The bytes before the cut end a character, or what follows does not continue the one they leave open. */
  predicate Harmless(a: seq<Byte>, b: seq<Byte>) {
    b == [] || !Accepts(After(Start, a), b[0])
  }

  /** From an open character that the next byte does not continue, only the replacement is added. */
  lemma {:induction false} Broken(st: State, b: seq<Byte>)
    requires st.Need? && b != [] && !Accepts(st, b[0])
    ensures After(st, b) == After(Start, b) && Out(st, b) == [REPLACEMENT] + Out(Start, b)
  {
    if |b| == 1 {
      assert b == [b[0]];
      One(st, b[0]);
      One(Start, b[0]);
    } else {
      Broken(st, b[..|b| - 1]);
    }
  }

  predicate OpenOk(st: State) {
    st.Need? ==> 0x80 <= st.lower && st.upper <= 0xBF
  }

  /** From an open character that the next byte continues, less comes out than from two separate readings. */
  lemma {:induction false} Continued(st: State, b: seq<Byte>)
    requires st.Need? && b != [] && Accepts(st, b[0]) && OpenOk(st)
    ensures OpenOk(After(st, b))
    ensures || (After(st, b) == After(Start, b) && |Out(st, b)| <= |Out(Start, b)|)
            || (After(st, b).Need? && After(Start, b).Start? && |Out(st, b)| + 1 <= |Out(Start, b)|)
  {
    if |b| == 1 {
      assert b == [b[0]];
      One(st, b[0]);
      One(Start, b[0]);
    } else {
      Continued(st, b[..|b| - 1]);
    }
  }

  lemma {:induction false} AlwaysOpenOk(bytes: seq<Byte>)
    ensures OpenOk(After(Start, bytes))
  {
    if bytes != [] { AlwaysOpenOk(bytes[..|bytes| - 1]); }
  }

  lemma CutAtCharacter(a: seq<Byte>, b: seq<Byte>)
    requires After(Start, a).Start?
    ensures Decode(a + b) == Decode(a) + Decode(b)
  {
    InTwo(Start, a, b);
    assert Decode(a) == Out(Start, a);
  }

  lemma CutBeforeBreak(a: seq<Byte>, b: seq<Byte>)
    requires After(Start, a).Need? && b != [] && !Accepts(After(Start, a), b[0])
    ensures Decode(a + b) == Decode(a) + Decode(b)
  {
    InTwo(Start, a, b);
    Broken(After(Start, a), b);
    Regroup(Out(Start, a), [REPLACEMENT], Out(Start, b), Flush(After(Start, b)));
  }

  lemma Regroup(a: string, b: string, c: string, d: string)
    ensures (a + (b + c)) + d == (a + b) + (c + d)
  {
  }

  lemma CutInside(a: seq<Byte>, b: seq<Byte>)
    requires After(Start, a).Need? && b != [] && Accepts(After(Start, a), b[0])
    ensures |Decode(a + b)| < |Decode(a)| + |Decode(b)|
  {
    InTwo(Start, a, b);
    AlwaysOpenOk(a);
    Continued(After(Start, a), b);
  }

  /** Decoding two pieces apart never gives less, and gives the same exactly when the cut is harmless. */
  lemma CutIff(a: seq<Byte>, b: seq<Byte>)
    ensures Decode(a + b) == Decode(a) + Decode(b) <==> Harmless(a, b)
    ensures |Decode(a + b)| <= |Decode(a)| + |Decode(b)|
    ensures !Harmless(a, b) ==> |Decode(a + b)| < |Decode(a)| + |Decode(b)|
  {
    if b == [] {
      assert a + b == a && Decode(b) == [];
    } else if After(Start, a).Start? {
      CutAtCharacter(a, b);
    } else if Accepts(After(Start, a), b[0]) {
      CutInside(a, b);
    } else {
      CutBeforeBreak(a, b);
    }
  }

  // ---------- newlines ----------

  function Newlines(s: string): nat {
    if s == [] then 0 else Newlines(s[..|s| - 1]) + if s[|s| - 1] == '\n' then 1 else 0
  }

  lemma {:induction false} NewlinesConcat(a: string, b: string)
    ensures Newlines(a + b) == Newlines(a) + Newlines(b)
  {
    if b == [] {
      assert a + b == a;
    } else {
      assert (a + b)[..|a| + (|b| - 1)] == a + b[..|b| - 1];
      NewlinesConcat(a, b[..|b| - 1]);
    }
  }

  function NewlineBytes(bytes: seq<Byte>): nat {
    if bytes == [] then 0 else NewlineBytes(bytes[..|bytes| - 1]) + if bytes[|bytes| - 1] == 10 then 1 else 0
  }

  lemma {:induction false} NewlineBytesConcat(a: seq<Byte>, b: seq<Byte>)
    ensures NewlineBytes(a + b) == NewlineBytes(a) + NewlineBytes(b)
  {
    if b == [] {
      assert a + b == a;
    } else {
      assert (a + b)[..|a| + (|b| - 1)] == a + b[..|b| - 1];
      NewlineBytesConcat(a, b[..|b| - 1]);
    }
  }

  /** An open character cannot become a newline: it has, or will have, more than seven bits. */
  predicate NoNewlineAhead(st: State) {
    st.Need? ==>
      && OpenOk(st) && 1 <= st.count <= 3
      && (if st.count == 1 then st.bits >= 2 else st.bits >= 1 || st.lower >= 0x90)
  }

  lemma OneChar(c: char)
    ensures Newlines([c]) == if c == '\n' then 1 else 0
  {
    assert [c][..0] == [];
  }

  lemma NextNewlines(st: State, b: Byte)
    requires NoNewlineAhead(st)
    ensures NoNewlineAhead(Next(st, b))
    ensures Newlines(NextOut(st, b)) == if b == 10 then 1 else 0
  {
    OneChar(REPLACEMENT);
    OneChar(CharOf(b));
    if st.Need? && !Accepts(st, b) {
      NewlinesConcat([REPLACEMENT], FirstOut(b));
    } else if st.Need? && st.count == 1 {
      OneChar(CharOf(Bits(st, b)));
    }
  }

  lemma {:induction false} OutNewlines(bytes: seq<Byte>)
    ensures Newlines(Out(Start, bytes)) == NewlineBytes(bytes) && NoNewlineAhead(After(Start, bytes))
  {
    if bytes != [] {
      var front, b := bytes[..|bytes| - 1], bytes[|bytes| - 1];
      OutNewlines(front);
      NextNewlines(After(Start, front), b);
      NewlinesConcat(Out(Start, front), NextOut(After(Start, front), b));
    }
  }

  /** Newlines come from newline bytes alone, wherever a stream is cut. */
  lemma DecodeNewlines(bytes: seq<Byte>)
    ensures Newlines(Decode(bytes)) == NewlineBytes(bytes)
  {
    OutNewlines(bytes);
    NewlinesConcat(Out(Start, bytes), Flush(After(Start, bytes)));
    OneChar(REPLACEMENT);
  }

  // ---------- encoded text ----------

  function EncodeChar(c: char): seq<Byte> {
    var n := c as int;
    if n < 0x80 then [n]
    else if n < 0x800 then [0xC0 + n / 64, 0x80 + n % 64]
    else if n < 0x1_0000 then [0xE0 + n / 4096, 0x80 + n / 64 % 64, 0x80 + n % 64]
    else [0xF0 + n / 0x4_0000, 0x80 + n / 4096 % 64, 0x80 + n / 64 % 64, 0x80 + n % 64]
  }

  function EncodeWith(encode: char -> seq<Byte>, s: string): seq<Byte> {
    if s == [] then [] else EncodeWith(encode, s[..|s| - 1]) + encode(s[|s| - 1])
  }

  function Encode(s: string): seq<Byte> {
    EncodeWith(EncodeChar, s)
  }

  lemma Two(n: nat)
    requires 0x80 <= n < 0x800
    ensures var bytes: seq<Byte> := [0xC0 + n / 64, 0x80 + n % 64];
            After(Start, bytes) == Start && Out(Start, bytes) == [CharOf(n)]
  {
    var x: Byte, y: Byte := 0xC0 + n / 64, 0x80 + n % 64;
    One(Start, x);
    Snoc(Start, [x], y);
    assert [x] + [y] == [x, y] && y % 64 == n % 64;
  }

  lemma Three(n: nat)
    requires 0x800 <= n < 0x1_0000 && !(0xD800 <= n < 0xE000)
    ensures var bytes: seq<Byte> := [0xE0 + n / 4096, 0x80 + n / 64 % 64, 0x80 + n % 64];
            After(Start, bytes) == Start && Out(Start, bytes) == [CharOf(n)]
  {
    var x: Byte, y: Byte, z: Byte := 0xE0 + n / 4096, 0x80 + n / 64 % 64, 0x80 + n % 64;
    One(Start, x);
    Snoc(Start, [x], y);
    assert Next(First(x), y) == Need(1, 0x80, 0xBF, n / 64);
    Snoc(Start, [x] + [y], z);
    assert [x] + [y] + [z] == [x, y, z] && z % 64 == n % 64;
  }

  lemma FourBytes(r: Reader, st: State, x: Byte, y: Byte, z: Byte, u: Byte)
    ensures var s1 := r.next(st, x); var s2 := r.next(s1, y); var s3 := r.next(s2, z);
            && StateAfter(r, st, [x, y, z, u]) == r.next(s3, u)
            && Output(r, st, [x, y, z, u]) == (r.out(st, x) + r.out(s1, y)) + (r.out(s2, z) + r.out(s3, u))
  {
    var s2 := r.next(r.next(st, x), y);
    TwoBytes(r, st, x, y);
    TwoBytes(r, s2, z, u);
    TwoParts(r, st, [x, y], [z, u]);
    assert [x, y] + [z, u] == [x, y, z, u];
  }

  lemma TwoBytes(r: Reader, st: State, x: Byte, y: Byte)
    ensures StateAfter(r, st, [x, y]) == r.next(r.next(st, x), y)
    ensures Output(r, st, [x, y]) == r.out(st, x) + r.out(r.next(st, x), y)
  {
    OneMore(r, st, [], x);
    OneMore(r, st, [x], y);
    assert [] + [x] == [x] && [x] + [y] == [x, y];
    assert Output(r, st, [x]) == r.out(st, x);
  }

  lemma Four(n: nat)
    requires 0x1_0000 <= n < 0x11_0000
    ensures var bytes: seq<Byte> := [0xF0 + n / 0x4_0000, 0x80 + n / 4096 % 64, 0x80 + n / 64 % 64, 0x80 + n % 64];
            After(Start, bytes) == Start && Out(Start, bytes) == [CharOf(n)]
  {
    var x: Byte, y: Byte, z: Byte, u: Byte := 0xF0 + n / 0x4_0000, 0x80 + n / 4096 % 64, 0x80 + n / 64 % 64, 0x80 + n % 64;
    FourBytes(Utf8Reader(), Start, x, y, z, u);
    FourSteps(n, x, y, z, u);
  }

  lemma FourSteps(n: nat, x: Byte, y: Byte, z: Byte, u: Byte)
    requires 0x1_0000 <= n < 0x11_0000
    requires x == 0xF0 + n / 0x4_0000 && y == 0x80 + n / 4096 % 64 && z == 0x80 + n / 64 % 64 && u == 0x80 + n % 64
    ensures Next(Start, x) == First(x) && Next(First(x), y) == Need(2, 0x80, 0xBF, n / 4096)
    ensures NextOut(Start, x) == NextOut(First(x), y) == []
    ensures Next(Need(2, 0x80, 0xBF, n / 4096), z) == Need(1, 0x80, 0xBF, n / 64)
    ensures NextOut(Need(2, 0x80, 0xBF, n / 4096), z) == []
    ensures Next(Need(1, 0x80, 0xBF, n / 64), u) == Start && NextOut(Need(1, 0x80, 0xBF, n / 64), u) == [CharOf(n)]
  {
    SixBits(n);
    SixBits(n / 64);
    SixBits(n / 4096);
    assert n / 64 / 64 == n / 4096 && n / 4096 / 64 == n / 0x4_0000;
    assert Accepts(First(x), y);
  }

  lemma SixBits(n: nat)
    ensures 64 * (n / 64) + (0x80 + n % 64) % 64 == n
  {
  }

  /** Every character is read back, and ends where it ends. */
  lemma CharReadBack(c: char)
    ensures After(Start, EncodeChar(c)) == Start && Out(Start, EncodeChar(c)) == [c]
  {
    var n := c as int;
    if n < 0x80 {
      One(Start, n);
    } else if n < 0x800 {
      Two(n);
    } else if n < 0x1_0000 {
      Three(n);
    } else {
      Four(n);
    }
  }

  /** The bytes end where a character ends, and read as the text. */
  predicate ReadsAs(r: Reader, bytes: seq<Byte>, text: string) {
    StateAfter(r, Start, bytes) == Start && Output(r, Start, bytes) == text
  }

  lemma {:induction false} TextReadsAs(r: Reader, encode: char -> seq<Byte>, s: string)
    requires forall c :: ReadsAs(r, encode(c), [c])
    ensures ReadsAs(r, EncodeWith(encode, s), s)
  {
    if s != [] {
      var front, c := s[..|s| - 1], s[|s| - 1];
      TextReadsAs(r, encode, front);
      assert ReadsAs(r, encode(c), [c]);
      TwoParts(r, Start, EncodeWith(encode, front), encode(c));
      assert s == front + [c];
    }
  }

  lemma TextReadBack(s: string)
    ensures After(Start, Encode(s)) == Start && Out(Start, Encode(s)) == s
  {
    forall c ensures ReadsAs(Utf8Reader(), EncodeChar(c), [c]) { CharReadBack(c); }
    TextReadsAs(Utf8Reader(), EncodeChar, s);
  }

  /** Decoding undoes encoding, for every text. */
  lemma DecodeEncode(s: string)
    ensures Decode(Encode(s)) == s
  {
    TextReadBack(s);
  }

  // ---------- ill-formed input ----------

  lemma Bytes2(x: Byte, y: Byte)
    ensures After(Start, [x, y]) == Next(Next(Start, x), y)
    ensures Out(Start, [x, y]) == NextOut(Start, x) + NextOut(Next(Start, x), y)
  {
    TwoBytes(Utf8Reader(), Start, x, y);
  }

  lemma Bytes3(x: Byte, y: Byte, z: Byte)
    ensures After(Start, [x, y, z]) == Next(Next(Next(Start, x), y), z)
    ensures Out(Start, [x, y, z])
         == NextOut(Start, x) + NextOut(Next(Start, x), y) + NextOut(Next(Next(Start, x), y), z)
  {
    Bytes2(x, y);
    Snoc(Start, [x, y], z);
    assert [x, y] + [z] == [x, y, z];
  }

  /** Overlong forms, surrogates and stray bytes are replaced byte by byte, a truncated character once. */
  lemma IllFormed()
    ensures Decode([0xC0, 0x80]) == [REPLACEMENT, REPLACEMENT]
    ensures Decode([0xE0, 0x80, 0x80]) == [REPLACEMENT, REPLACEMENT, REPLACEMENT]
    ensures Decode([0xED, 0xA0, 0x80]) == [REPLACEMENT, REPLACEMENT, REPLACEMENT]
    ensures Decode([0xF4, 0x90, 0x80]) == [REPLACEMENT, REPLACEMENT, REPLACEMENT]
    ensures Decode([0xF0, 0x8F, 0x80]) == [REPLACEMENT, REPLACEMENT, REPLACEMENT]
    ensures Decode([0xE2, 0x82, 0x41]) == [REPLACEMENT, 'A']
    ensures Decode([0xF5, 0x41]) == [REPLACEMENT, 'A']
    ensures Decode([0xE2, 0x82]) == [REPLACEMENT]
  {
    Bytes2(0xC0, 0x80);
    Bytes3(0xE0, 0x80, 0x80);
    Bytes3(0xED, 0xA0, 0x80);
    Bytes3(0xF4, 0x90, 0x80);
    Bytes3(0xF0, 0x8F, 0x80);
    Bytes3(0xE2, 0x82, 0x41);
    Bytes2(0xF5, 0x41);
    Bytes2(0xE2, 0x82);
  }
}
