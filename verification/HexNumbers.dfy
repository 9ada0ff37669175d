/** `parseInt(text, 16)` (ECMA-262, section 19.2.5), as it reads the fields of a submission. */
module HexNumbers {
  import opened HexIds
  import opened MiningJobs

  predicate IsSpace(c: char) {
    c in {'\t', '\n', '\U{000B}', '\U{000C}', '\r', ' ', '\U{00A0}', '\U{1680}', '\U{2028}', '\U{2029}', '\U{202F}',
          '\U{205F}', '\U{3000}', '\U{FEFF}'}
    || '\U{2000}' <= c <= '\U{200A}'
  }

  predicate IsDigit(c: char) {
    '0' <= c <= '9' || 'a' <= c <= 'f' || 'A' <= c <= 'F'
  }

  predicate AllDigits(s: string) {
    forall i :: 0 <= i < |s| ==> IsDigit(s[i])
  }

  function ValueOf(c: char): nat {
    if 'A' <= c <= 'F' then (c - 'A') as int + 10 else DigitValue(c)
  }

  function TrimStart(s: string): string {
    if s != [] && IsSpace(s[0]) then TrimStart(s[1..]) else s
  }

  /** The longest prefix of hexadecimal digits. */
  function Digits(s: string): string {
    if s != [] && IsDigit(s[0]) then [s[0]] + Digits(s[1..]) else []
  }

  function Value(digits: string): nat {
    if digits == [] then 0 else 16 * Value(digits[..|digits| - 1]) + ValueOf(digits[|digits| - 1])
  }

  function WithoutPrefix(s: string): string {
    if |s| >= 2 && s[0] == '0' && s[1] in {'x', 'X'} then s[2..] else s
  }

  /** White space, a sign, a `0x`, then digits; what follows the digits is ignored. */
  function ParseHex(text: string): Number {
    var s := TrimStart(text);
    var signed := s != [] && s[0] in {'+', '-'};
    var digits := Digits(WithoutPrefix(if signed then s[1..] else s));
    var value: int := Value(digits);
    if digits == [] then NaN else if signed && s[0] == '-' then Num(-value) else Num(value)
  }

  lemma {:induction false} DigitsFirst(digits: string, rest: string)
    requires AllDigits(digits) && (rest == [] || !IsDigit(rest[0]))
    ensures Digits(digits + rest) == digits
  {
    if digits == [] {
      assert digits + rest == rest;
    } else {
      assert (digits + rest)[1..] == digits[1..] + rest;
      DigitsFirst(digits[1..], rest);
    }
  }

  lemma {:induction false} LeadingZero(digits: string)
    ensures Value("0" + digits) == Value(digits)
  {
    if digits == [] {
      assert "0" + digits == "0" && Value("0") == 16 * Value([]) + ValueOf('0');
    } else {
      var n := |digits| - 1;
      assert ("0" + digits)[..n + 1] == "0" + digits[..n];
      LeadingZero(digits[..n]);
    }
  }

  /** Digits, and anything else after them, read as their value. */
  lemma ReadsDigits(digits: string, rest: string)
    requires digits != [] && AllDigits(digits) && (rest == [] || (!IsDigit(rest[0]) && rest[0] !in {'x', 'X'}))
    ensures ParseHex(digits + rest) == Num(Value(digits))
  {
    var s := digits + rest;
    assert IsDigit(s[0]) && TrimStart(s) == s;
    assert |s| >= 2 ==> s[1] !in {'x', 'X'} by {
      if |digits| >= 2 { assert s[1] == digits[1]; } else if |s| >= 2 { assert s[1] == rest[0]; }
    }
    DigitsFirst(digits, rest);
  }

  /** A field is one number in many spellings: leading zeros, a prefix, a space in front, junk behind. */
  lemma Respelled(digits: string)
    requires digits != [] && AllDigits(digits)
    ensures ParseHex(digits) == Num(Value(digits)) == ParseHex("0" + digits)
    ensures ParseHex("0x" + digits) == ParseHex(" " + digits) == ParseHex(digits + "g") == Num(Value(digits))
  {
    ReadsPlain(digits);
    ReadsPlain("0" + digits);
    LeadingZero(digits);
    ReadsPrefixed(digits);
    ReadsSpaced(digits);
    ReadsDigits(digits, "g");
  }

  lemma ReadsPlain(digits: string)
    requires digits != [] && AllDigits(digits)
    ensures ParseHex(digits) == Num(Value(digits))
  {
    assert digits + [] == digits;
    ReadsDigits(digits, []);
  }

  lemma ReadsPrefixed(digits: string)
    requires digits != [] && AllDigits(digits)
    ensures ParseHex("0x" + digits) == Num(Value(digits))
  {
    var s := "0x" + digits;
    assert TrimStart(s) == s && s[2..] == digits;
    DigitsFirst(digits, []);
    assert digits + [] == digits;
  }

  lemma ReadsSpaced(digits: string)
    requires digits != [] && AllDigits(digits)
    ensures ParseHex(" " + digits) == Num(Value(digits))
  {
    assert (" " + digits)[1..] == digits;
    assert IsDigit(digits[0]);
    assert TrimStart(" " + digits) == TrimStart(digits) == digits;
    ReadsPlain(digits);
  }

  /** A minus sign negates, and a text without a leading digit is no number. */
  lemma SignedOrNone(digits: string, text: string)
    requires digits != [] && AllDigits(digits)
    requires text != [] && !IsDigit(text[0]) && !IsSpace(text[0]) && text[0] !in {'+', '-'}
    ensures ParseHex("-" + digits) == Num(0 - Value(digits)) && ParseHex(text) == NaN && ParseHex([]) == NaN
  {
    var s := "-" + digits;
    assert s[1..] == digits && TrimStart(s) == s;
    assert |digits| >= 2 ==> digits[1] !in {'x', 'X'};
    assert digits + [] == digits;
    DigitsFirst(digits, []);
    assert TrimStart(text) == text && WithoutPrefix(text) == text;
  }

  /** White space in front is skipped, and capital digits count. */
  lemma SpacesAndCapitals(c: char, text: string)
    requires c in {'\t', '\n', '\r', ' ', '\U{00A0}', '\U{2003}', '\U{FEFF}'}
    ensures ParseHex([c] + text) == ParseHex(text)
    ensures ParseHex("1aF") == Num(431)
  {
    assert ([c] + text)[1..] == text;
    assert "1aF"[..2] == "1a" && "1aF"[..2][..1] == "1" && "1"[..0] == [];
    ReadsPlain("1aF");
  }

  lemma {:induction false} HexIsDigits(n: nat)
    ensures AllDigits(Hex(n))
  {
    if n >= 16 {
      HexIsDigits(n / 16);
    }
  }

  lemma {:induction false} ValueOfHex(n: nat)
    ensures Value(Hex(n)) == n
  {
    ValueOfDigit(n % 16);
    if n >= 16 {
      ValueOfHex(n / 16);
      ValueSnoc(Hex(n / 16), HexDigit(n % 16));
    } else {
      ValueSnoc([], HexDigit(n));
      assert [] + [HexDigit(n)] == [HexDigit(n)];
    }
  }

  lemma ValueSnoc(digits: string, c: char)
    ensures Value(digits + [c]) == 16 * Value(digits) + ValueOf(c)
  {
    assert (digits + [c])[..|digits|] == digits;
  }

  lemma ValueOfDigit(d: nat)
    requires d < 16
    ensures ValueOf(HexDigit(d)) == d
  {
  }

  /** What `toString(16)` writes is read back. */
  lemma ParseHexOfHex(n: nat)
    ensures ParseHex(Hex(n)) == Num(n)
  {
    HexIsDigits(n);
    ValueOfHex(n);
    ReadsPlain(Hex(n));
  }
}
