/** Job and template ids: `toString(16)` of a counter. */
module HexIds {

  function HexDigit(d: nat): char
    requires d < 16
  {
    "0123456789abcdef"[d]
  }

  function DigitValue(c: char): nat {
    if '0' <= c <= '9' then (c - '0') as int else if 'a' <= c <= 'f' then (c - 'a') as int + 10 else 0
  }

  function Hex(n: nat): (s: string)
    ensures s != []
  {
    if n < 16 then [HexDigit(n)] else Hex(n / 16) + [HexDigit(n % 16)]
  }

  function Unhex(s: string): nat {
    if s == [] then 0 else 16 * Unhex(s[..|s| - 1]) + DigitValue(s[|s| - 1])
  }

  lemma {:induction false} UnhexHex(n: nat)
    ensures Unhex(Hex(n)) == n
  {
    DigitRoundTrip(n % 16);
    if n >= 16 {
      assert Hex(n)[..|Hex(n)| - 1] == Hex(n / 16);
      UnhexHex(n / 16);
    }
  }

  lemma DigitRoundTrip(d: nat)
    requires d < 16
    ensures DigitValue(HexDigit(d)) == d
  {
  }

  /** Different counters give different ids. */
  lemma HexInjective(m: nat, n: nat)
    requires Hex(m) == Hex(n)
    ensures m == n
  {
    UnhexHex(m);
    UnhexHex(n);
  }
}
