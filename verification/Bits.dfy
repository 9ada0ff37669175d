/**
 * The bitwise operators the pool applies to 32-bit words, on natural numbers.
 * A word is described by its bits; JavaScript's `>>>`, `&`, `|` and `^` are `Shr` and `Bitwise`.
 */
module Bits {

  datatype BitOp = And | Or | Xor

  function Apply(op: BitOp, p: bool, q: bool): bool {
    match op
    case And => p && q
    case Or => p || q
    case Xor => p != q
  }

  predicate Bit(n: nat, i: nat) {
    if i == 0 then n % 2 == 1 else Bit(n / 2, i - 1)
  }

  function Shr(n: nat, k: nat): nat {
    if k == 0 then n else Shr(n / 2, k - 1)
  }

  function Shl(n: nat, k: nat): nat {
    if k == 0 then n else 2 * Shl(n, k - 1)
  }

  function Bitwise(op: BitOp, a: nat, b: nat): nat
    decreases a + b
  {
    if a == 0 && b == 0 then 0
    else 2 * Bitwise(op, a / 2, b / 2) + if Apply(op, a % 2 == 1, b % 2 == 1) then 1 else 0
  }

  /** The number whose w low bits are all ones. */
  function Ones(w: nat): nat {
    if w == 0 then 0 else 2 * Ones(w - 1) + 1
  }

  /** The complement of a word of w bits. */
  function Not(w: nat, n: nat): nat {
    if w == 0 then 0 else 2 * Not(w - 1, n / 2) + 1 - n % 2
  }

  lemma {:induction false} ZeroBit(i: nat)
    ensures !Bit(0, i)
  {
    if i > 0 { ZeroBit(i - 1); }
  }

  lemma {:induction false} BitwiseBit(op: BitOp, a: nat, b: nat, i: nat)
    ensures Bit(Bitwise(op, a, b), i) == Apply(op, Bit(a, i), Bit(b, i))
    decreases i
  {
    if a == 0 && b == 0 {
      ZeroBit(i);
    } else if i > 0 {
      BitwiseBit(op, a / 2, b / 2, i - 1);
    }
  }

  lemma {:induction false} ShrBit(n: nat, k: nat, i: nat)
    ensures Bit(Shr(n, k), i) == Bit(n, i + k)
  {
    if k > 0 { ShrBit(n / 2, k - 1, i); }
  }

  lemma {:induction false} ShlBit(n: nat, k: nat, i: nat)
    ensures Bit(Shl(n, k), i) == (i >= k && Bit(n, i - k))
  {
    if k > 0 {
      assert Shl(n, k) / 2 == Shl(n, k - 1);
      if i > 0 { ShlBit(n, k - 1, i - 1); }
    }
  }

  lemma {:induction false} NotBit(w: nat, n: nat, i: nat)
    ensures Bit(Not(w, n), i) == (i < w && !Bit(n, i))
  {
    if w == 0 {
      ZeroBit(i);
    } else {
      DoublePlus(Not(w - 1, n / 2), 1 - n % 2);
      if i > 0 { NotBit(w - 1, n / 2, i - 1); }
    }
  }

  lemma DoublePlus(half: nat, bit: nat)
    requires bit < 2
    ensures (2 * half + bit) / 2 == half && (2 * half + bit) % 2 == bit
  {
  }

  lemma {:induction false} NoHighBits(n: nat, w: nat)
    requires forall i: nat | w <= i :: !Bit(n, i)
    ensures n <= Ones(w)
    decreases w, n
  {
    if n > 0 {
      forall i: nat | (if w == 0 then 0 else w - 1) <= i
        ensures !Bit(n / 2, i)
      {
        assert !Bit(n, i + 1);
      }
      if w == 0 {
        assert !Bit(n, 0);
        NoHighBits(n / 2, 0);
      } else {
        NoHighBits(n / 2, w - 1);
      }
    }
  }

  lemma {:induction false} HighBitsZero(n: nat, w: nat, i: nat)
    requires n <= Ones(w) && w <= i
    ensures !Bit(n, i)
  {
    if w == 0 {
      ZeroBit(i);
    } else {
      HighBitsZero(n / 2, w - 1, i - 1);
    }
  }

  /** Bits determine the number. */
  lemma {:induction false} BitsExtensional(a: nat, b: nat)
    requires forall i: nat :: Bit(a, i) == Bit(b, i)
    ensures a == b
    decreases a
  {
    assert Bit(a, 0) == Bit(b, 0);
    if a == 0 {
      forall i: nat | 0 <= i ensures !Bit(b, i) { ZeroBit(i); assert Bit(a, i) == Bit(b, i); }
      NoHighBits(b, 0);
    } else {
      forall i: nat ensures Bit(a / 2, i) == Bit(b / 2, i) {
        assert Bit(a, i + 1) == Bit(b, i + 1);
      }
      BitsExtensional(a / 2, b / 2);
    }
  }

  lemma {:induction false} OnesBit(w: nat, i: nat)
    ensures Bit(Ones(w), i) == (i < w)
  {
    if w == 0 {
      ZeroBit(i);
    } else if i > 0 {
      assert Ones(w) / 2 == Ones(w - 1);
      OnesBit(w - 1, i - 1);
    }
  }
}
