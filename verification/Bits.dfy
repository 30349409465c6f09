/** Unsigned machine words as natural numbers, seen bit by bit.  A right shift
    by one is a division by two, so `Bit` follows the shift loops of the C code. */
module Bits {
  type byte = b: int | 0 <= b < 256

  /** The 16-bit value of two bytes, high byte first. */
  function Be16(hi: int, lo: int): int { 256 * hi + lo }

  function Min(a: int, b: int): int { if a < b then a else b }

  function Pow2(n: nat): (p: nat)
    ensures p >= 1
  {
    if n == 0 then 1 else 2 * Pow2(n - 1)
  }

  /** Bit `i` of `m`: the value of `(m >> i) & 1`. */
  predicate Bit(m: nat, i: nat) {
    if i == 0 then m % 2 == 1 else Bit(m / 2, i - 1)
  }

  datatype Gate = And | Or | Xor | AndNot

  predicate Apply(g: Gate, a: bool, b: bool) {
    match g
    case And => a && b
    case Or => a || b
    case Xor => a != b
    case AndNot => a && !b
  }

  /** The bitwise operation `g` on words of `w` bits; `AndNot` is `a & ~b`. */
  function Zip(g: Gate, a: nat, b: nat, w: nat): (r: nat) {
    if w == 0 then 0
    else (if Apply(g, a % 2 == 1, b % 2 == 1) then 1 else 0) + 2 * Zip(g, a / 2, b / 2, w - 1)
  }

  /** `a << k`, without the truncation to a word. */
  function Shl(a: nat, k: nat): nat {
    if k == 0 then a else 2 * Shl(a, k - 1)
  }

  /** `a >> k`. */
  function Shr(a: nat, k: nat): nat {
    if k == 0 then a else Shr(a / 2, k - 1)
  }

  /** The low `k` bits of `a`: what is left of `a` in a word of `k` bits. */
  function Low(a: nat, k: nat): nat {
    if k == 0 then 0 else a % 2 + 2 * Low(a / 2, k - 1)
  }

  lemma {:induction false} ZipBound(g: Gate, a: nat, b: nat, w: nat)
    ensures Zip(g, a, b, w) < Pow2(w)
  {
    if w > 0 { ZipBound(g, a / 2, b / 2, w - 1); }
  }

  lemma {:induction false} ZipBit(g: Gate, a: nat, b: nat, w: nat, i: nat)
    ensures Bit(Zip(g, a, b, w), i) == (i < w && Apply(g, Bit(a, i), Bit(b, i)))
  {
    if w == 0 {
      ZeroBit(i);
    } else {
      var rest := Zip(g, a / 2, b / 2, w - 1);
      assert Zip(g, a, b, w) / 2 == rest;
      if i > 0 { ZipBit(g, a / 2, b / 2, w - 1, i - 1); }
    }
  }

  lemma {:induction false} ZeroBit(i: nat)
    ensures !Bit(0, i)
  {
    if i > 0 { ZeroBit(i - 1); }
  }

  /** Words are equal when their bits are. */
  lemma {:induction false} Extensional(a: nat, b: nat, w: nat)
    requires a < Pow2(w) && b < Pow2(w)
    requires forall i: nat | i < w :: Bit(a, i) == Bit(b, i)
    ensures a == b
  {
    if w > 0 {
      assert Bit(a, 0) == Bit(b, 0);
      forall i: nat | i < w - 1 ensures Bit(a / 2, i) == Bit(b / 2, i) {
        assert Bit(a, i + 1) == Bit(b, i + 1);
      }
      Extensional(a / 2, b / 2, w - 1);
    }
  }

  lemma {:induction false} HighBit(a: nat, w: nat, i: nat)
    requires a < Pow2(w) && w <= i
    ensures !Bit(a, i)
  {
    if w == 0 { ZeroBit(i); } else { HighBit(a / 2, w - 1, i - 1); }
  }

  lemma {:induction false} ShlBit(a: nat, k: nat, i: nat)
    ensures Bit(Shl(a, k), i) == (k <= i && Bit(a, i - k))
  {
    if k > 0 {
      assert Shl(a, k) / 2 == Shl(a, k - 1);
      if i > 0 { ShlBit(a, k - 1, i - 1); }
    }
  }

  lemma {:induction false} ShrBit(a: nat, k: nat, i: nat)
    ensures Bit(Shr(a, k), i) == Bit(a, i + k)
  {
    if k > 0 { ShrBit(a / 2, k - 1, i); }
  }

  lemma {:induction false} ShrStep(a: nat, k: nat)
    ensures Shr(a, k + 1) == Shr(a, k) / 2
  {
    if k > 0 { ShrStep(a / 2, k - 1); }
  }

  lemma {:induction false} LowBit(a: nat, k: nat, i: nat)
    ensures Bit(Low(a, k), i) == (i < k && Bit(a, i))
  {
    if k == 0 {
      ZeroBit(i);
    } else {
      assert Low(a, k) / 2 == Low(a / 2, k - 1);
      if i > 0 { LowBit(a / 2, k - 1, i - 1); }
    }
  }

  /** Shifting out and masking off are quotient and remainder. */
  lemma {:induction false} Split(a: nat, k: nat)
    ensures a == Shr(a, k) * Pow2(k) + Low(a, k) && Low(a, k) < Pow2(k)
  {
    if k > 0 {
      var q, p := Shr(a / 2, k - 1), Pow2(k - 1);
      Split(a / 2, k - 1);
      Regroup(q, p);
    }
  }

  /** `Low` is the remainder modulo `2^k`. */
  lemma LowIsMod(a: nat, k: nat)
    ensures Low(a, k) == a % Pow2(k)
  {
    Split(a, k);
    DivUnique(a, Pow2(k), Shr(a, k), Low(a, k));
  }

  lemma Regroup(a: int, p: int)
    ensures a * (2 * p) == 2 * (a * p)
  {}

  lemma DivUnique(a: int, d: int, q: int, r: int)
    requires d > 0 && 0 <= r < d && a == q * d + r
    ensures a / d == q && a % d == r
  {
    var q', r' := a / d, a % d;
    var k := q - q';
    assert k * d == r' - r by { Distribute(q, q', d); }
    if k != 0 { AtLeast(k, d); }
  }

  lemma Distribute(x: int, y: int, d: int)
    ensures (x - y) * d == x * d - y * d
  {}

  lemma AtLeast(k: int, d: int)
    requires k != 0 && d > 0
    ensures k * d >= d || k * d <= -d
  {}

  /** All the bits below `w`, and none above, are set in `2^w - 1`. */
  lemma {:induction false} OnesBit(w: nat, i: nat)
    ensures Bit(Pow2(w) - 1, i) == (i < w)
  {
    if w == 0 {
      ZeroBit(i);
    } else {
      assert (Pow2(w) - 1) / 2 == Pow2(w - 1) - 1;
      if i > 0 { OnesBit(w - 1, i - 1); }
    }
  }
}
