/** Bitwise operators on naturals, defined bit by bit, and the arithmetic they amount to. */
module Bits {

  function Pow2(n: nat): (p: nat)
    ensures p >= 1
  {
    if n == 0 then 1 else 2 * Pow2(n - 1)
  }

  function And(a: nat, b: nat): nat {
    if a == 0 || b == 0 then 0
    else (if a % 2 == 1 && b % 2 == 1 then 1 else 0) + 2 * And(a / 2, b / 2)
  }

  function Or(a: nat, b: nat): nat {
    if a == 0 then b else if b == 0 then a
    else (if a % 2 == 1 || b % 2 == 1 then 1 else 0) + 2 * Or(a / 2, b / 2)
  }

  function Xor(a: nat, b: nat): nat {
    if a == 0 then b else if b == 0 then a
    else (if a % 2 != b % 2 then 1 else 0) + 2 * Xor(a / 2, b / 2)
  }

  /** The all-ones word of `width` bits, shifted left by `shift` with the overflow cut off. */
  function ShiftedOnes(width: nat, shift: nat): nat {
    (Pow2(width) - 1) * Pow2(shift) % Pow2(width)
  }

  lemma {:induction false} Pow2Monotone(a: nat, b: nat)
    requires a < b
    ensures Pow2(a) < Pow2(b)
    decreases b
  {
    if a < b - 1 {
      Pow2Monotone(a, b - 1);
    }
  }

  /** `width` bits, the lowest `shift` of them zero and the others one. */
  function HighOnes(width: nat, shift: nat): (mask: nat)
    requires shift <= width
    ensures mask == Pow2(width) - Pow2(shift)
  {
    if shift == 0 then Pow2(width) - 1 else 2 * HighOnes(width - 1, shift - 1)
  }

  lemma ModUnique(x: int, m: nat, q: int, r: nat)
    requires r < m && x == m * q + r
    ensures x % m == r && x / m == q
  {
    var d := x / m - q;
    assert m * d == r - x % m by {
      assert x == m * (x / m) + x % m;
      assert m * (x / m) - m * q == m * d;
    }
    TooSmallForMultiple(m, d, r - x % m);
  }

  lemma TooSmallForMultiple(m: nat, d: int, rest: int)
    requires m * d == rest && 0 - m < rest < m
    ensures d == 0
  {
  }

  /** Shifting the all-ones word left leaves its high ones. */
  lemma ShiftedOnesValue(width: nat, shift: nat)
    requires shift < width
    ensures ShiftedOnes(width, shift) == HighOnes(width, shift)
  {
    Pow2Monotone(shift, width);
    ShiftArithmetic(Pow2(width), Pow2(shift));
  }

  lemma ShiftArithmetic(w: nat, s: nat)
    requires 1 <= s < w
    ensures (w - 1) * s % w == w - s
  {
    assert (w - 1) * s == w * (s - 1) + (w - s);
    ModUnique((w - 1) * s, w, s - 1, w - s);
  }

  lemma HalveQuotient(x: nat, k: nat)
    requires k >= 1
    ensures x / 2 / k == x / (2 * k)
  {
    var q := x / (2 * k);
    var r := x % (2 * k);
    assert x == 2 * (k * q) + r;
    assert x / 2 == k * q + r / 2;
    ModUnique(x / 2, k, q, r / 2);
  }

  lemma {:induction false} AndAllOnes(width: nat, x: nat)
    requires x < Pow2(width)
    ensures And(x, Pow2(width) - 1) == x
  {
    if width > 0 && x > 0 {
      var ones := Pow2(width - 1) - 1;
      AndAllOnes(width - 1, x / 2);
      assert (2 * ones + 1) / 2 == ones && (2 * ones + 1) % 2 == 1;
      assert Pow2(width) - 1 == 2 * ones + 1;
    }
  }

  /** Masking with high ones clears the low bits. */
  lemma {:induction false} MaskClearsLowBits(width: nat, shift: nat, x: nat)
    requires shift <= width && x < Pow2(width)
    ensures And(x, HighOnes(width, shift)) == x / Pow2(shift) * Pow2(shift)
    decreases width
  {
    if shift == 0 {
      AndAllOnes(width, x);
    } else {
      MaskClearsLowBits(width - 1, shift - 1, x / 2);
      MaskStep(x, HighOnes(width - 1, shift - 1), Pow2(shift - 1));
    }
  }

  lemma AndDoubled(x: nat, mask: nat)
    ensures And(x, 2 * mask) == 2 * And(x / 2, mask)
  {
    if x > 0 && mask > 0 {
      assert 2 * mask / 2 == mask && 2 * mask % 2 == 0;
    }
  }

  lemma MaskStep(x: nat, mask: nat, k: nat)
    requires k >= 1 && And(x / 2, mask) == x / 2 / k * k
    ensures And(x, 2 * mask) == x / (2 * k) * (2 * k)
  {
    HalveQuotient(x, k);
    AndDoubled(x, mask);
    DoubleProduct(x / (2 * k), k);
  }

  lemma DoubleProduct(q: nat, k: nat)
    ensures q * (2 * k) == 2 * (q * k)
  {
  }

  lemma {:induction false} OrDisjoint(shift: nat, high: nat, low: nat)
    requires low < Pow2(shift)
    ensures Or(high * Pow2(shift), low) == high * Pow2(shift) + low
  {
    if shift > 0 {
      OrDisjoint(shift - 1, high, low / 2);
      DoubleProduct(high, Pow2(shift - 1));
      OrDoubled(high * Pow2(shift - 1), low);
    }
  }

  lemma OrDoubled(h: nat, low: nat)
    requires Or(h, low / 2) == h + low / 2
    ensures Or(2 * h, low) == 2 * h + low
  {
    if h > 0 && low > 0 {
      assert 2 * h / 2 == h && 2 * h % 2 == 0;
    }
  }

  lemma {:induction false} XorInvolutive(a: nat, b: nat)
    ensures Xor(Xor(a, b), b) == a
  {
    if a > 0 && b > 0 {
      XorInvolutive(a / 2, b / 2);
      var x := Xor(a, b);
      assert x / 2 == Xor(a / 2, b / 2) && (x % 2 == 1 <==> a % 2 != b % 2);
      if x == 0 {
        assert Xor(a / 2, b / 2) == 0;
        assert b / 2 == a / 2;
      }
    } else {
      XorSelf(b);
    }
  }

  lemma {:induction false} XorSelf(a: nat)
    ensures Xor(a, a) == 0
  {
    if a > 0 {
      XorSelf(a / 2);
    }
  }

  lemma {:induction false} XorCommutes(a: nat, b: nat)
    ensures Xor(a, b) == Xor(b, a)
  {
    if a > 0 && b > 0 {
      XorCommutes(a / 2, b / 2);
    }
  }

  lemma {:induction false} XorBound(a: nat, b: nat, n: nat)
    requires a < Pow2(n) && b < Pow2(n)
    ensures Xor(a, b) < Pow2(n)
  {
    if a > 0 && b > 0 {
      XorBound(a / 2, b / 2, n - 1);
    }
  }

  // ---------- exclusive or, byte by byte ----------

  function Doubled(h: nat, times: nat): nat {
    if times == 0 then h else 2 * Doubled(h, times - 1)
  }

  lemma {:induction false} DoubledMore(h: nat, m: nat, n: nat)
    ensures Doubled(h, m + n) == Doubled(Doubled(h, m), n)
  {
    if n > 0 {
      DoubledMore(h, m, n - 1);
    }
  }

  lemma DoubledFour(h: nat)
    ensures Doubled(h, 4) == 16 * h
  {
    assert Doubled(h, 1) == 2 * Doubled(h, 0) && Doubled(h, 2) == 2 * Doubled(h, 1);
    assert Doubled(h, 3) == 2 * Doubled(h, 2) && Doubled(h, 4) == 2 * Doubled(h, 3);
  }

  lemma XorUnfold(a: nat, b: nat)
    ensures Xor(a, b) == (if a % 2 != b % 2 then 1 else 0) + 2 * Xor(a / 2, b / 2)
  {
  }

  lemma XorStep(h: nat, a: nat, b: nat)
    requires Xor(h + a / 2, b / 2) == h + Xor(a / 2, b / 2)
    ensures Xor(2 * h + a, b) == 2 * h + Xor(a, b)
  {
    XorUnfold(2 * h + a, b);
    XorUnfold(a, b);
    assert (2 * h + a) / 2 == h + a / 2 && (2 * h + a) % 2 == a % 2;
  }

  lemma {:induction false} XorLow(times: nat, high: nat, a: nat, b: nat)
    requires a < Pow2(times) && b < Pow2(times)
    ensures Xor(Doubled(high, times) + a, b) == Doubled(high, times) + Xor(a, b)
  {
    if times > 0 {
      XorLow(times - 1, high, a / 2, b / 2);
      XorStep(Doubled(high, times - 1), a, b);
    }
  }

  /** Exclusive or with a byte touches the lowest byte alone. */
  lemma XorLowByte(high: nat, a: nat, b: nat)
    requires a < 256 && b < 256
    ensures Xor(256 * high + a, b) == 256 * high + Xor(a, b)
  {
    assert Pow2(8) == 256 by {
      assert Pow2(2) == 4 && Pow2(4) == 16;
    }
    XorLow(8, high, a, b);
    DoubledFour(high);
    DoubledFour(Doubled(high, 4));
    DoubledMore(high, 4, 4);
  }
}
