/**
 * JavaScript's 32-bit operators on the bit pattern of a number: a pattern is a natural below 2^32,
 * and only the sign, which none of the modelled code looks at, distinguishes it from the int32.
 */
module Bits32 {

  type Bits = seq<bool>

  const WORD: nat := 0x1_0000_0000

  /** v << k, one position at a time: what leaves the word at the top is gone. */
  function Shl(v: nat, k: nat): nat
    decreases k, v
  {
    if k == 0 then v else Shl(v * 2 % WORD, k - 1)
  }

  /** v >>> k */
  function Shr(v: nat, k: nat): nat
    decreases k, v
  {
    if k == 0 then v else Shr(v / 2, k - 1)
  }

  /** a | b */
  function Or(a: nat, b: nat): nat
  {
    if a == 0 then b else if b == 0 then a
    else 2 * Or(a / 2, b / 2) + (if a % 2 == 1 || b % 2 == 1 then 1 else 0)
  }

  /** a & b */
  function And(a: nat, b: nat): nat
  {
    if a == 0 || b == 0 then 0 else 2 * And(a / 2, b / 2) + (if a % 2 == 1 && b % 2 == 1 then 1 else 0)
  }

  /** The low n bits of v, highest first. */
  function Low(v: nat, n: nat): (b: Bits)
    ensures |b| == n
    decreases n, v
  {
    if n == 0 then [] else Low(v / 2, n - 1) + [v % 2 == 1]
  }

  function Value(b: Bits): nat
  {
    if b == [] then 0 else 2 * Value(b[..|b| - 1]) + (if b[|b| - 1] then 1 else 0)
  }

  function Zeros(n: nat): (b: Bits)
    ensures |b| == n && forall i | 0 <= i < n :: !b[i]
  {
    seq(n, _ => false)
  }

  function Pow2(k: nat): (p: nat)
    ensures p > 0
  {
    if k == 0 then 1 else 2 * Pow2(k - 1)
  }

  lemma {:induction false} LowOfZero(n: nat)
    ensures Low(0, n) == Zeros(n)
  {
    if n > 0 {
      LowOfZero(n - 1);
      assert Low(0, n) == Zeros(n - 1) + [false];
    }
  }

  lemma {:induction false} LowSmall(v: nat, n: nat, m: nat)
    requires v < Pow2(n)
    ensures Low(v, m + n) == Zeros(m) + Low(v, n)
  {
    if n == 0 {
      LowOfZero(m);
      assert Zeros(m) + [] == Zeros(m);
    } else {
      LowSmall(v / 2, n - 1, m);
      assert Zeros(m) + (Low(v / 2, n - 1) + [v % 2 == 1]) == Zeros(m) + Low(v / 2, n - 1) + [v % 2 == 1];
    }
  }

  lemma {:induction false} LowMod(v: nat, n: nat, m: nat)
    requires n <= m
    ensures Low(v % Pow2(m), n) == Low(v, n)
  {
    if n > 0 {
      HalfOfMod(v, m);
      LowMod(v / 2, n - 1, m - 1);
    }
  }

  lemma HalfOfMod(v: nat, m: nat)
    requires m > 0
    ensures (v % Pow2(m)) / 2 == (v / 2) % Pow2(m - 1) && (v % Pow2(m)) % 2 == v % 2
  {
    var p := Pow2(m - 1);
    var q, r := (v / 2) / p, (v / 2) % p;
    assert v == 2 * (q * p + r) + v % 2;
    assert v == (2 * p) * q + (2 * r + v % 2) by { assert 2 * (q * p) == (2 * p) * q; }
    ModUnique(v, 2 * p, q, 2 * r + v % 2);
  }

  lemma ModUnique(v: nat, d: nat, q: nat, r: nat)
    requires d > 0 && v == d * q + r && r < d
    ensures v % d == r
  {
    var z := q - v / d;
    assert d * z == d * q - d * (v / d);
    if z >= 1 { MulAtLeast(d, z); }
    if z <= -1 { MulAtMost(d, z); }
  }

  lemma MulAtLeast(d: nat, z: int)
    requires z >= 1
    ensures d * z >= d
  {
  }

  lemma MulAtMost(d: int, z: int)
    requires d >= 0 && z <= -1
    ensures d * z <= -d
  {
  }

  lemma DoubleMoves(v: nat, p: nat)
    ensures v * (2 * p) == (v * 2) * p == 2 * (v * p)
  {
  }

  lemma WordIsPow2()
    ensures Pow2(32) == WORD
  {
    assert Pow2(8) == 256;
    assert Pow2(16) == 65536;
    assert Pow2(24) == 16777216;
  }

  /** Splitting a pattern: the low k bits, and what a right shift by k leaves. */
  lemma {:induction false} LowSplit(v: nat, n: nat, k: nat)
    ensures Low(v, n + k) == Low(Shr(v, k), n) + Low(v, k)
    decreases k
  {
    if k == 0 {
      assert Low(v, n) + [] == Low(v, n);
    } else {
      LowSplit(v / 2, n, k - 1);
      assert Low(v, n + k) == Low(v / 2, n + k - 1) + [v % 2 == 1];
    }
  }

  /** A left shift appends zeros, as long as the bits of interest stay inside the word. */
  lemma {:induction false} LowShl(v: nat, n: nat, k: nat)
    requires n + k <= 32
    ensures Low(Shl(v, k), n + k) == Low(v, n) + Zeros(k)
    decreases k
  {
    if k == 0 {
      assert Low(v, n) + Zeros(0) == Low(v, n);
    } else {
      LowShl(v * 2 % WORD, n + 1, k - 1);
      LowDouble(v, n);
      assert [false] + Zeros(k - 1) == Zeros(k);
      assert Low(v, n) + [false] + Zeros(k - 1) == Low(v, n) + ([false] + Zeros(k - 1));
    }
  }

  lemma LowDouble(v: nat, n: nat)
    requires n < 32
    ensures Low(v * 2 % WORD, n + 1) == Low(v, n) + [false]
  {
    WordIsPow2();
    LowMod(v * 2, n + 1, 32);
  }

  lemma {:induction false} LowOr(a: nat, b: nat, n: nat)
    ensures forall i | 0 <= i < n :: Low(Or(a, b), n)[i] == (Low(a, n)[i] || Low(b, n)[i])
    decreases n
  {
    if n > 0 {
      if a == 0 {
        LowOfZero(n);
      } else if b == 0 {
        LowOfZero(n);
      } else {
        LowOr(a / 2, b / 2, n - 1);
      }
    }
  }

  /** (v << k) | w with w of k bits: the bits of w follow the low bits of v. */
  lemma LowAppend(v: nat, w: nat, n: nat, k: nat)
    requires n + k <= 32 && w < Pow2(k)
    ensures Low(Or(Shl(v, k), w), n + k) == Low(v, n) + Low(w, k)
  {
    LowShl(v, n, k);
    LowSmall(w, k, n);
    LowOr(Shl(v, k), w, n + k);
  }

  /** v & (2^k - 1) keeps the low k bits. */
  lemma {:induction false} AndMask(v: nat, k: nat)
    ensures And(v, Pow2(k) - 1) == v % Pow2(k)
    decreases k
  {
    if k > 0 {
      AndMask(v / 2, k - 1);
      HalfOfMod(v, k);
      assert (Pow2(k) - 1) / 2 == Pow2(k - 1) - 1;
    }
  }

  lemma LowMasked(v: nat, k: nat)
    ensures Low(And(v, Pow2(k) - 1), k) == Low(v, k) && And(v, Pow2(k) - 1) < Pow2(k)
  {
    AndMask(v, k);
    LowMod(v, k, k);
  }

  lemma {:induction false} ValueOfLow(v: nat, n: nat)
    requires v < Pow2(n)
    ensures Value(Low(v, n)) == v
  {
    if n > 0 {
      ValueOfLow(v / 2, n - 1);
      assert Low(v, n)[..n - 1] == Low(v / 2, n - 1);
    }
  }

  lemma {:induction false} LowOfValue(b: Bits)
    ensures Low(Value(b), |b|) == b && Value(b) < Pow2(|b|)
  {
    if b != [] {
      LowOfValue(b[..|b| - 1]);
      assert b[..|b| - 1] + [b[|b| - 1]] == b;
    }
  }

  /** v doubled k times. */
  function Doubled(v: nat, k: nat): (r: nat)
    ensures r >= v
    decreases k, v
  {
    if k == 0 then v else Doubled(v * 2, k - 1)
  }

  lemma {:induction false} DoubledIsProduct(v: nat, k: nat)
    ensures Doubled(v, k) == v * Pow2(k)
    decreases k
  {
    if k > 0 {
      DoubledIsProduct(v * 2, k - 1);
      DoubleMoves(v, Pow2(k - 1));
    }
  }

  lemma {:induction false} ShlDoubles(v: nat, k: nat)
    requires Doubled(v, k) < WORD
    ensures Shl(v, k) == Doubled(v, k)
    decreases k
  {
    if k > 0 { ShlDoubles(v * 2, k - 1); }
  }

  /** A shift that does not overflow multiplies. */
  lemma {:induction false} ShlExact(v: nat, k: nat)
    requires v * Pow2(k) < WORD
    ensures Shl(v, k) == v * Pow2(k)
  {
    DoubledIsProduct(v, k);
    ShlDoubles(v, k);
  }

  /** With w below 2^k, or-ing it onto a multiple of 2^k adds it. */
  lemma {:induction false} OrAdds(v: nat, w: nat, k: nat)
    requires w < Pow2(k)
    ensures Or(v * Pow2(k), w) == v * Pow2(k) + w
    decreases k
  {
    if k > 0 {
      OrAdds(v, w / 2, k - 1);
      DoubleMoves(v, Pow2(k - 1));
    }
  }
}
