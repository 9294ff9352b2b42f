/** Bit operations and powers of two on natural numbers. */
module Bits {
  /** `a & b` on non-negative integers. */
  function BitAnd(a: nat, b: nat): nat {
    if a == 0 || b == 0 then 0
    else 2 * BitAnd(a / 2, b / 2) + (if a % 2 == 1 && b % 2 == 1 then 1 else 0)
  }

  /** `a | b` on non-negative integers. */
  function BitOr(a: nat, b: nat): nat {
    if a == 0 then b else if b == 0 then a
    else 2 * BitOr(a / 2, b / 2) + (if a % 2 == 1 || b % 2 == 1 then 1 else 0)
  }

  /** Bit number `i`. */
  predicate Bit(n: nat, i: nat)
    decreases i
  {
    if i == 0 then n % 2 == 1 else Bit(n / 2, i - 1)
  }

  /** Both operations work bit by bit. */
  lemma {:induction false} BitByBit(a: nat, b: nat, i: nat)
    ensures Bit(BitAnd(a, b), i) <==> Bit(a, i) && Bit(b, i)
    ensures Bit(BitOr(a, b), i) <==> Bit(a, i) || Bit(b, i)
    decreases i
  {
    OrStep(a, b);
    AndStep(a, b);
    hide BitAnd, BitOr;
    if i > 0 {
      BitByBit(a / 2, b / 2, i - 1);
    }
  }

  ghost predicate IsPowerOfTwo(n: nat) {
    n == 1 || (n > 1 && n % 2 == 0 && IsPowerOfTwo(n / 2))
  }

  lemma {:induction false} AndSelf(n: nat)
    ensures BitAnd(n, n) == n
  {
    if n > 0 {
      AndSelf(n / 2);
    }
  }

  /** The test `num & (num-1)` singles out the powers of two. */
  lemma {:induction false} AndPredecessor(n: nat)
    requires n > 0
    ensures BitAnd(n, n - 1) == 0 <==> IsPowerOfTwo(n)
  {
    if n % 2 == 0 {
      AndPredecessor(n / 2);
      assert (n - 1) / 2 == n / 2 - 1;
    } else {
      AndSelf(n / 2);
      assert (n - 1) / 2 == n / 2;
    }
  }

  /** `n << k`. */
  function ShiftUp(n: nat, k: nat): nat
    decreases k
  {
    if k == 0 then n else ShiftUp(2 * n, k - 1)
  }

  /** `n >> k`. */
  function ShiftDown(n: nat, k: nat): nat
    decreases k
  {
    if k == 0 then n else ShiftDown(n / 2, k - 1)
  }

  // ----- powers of two -----

  lemma {:induction false} PowersAreApart(p: nat, q: nat)
    requires IsPowerOfTwo(p) && IsPowerOfTwo(q) && q < p < 4 * q
    ensures p == 2 * q
  {
    if q > 1 {
      PowersAreApart(p / 2, q / 2);
    }
  }

  lemma TimesEight(p: nat)
    requires IsPowerOfTwo(p)
    ensures IsPowerOfTwo(8 * p)
  {
    assert (2 * p) / 2 == p && (4 * p) / 2 == 2 * p && (8 * p) / 2 == 4 * p;
    assert IsPowerOfTwo(2 * p);
    assert IsPowerOfTwo(4 * p);
  }

  lemma BigPowers()
    ensures IsPowerOfTwo(0x1000) && IsPowerOfTwo(0x4000_0000)
  {
    hide IsPowerOfTwo;
    PowerOne();
    TimesEight(1);
    TimesEight(0x8);
    TimesEight(0x40);
    TimesEight(0x200);
    TimesEight(0x1000);
    TimesEight(0x8000);
    TimesEight(0x4_0000);
    TimesEight(0x20_0000);
    TimesEight(0x100_0000);
    TimesEight(0x800_0000);
  }

  lemma SmallPowers()
    ensures IsPowerOfTwo(8) && IsPowerOfTwo(0x10) && IsPowerOfTwo(0x20) && IsPowerOfTwo(0x400)
  {
    hide IsPowerOfTwo;
    PowerOne();
    TimesEight(1);
    TimesEight(2);
    TimesEight(4);
    TimesEight(0x10);
    TimesEight(0x80);
  }

  lemma PowerOne()
    ensures IsPowerOfTwo(1) && IsPowerOfTwo(2) && IsPowerOfTwo(4)
  {
    assert IsPowerOfTwo(2);
  }

  // ----- masks -----

  lemma OrStep(a: nat, b: nat)
    ensures BitOr(a, b) == 2 * BitOr(a / 2, b / 2) + (if a % 2 == 1 || b % 2 == 1 then 1 else 0)
  {
  }

  lemma AndStep(a: nat, b: nat)
    ensures BitAnd(a, b) == 2 * BitAnd(a / 2, b / 2) + (if a % 2 == 1 && b % 2 == 1 then 1 else 0)
  {
  }

  lemma {:induction false} TimesGrows(k: nat, p: nat, d: nat)
    ensures k * (p + d) == k * p + k * d && (d > 0 ==> k * d >= k)
  {
    if d > 1 {
      TimesGrows(k, p, d - 1);
    }
  }

  lemma TimesIsMonotone(k: nat, p: nat, q: nat)
    ensures p < q ==> k * p + k <= k * q
    ensures q < p ==> k * q + k <= k * p
  {
    if p < q {
      TimesGrows(k, p, q - p);
    } else {
      TimesGrows(k, q, p - q);
    }
  }

  lemma ModIs(n: nat, k: nat, q: nat, r: nat)
    requires n == k * q + r && r < k
    ensures n % k == r
  {
    TimesIsMonotone(k, n / k, q);
    assert n == k * (n / k) + n % k;
  }

  lemma ModOfHalf(n: nat, h: nat)
    requires h > 0
    ensures n % (2 * h) == 2 * ((n / 2) % h) + n % 2
  {
    var q, r := (n / 2) / h, (n / 2) % h;
    assert n / 2 == h * q + r;
    assert 2 * h * q == 2 * (h * q);
    ModIs(n, 2 * h, q, 2 * r + n % 2);
  }

  /** `n & (k - 1)` for a power of two. */
  lemma {:induction false} Mask(n: nat, k: nat)
    requires IsPowerOfTwo(k)
    ensures BitAnd(n, k - 1) == n % k
    decreases k
  {
    if k > 1 {
      var h := k / 2;
      AndStep(n, k - 1);
      assert (k - 1) / 2 == h - 1 && (k - 1) % 2 == 1;
      Mask(n / 2, h);
      ModOfHalf(n, h);
    }
  }

  lemma Doubling(x: nat, h: nat)
    ensures x * (2 * h) / 2 == x * h && x * (2 * h) % 2 == 0
  {
    assert x * (2 * h) == 2 * (x * h);
  }

  lemma OrNothing(n: nat)
    ensures BitOr(n, 0) == n
  {
  }

  /** `m | n` where the bits of `m` start above those of `n`. */
  lemma {:induction false} OrAbove(x: nat, n: nat, k: nat)
    requires IsPowerOfTwo(k) && n < k
    ensures BitOr(x * k, n) == x * k + n && BitOr(n, x * k) == x * k + n
    decreases k
  {
    if k > 1 {
      var h := k / 2;
      OrStep(x * k, n);
      OrStep(n, x * k);
      Doubling(x, h);
      OrAbove(x, n / 2, h);
      assert x * k == 2 * (x * h);
    }
  }

  function OrBit(l: nat, m: nat): nat {
    if l == 1 || m == 1 then 1 else 0
  }

  function AndBit(l: nat, m: nat): nat {
    if l == 1 && m == 1 then 1 else 0
  }

  lemma ThreeBitsSplit(x: nat, a: nat, b: nat, c: nat, y: nat, d: nat, e: nat, f: nat)
    requires a < 2 && b < 2 && c < 2 && d < 2 && e < 2 && f < 2
    ensures BitOr(8 * x + 4 * a + 2 * b + c, 8 * y + 4 * d + 2 * e + f) ==
      8 * BitOr(x, y) + 4 * OrBit(a, d) + 2 * OrBit(b, e) + OrBit(c, f)
    ensures BitAnd(8 * x + 4 * a + 2 * b + c, 8 * y + 4 * d + 2 * e + f) ==
      8 * BitAnd(x, y) + 4 * AndBit(a, d) + 2 * AndBit(b, e) + AndBit(c, f)
  {
    hide BitOr, BitAnd, OrBit, AndBit;
    BitSplits(x, a, y, d);
    BitSplits(2 * x + a, b, 2 * y + d, e);
    BitSplits(4 * x + 2 * a + b, c, 4 * y + 2 * d + e, f);
  }

  lemma ThreeDigits(l: nat) returns (a: nat, b: nat, c: nat)
    requires l < 8
    ensures a < 2 && b < 2 && c < 2 && l == 4 * a + 2 * b + c
  {
    a, b, c := l / 4, l / 2 % 2, l % 2;
  }

  /** Both operations work on the low three bits and on the others separately. */
  lemma EightSplits(x: nat, l: nat, y: nat, m: nat)
    requires l < 8 && m < 8
    ensures BitOr(8 * x + l, 8 * y + m) == 8 * BitOr(x, y) + BitOr(l, m)
    ensures BitAnd(8 * x + l, 8 * y + m) == 8 * BitAnd(x, y) + BitAnd(l, m)
  {
    hide BitOr, BitAnd, OrBit, AndBit;
    var a, b, c := ThreeDigits(l);
    var d, e, f := ThreeDigits(m);
    ThreeBitsSplit(x, a, b, c, y, d, e, f);
    ThreeBitsSplit(0, a, b, c, 0, d, e, f);
    ZeroBits();
  }

  lemma ZeroBits()
    ensures BitOr(0, 0) == 0 && BitAnd(0, 0) == 0
  {
  }

  lemma BitSplits(x: nat, l: nat, y: nat, m: nat)
    requires l < 2 && m < 2
    ensures BitOr(2 * x + l, 2 * y + m) == 2 * BitOr(x, y) + OrBit(l, m)
    ensures BitAnd(2 * x + l, 2 * y + m) == 2 * BitAnd(x, y) + AndBit(l, m)
  {
    OrStep(2 * x + l, 2 * y + m);
    AndStep(2 * x + l, 2 * y + m);
  }

  /** `(n | 0x80) & 0xBF` keeps the low six bits and marks them as a continuation byte. */
  lemma MarkedSixBits(n: nat)
    ensures BitAnd(BitOr(n, 0x80), 0xBF) == 0x80 + n % 0x40
  {
    hide BitOr, BitAnd;
    var k := n / 8;
    var h, l1, l0 := k / 8, k % 8, n % 8;
    assert n == 8 * k + l0 && k == 8 * h + l1;
    ModIs(n, 0x40, h, 8 * l1 + l0);
    MarkSet(h, l1, l0);
    MarkKept(BitOr(h, 2), l1, l0);
    TwoIsSet(h);
  }

  lemma MarkSet(h: nat, l1: nat, l0: nat)
    requires l1 < 8 && l0 < 8
    ensures BitOr(8 * (8 * h + l1) + l0, 0x80) == 8 * (8 * BitOr(h, 2) + l1) + l0
  {
    hide BitOr, BitAnd;
    ThreeBits(l0);
    ThreeBits(l1);
    EightSplits(h, l1, 2, 0);
    EightSplits(8 * h + l1, l0, 0x10, 0);
  }

  lemma MarkKept(m: nat, l1: nat, l0: nat)
    requires l1 < 8 && l0 < 8
    ensures BitAnd(8 * (8 * m + l1) + l0, 0xBF) == 8 * (8 * BitAnd(m, 2) + l1) + l0
  {
    hide BitOr, BitAnd;
    ThreeBits(l0);
    ThreeBits(l1);
    EightSplits(m, l1, 2, 7);
    EightSplits(8 * m + l1, l0, 0x17, 7);
  }

  lemma ThreeBits(l: nat)
    requires l < 8
    ensures BitOr(l, 0) == l && BitAnd(l, 7) == l
  {
    Mask(l, 8);
  }

  lemma TwoIsSet(h: nat)
    ensures BitAnd(BitOr(h, 2), 2) == 2
  {
    hide BitOr, BitAnd;
    var b, c := h % 2, h / 2 % 2;
    BitSplits(h / 4, c, 0, 1);
    BitSplits(h / 2, b, 1, 0);
    var m := BitOr(h / 4, 0);
    BitSplits(m, 1, 0, 1);
    BitSplits(2 * m + 1, b, 1, 0);
    NothingAnd(m);
    assert 2 * (h / 2) + b == h && 2 * (h / 4) + c == h / 2;
  }

  lemma NothingAnd(m: nat)
    ensures BitAnd(m, 0) == 0
  {
  }

  /** Shifting by six and by ten bits. */
  lemma ShiftValues(n: nat)
    ensures ShiftDown(n, 6) == n / 0x40 && ShiftUp(n, 10) == n * 0x400
  {
    assert ShiftUp(n, 10) == ShiftUp(0x20 * n, 5) == 0x400 * n;
    assert ShiftDown(n, 6) == ShiftDown(n / 8, 3) == n / 8 / 8;
  }
}
