/** Machine words as natural numbers, with the C bit operators written out.

    A word of `n` bits is a natural number below `Pow2(n)`.  `And`, `Or` and `Bit` recurse over the binary
    digits, so that each law below is an induction on the digits and no bit-vector theory is involved. */
module Words {

  function Pow2(n: nat): (p: nat)
    ensures p >= 1
  {
    if n == 0 then 1 else 2 * Pow2(n - 1)
  }

  /** Binary digit `k` of `x`. */
  predicate Bit(x: nat, k: nat) {
    if k == 0 then x % 2 == 1 else Bit(x / 2, k - 1)
  }

  function And(x: nat, y: nat): nat {
    if x == 0 || y == 0 then 0
    else 2 * And(x / 2, y / 2) + (if x % 2 == 1 && y % 2 == 1 then 1 else 0)
  }

  function Or(x: nat, y: nat): nat
    decreases x + y
  {
    if x == 0 then y else if y == 0 then x
    else 2 * Or(x / 2, y / 2) + (if x % 2 == 1 || y % 2 == 1 then 1 else 0)
  }

  /** `~x` in an `n`-bit word. */
  function Not(x: nat, n: nat): nat
    requires x < Pow2(n)
  {
    Pow2(n) - 1 - x
  }

  /** `~0 << s` in an `n`-bit word. */
  function OnesFrom(s: nat, n: nat): nat
    requires s <= n
  {
    Pow2Mono(s, n);
    Pow2(n) - Pow2(s)
  }

  lemma {:induction false} Pow2Mono(a: nat, b: nat)
    requires a <= b
    ensures Pow2(a) <= Pow2(b)
    ensures a < b ==> Pow2(a) < Pow2(b)
    decreases b
  {
    if a < b {
      Pow2Mono(a, b - 1);
    }
  }

  lemma {:induction false} Pow2Add(a: nat, b: nat)
    ensures Pow2(a + b) == Pow2(a) * Pow2(b)
  {
    if a == 0 {
    } else {
      Pow2Add(a - 1, b);
      assert a + b - 1 == a - 1 + b;
      assert Pow2(a + b) == 2 * (Pow2(a - 1) * Pow2(b)) == (2 * Pow2(a - 1)) * Pow2(b);
    }
  }

  lemma {:induction false} ZeroBit(k: nat)
    ensures !Bit(0, k)
  {
    if k > 0 { ZeroBit(k - 1); }
  }

  lemma {:induction false} BitAnd(x: nat, y: nat, k: nat)
    ensures Bit(And(x, y), k) <==> Bit(x, k) && Bit(y, k)
  {
    ZeroBit(k);
    if x != 0 && y != 0 && k > 0 {
      BitAnd(x / 2, y / 2, k - 1);
      assert And(x, y) / 2 == And(x / 2, y / 2);
    }
  }

  lemma {:induction false} BitOr(x: nat, y: nat, k: nat)
    ensures Bit(Or(x, y), k) <==> Bit(x, k) || Bit(y, k)
  {
    ZeroBit(k);
    if x != 0 && y != 0 && k > 0 {
      BitOr(x / 2, y / 2, k - 1);
      assert Or(x, y) / 2 == Or(x / 2, y / 2);
    }
  }

  lemma {:induction false} BitPow2(k: nat, j: nat)
    ensures Bit(Pow2(k), j) <==> j == k
  {
    if k == 0 {
      if j > 0 { ZeroBit(j - 1); }
    } else if j > 0 {
      BitPow2(k - 1, j - 1);
    }
  }

  lemma {:induction false} BitNot(x: nat, n: nat, k: nat)
    requires x < Pow2(n)
    ensures Bit(Not(x, n), k) <==> k < n && !Bit(x, k)
  {
    if n == 0 {
      ZeroBit(k);
    } else if k > 0 {
      BitNot(x / 2, n - 1, k - 1);
      assert Not(x, n) / 2 == Not(x / 2, n - 1);
    }
  }

  lemma {:induction false} BitOnesFrom(s: nat, n: nat, k: nat)
    requires s <= n
    ensures Bit(OnesFrom(s, n), k) <==> s <= k < n
  {
    Pow2Mono(s, n);
    if n == 0 {
      ZeroBit(k);
    } else if s == 0 {
      BitNot(0, n, k);
      ZeroBit(k);
      assert OnesFrom(0, n) == Not(0, n);
    } else if k > 0 {
      Pow2Mono(s - 1, n - 1);
      BitOnesFrom(s - 1, n - 1, k - 1);
      assert OnesFrom(s, n) / 2 == OnesFrom(s - 1, n - 1);
    }
  }

  /** A word is determined by its digits, so a bitmap described digit by digit is described completely. */
  lemma {:induction false} SameBits(x: nat, y: nat, n: nat)
    requires x < Pow2(n) && y < Pow2(n)
    requires forall k :: 0 <= k < n ==> (Bit(x, k) <==> Bit(y, k))
    ensures x == y
  {
    if n > 0 {
      assert Bit(x, 0) <==> Bit(y, 0);
      forall k | 0 <= k < n - 1
        ensures Bit(x / 2, k) <==> Bit(y / 2, k)
      {
        assert Bit(x, k + 1) <==> Bit(y, k + 1);
      }
      SameBits(x / 2, y / 2, n - 1);
    }
  }

  lemma {:induction false} BitBelow(x: nat, n: nat, k: nat)
    requires x < Pow2(n) && Bit(x, k)
    ensures k < n
  {
    if n == 0 {
      ZeroBit(k);
    } else if k > 0 {
      BitBelow(x / 2, n - 1, k - 1);
    }
  }

  lemma {:induction false} AndBelow(x: nat, y: nat, n: nat)
    requires x < Pow2(n) || y < Pow2(n)
    ensures And(x, y) < Pow2(n)
  {
    if x != 0 && y != 0 && n > 0 {
      AndBelow(x / 2, y / 2, n - 1);
    }
  }

  lemma {:induction false} OrBelow(x: nat, y: nat, n: nat)
    requires x < Pow2(n) && y < Pow2(n)
    ensures Or(x, y) < Pow2(n)
  {
    if x != 0 && y != 0 && n > 0 {
      OrBelow(x / 2, y / 2, n - 1);
    }
  }

  /** `x | (y << k)` is an addition when `x` has no digit at or above `k`. */
  lemma {:induction false} OrDisjoint(x: nat, y: nat, k: nat)
    requires x < Pow2(k)
    ensures Or(x, y * Pow2(k)) == x + y * Pow2(k)
  {
    if k > 0 && x != 0 && y != 0 {
      var hi := y * Pow2(k - 1);
      assert y * Pow2(k) == 2 * hi;
      OrDisjoint(x / 2, y, k - 1);
    }
  }

  lemma AndOdd(x: nat, y: nat)
    ensures And(x, 2 * y + 1) == 2 * And(x / 2, y) + x % 2
  {
    assert (2 * y + 1) / 2 == y && (2 * y + 1) % 2 == 1;
  }

  /** `x & ((1 << k) - 1)` is the remainder modulo `1 << k`. */
  lemma {:induction false} AndLow(x: nat, k: nat)
    ensures And(x, Pow2(k) - 1) == x % Pow2(k)
  {
    if k > 0 {
      var m := Pow2(k - 1);
      AndLow(x / 2, k - 1);
      AndOdd(x, m - 1);
      ModHalf(x, m);
    }
  }

  lemma ModHalf(x: nat, m: nat)
    requires m > 0
    ensures x % (2 * m) == 2 * (x / 2 % m) + x % 2
  {
    var q, r := x / 2 / m, x / 2 % m;
    assert x / 2 == q * m + r;
    assert q * (2 * m) == 2 * (q * m);
    ModUnique(x, 2 * m, q, 2 * r + x % 2);
  }

  /** `x & ~y`. */
  function AndNot(x: nat, y: nat): (r: nat)
    ensures r <= x
  {
    if x == 0 || y == 0 then x
    else 2 * AndNot(x / 2, y / 2) + (if x % 2 == 1 && y % 2 == 0 then 1 else 0)
  }

  lemma {:induction false} AndNotSplits(x: nat, y: nat)
    ensures AndNot(x, y) + And(x, y) == x
  {
    if x != 0 && y != 0 {
      AndNotSplits(x / 2, y / 2);
    }
  }

  lemma AndNotLow(x: nat, k: nat)
    ensures AndNot(x, Pow2(k) - 1) == x - x % Pow2(k)
  {
    AndNotSplits(x, Pow2(k) - 1);
    AndLow(x, k);
  }

  /** Quotient and remainder are unique. */
  lemma ModUnique(x: int, m: int, q: int, r: int)
    requires m > 0 && 0 <= r < m && x == q * m + r
    ensures x % m == r && x / m == q
  {
    QuotientOrder(m, q, r, x / m, x % m);
    QuotientOrder(m, x / m, x % m, q, r);
  }

  lemma QuotientOrder(m: int, q: int, r: int, q': int, r': int)
    requires m > 0 && 0 <= r < m && 0 <= r' < m && q * m + r == q' * m + r'
    ensures q <= q'
  {
    if q > q' {
      MulMono(q' + 1, q, m);
      assert false;
    }
  }

  /** Division brackets its dividend, and inherits brackets of it. */
  lemma DivRange(x: nat, d: nat, lo: nat, hi: nat)
    requires d > 0 && lo * d <= x < hi * d
    ensures lo <= x / d < hi && (x / d) * d <= x < (x / d + 1) * d
  {
    var q := x / d;
    assert x == q * d + x % d;
    assert (q + 1) * d == q * d + d;
    if q < lo { MulMono(q + 1, lo, d); assert false; }
    if hi <= q { MulMono(hi, q, d); assert false; }
  }

  lemma MulMono(a: int, b: int, m: int)
    requires a <= b && m >= 0
    ensures a * m <= b * m
  {
  }

  /** `x |= 1 << k` */
  function SetBit(x: nat, k: nat): nat {
    Or(x, Pow2(k))
  }

  /** `x &= ~(1 << k)` in an `n`-bit word */
  function ClearBit(x: nat, k: nat, n: nat): nat
    requires k < n
  {
    Pow2Mono(k, n);
    And(x, Not(Pow2(k), n))
  }

  lemma SetBitDigits(x: nat, k: nat, n: nat)
    requires x < Pow2(n) && k < n
    ensures SetBit(x, k) < Pow2(n)
    ensures forall j: nat :: Bit(SetBit(x, k), j) <==> j == k || Bit(x, j)
  {
    Pow2Mono(k, n);
    OrBelow(x, Pow2(k), n);
    forall j: nat
      ensures Bit(SetBit(x, k), j) <==> j == k || Bit(x, j)
    {
      BitOr(x, Pow2(k), j);
      BitPow2(k, j);
    }
  }

  lemma ClearBitDigits(x: nat, k: nat, n: nat)
    requires x < Pow2(n) && k < n
    ensures ClearBit(x, k, n) < Pow2(n)
    ensures forall j: nat :: Bit(ClearBit(x, k, n), j) <==> j != k && Bit(x, j)
  {
    Pow2Mono(k, n);
    AndBelow(x, Not(Pow2(k), n), n);
    forall j: nat
      ensures Bit(ClearBit(x, k, n), j) <==> j != k && Bit(x, j)
    {
      BitAnd(x, Not(Pow2(k), n), j);
      BitNot(Pow2(k), n, j);
      BitPow2(k, j);
      if Bit(x, j) { BitBelow(x, n, j); }
    }
  }

  // ---------------------------------------------------------------------------------------------------
  // The table-driven bit searches of the allocator
  // ---------------------------------------------------------------------------------------------------

  /** The 256-entry table: entry `i > 0` is the position of the highest digit of `i`, entry 0 is -1. */
  function Table(i: nat): int
    requires i < 256
  {
    if i == 0 then -1 else if i < 2 then 0 else if i < 4 then 1 else if i < 8 then 2 else if i < 16 then 3
    else if i < 32 then 4 else if i < 64 then 5 else if i < 128 then 6 else 7
  }

  /** The byte of `x` that holds its highest digit, as a shift amount. */
  function TopByte(x: nat): nat {
    if x <= 0xffff then (if x <= 0xff then 0 else 8) else if x <= 0xffffff then 16 else 24
  }

  function MsBit(x: nat): int
    requires x < 0x1_0000_0000
  {
    var a := TopByte(x);
    Table(x / (if a == 0 then 1 else if a == 8 then 0x100 else if a == 16 then 0x1_0000 else 0x100_0000)) + a
  }

  /** `i & -i` followed by the same table lookup. */
  function LsBit(x: nat): int
    requires x < 0x1_0000_0000
  {
    Pow2Values();
    AndBelow(x, 0, 32);
    AndBelow(x, (0x1_0000_0000 - x) % 0x1_0000_0000, 32);
    MsBit(And(x, (0x1_0000_0000 - x) % 0x1_0000_0000))
  }

  lemma Pow2Values()
    ensures Pow2(3) == 8 && Pow2(4) == 16 && Pow2(5) == 32 && Pow2(6) == 64 && Pow2(7) == 128 && Pow2(8) == 0x100
    ensures Pow2(16) == 0x1_0000 && Pow2(24) == 0x100_0000 && Pow2(30) == 0x4000_0000 && Pow2(32) == 0x1_0000_0000
  {
    assert Pow2(4) == 16;
    assert Pow2(8) == 256;
    Pow2Add(8, 8);
    Pow2Add(16, 8);
    Pow2Add(24, 6);
    Pow2Add(24, 8);
  }

  /** The highest-digit search brackets its argument between two powers of two; -1 stands for "no digit". */
  lemma MsBitBrackets(x: nat)
    requires x < 0x1_0000_0000
    ensures x == 0 ==> MsBit(x) == -1
    ensures x > 0 ==> 0 <= MsBit(x) < 32 && Pow2(MsBit(x)) <= x < Pow2(MsBit(x) + 1)
  {
    if x > 0 {
      Pow2Values();
      assert Pow2(1) == 2 && Pow2(2) == 4;
      var a := TopByte(x);
      var t := Table(x / Pow2(a));
      Pow2Add(t, a);
      Pow2Add(t + 1, a);
      assert t + 1 + a == MsBit(x) + 1;
      var h := x / Pow2(a);
      assert Pow2(t) <= h < Pow2(t + 1);
      DivBracket(x, Pow2(a), Pow2(t), Pow2(t + 1));
    }
  }

  lemma DivBracket(x: nat, d: nat, lo: nat, hi: nat)
    requires d > 0 && lo <= x / d < hi
    ensures lo * d <= x < hi * d
  {
    var q := x / d;
    assert x == q * d + x % d;
    assert lo * d <= q * d;
    assert (q + 1) * d <= hi * d;
  }

  lemma {:induction false} BracketUnique(x: nat, a: nat, b: nat)
    requires Pow2(a) <= x < Pow2(a + 1) && Pow2(b) <= x < Pow2(b + 1)
    ensures a == b
  {
    if a < b {
      Pow2Mono(a + 1, b);
    } else if b < a {
      Pow2Mono(b + 1, a);
    }
  }

  lemma MsBitOfPow2(k: nat)
    requires k < 32
    ensures Pow2(k) < 0x1_0000_0000 && MsBit(Pow2(k)) == k
  {
    Pow2Values();
    Pow2Mono(k, 32);
    MsBitBrackets(Pow2(k));
    Pow2Mono(k, k + 1);
    BracketUnique(Pow2(k), MsBit(Pow2(k)), k);
  }

  /** Two's complement: `x & -x` isolates the lowest digit. */
  lemma {:induction false} LowestDigit(x: nat, n: nat) returns (k: nat)
    requires 0 < x < Pow2(n)
    ensures k < n && And(x, Pow2(n) - x) == Pow2(k)
    ensures Bit(x, k) && forall j :: 0 <= j < k ==> !Bit(x, j)
  {
    if x % 2 == 1 {
      k := 0;
      var y := x / 2;
      assert (Pow2(n) - x) / 2 == Not(y, n - 1);
      AndNotIsZero(y, n - 1);
    } else {
      var k' := LowestDigit(x / 2, n - 1);
      k := k' + 1;
      assert (Pow2(n) - x) / 2 == Pow2(n - 1) - x / 2;
      forall j | 0 <= j < k
        ensures !Bit(x, j)
      {
        if j > 0 { assert !Bit(x / 2, j - 1); }
      }
    }
  }

  lemma {:induction false} AndNotIsZero(x: nat, n: nat)
    requires x < Pow2(n)
    ensures And(x, Not(x, n)) == 0
  {
    if n > 0 {
      AndNotIsZero(x / 2, n - 1);
      assert Not(x, n) / 2 == Not(x / 2, n - 1);
    }
  }

  /** The lowest-digit search returns the first set digit, and -1 exactly for the empty word. */
  lemma LsBitFirst(x: nat)
    requires x < 0x1_0000_0000
    ensures x == 0 ==> LsBit(x) == -1
    ensures x > 0 ==> 0 <= LsBit(x) < 32 && Bit(x, LsBit(x)) && forall j :: 0 <= j < LsBit(x) ==> !Bit(x, j)
  {
    if x > 0 {
      Pow2Values();
      var k := LowestDigitOfWord(x, 32);
      MsBitOfPow2(k);
    }
  }

  lemma LowestDigitOfWord(x: nat, n: nat) returns (k: nat)
    requires n <= 32 && Pow2(n) == 0x1_0000_0000 && 0 < x < 0x1_0000_0000
    ensures k < n && And(x, (0x1_0000_0000 - x) % 0x1_0000_0000) == Pow2(k)
    ensures Bit(x, k) && forall j :: 0 <= j < k ==> !Bit(x, j)
  {
    k := LowestDigit(x, n);
  }

  ghost predicate NoBit(x: nat, n: nat) {
    forall k :: 0 <= k < n ==> !Bit(x, k)
  }

  /** A word is zero exactly when it has no digit. */
  lemma {:induction false} ZeroHasNoBit(x: nat, n: nat)
    requires x < Pow2(n)
    ensures x == 0 <==> NoBit(x, n)
  {
    if x != 0 {
      var k := LowestDigit(x, n);
    } else {
      forall k | 0 <= k < n
        ensures !Bit(x, k)
      {
        ZeroBit(k);
      }
    }
  }
}
