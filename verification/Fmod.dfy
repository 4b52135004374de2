/** The exact remainder of two binary64 numbers, by shift and subtract on their bit patterns.  The reference is the
    integer remainder of the magnitudes counted in units of 2^-1074, the smallest subnormal. */
module Fmod {
  import opened Words

  const P11: nat := 0x800
  const P52: nat := 0x10_0000_0000_0000
  const P53: nat := 0x20_0000_0000_0000
  const P63: nat := 0x8000_0000_0000_0000
  const P64: nat := 0x1_0000_0000_0000_0000

  /** A not-a-number of any pattern, or a bit pattern. */
  datatype Result = NaN | Value(bits: nat)

  function Sign(u: nat): nat { u / P63 }

  function Expo(u: nat): nat { u / P52 % P11 }

  function Frac(u: nat): nat { u % P52 }

  predicate Finite(u: nat) { u < P64 && Expo(u) != 0x7ff }

  predicate IsNan(u: nat) { Expo(u) == 0x7ff && Frac(u) != 0 }

  predicate IsInf(u: nat) { Expo(u) == 0x7ff && Frac(u) == 0 }

  /** The magnitude of a finite number in units of 2^-1074. */
  function Mag(u: nat): nat {
    if Expo(u) == 0 then Frac(u) else (P52 + Frac(u)) * Pow2(Expo(u) - 1)
  }

  /** `m` counts units of 2^(e-1075); exponents down to -52 occur. */
  ghost predicate Scaled(m: nat, e: int, mag: nat) {
    e >= -52 && m * Pow2(e + 52) == mag * P53
  }

  // ---------------------------------------------------------------------------------------------------
  // Arithmetic
  // ---------------------------------------------------------------------------------------------------

  lemma Powers()
    ensures Pow2(11) == P11 && Pow2(12) == 2 * P11 && Pow2(52) == P52 && Pow2(53) == P53 && Pow2(63) == P63
  {
    assert Pow2(0) == 1 && Pow2(1) == 2 && Pow2(2) == 4;
    Pow2Add(2, 2); Pow2Add(4, 4); Pow2Add(8, 2); Pow2Add(10, 1);
    Pow2Add(11, 1);
    Pow2Add(12, 1); Pow2Add(13, 13); Pow2Add(26, 26);
    Pow2Add(52, 1);
    Pow2Add(52, 11);
  }

  lemma PowerSplit(k: nat)
    requires k <= 53
    ensures Pow2(k) * Pow2(53 - k) == P53
  {
    Powers();
    Pow2Add(k, 53 - k);
  }

  lemma PowerUp(e: int)
    requires e >= 1
    ensures Pow2(e + 52) == Pow2(e - 1) * P53
  {
    Powers();
    Pow2Add(e - 1, 53);
  }

  lemma Assoc(a: int, b: int, c: int)
    ensures a * b * c == a * (b * c)
  {
  }

  lemma Fields(u: nat)
    requires u < P64
    ensures u == Sign(u) * P63 + Expo(u) * P52 + Frac(u) && Sign(u) < 2
    ensures u % P63 == Expo(u) * P52 + Frac(u) && Expo(u) < P11
  {
    var h := u / P52;
    ModUnique(u, P63, h / P11, Expo(u) * P52 + Frac(u));
  }

  lemma FieldsOf(s: nat, e: nat, f: nat)
    requires s < 2 && e < P11 && f < P52
    ensures var u := s * P63 + e * P52 + f; u < P64 && Sign(u) == s && Expo(u) == e && Frac(u) == f
  {
    var u := s * P63 + e * P52 + f;
    ModUnique(u, P63, s, e * P52 + f);
    ModUnique(u, P52, s * P11 + e, f);
    ModUnique(s * P11 + e, P11, s, e);
  }

  lemma Larger(a: nat, b: nat, m: nat)
    requires a < b && m > 0
    ensures a * m < b * m && (a + 1) * m <= b * m
  {
    MulMono(a + 1, b, m);
    assert (a + 1) * m == a * m + m;
  }

  /** Below the sign bit, patterns are ordered as the magnitudes are. */
  lemma {:induction false} PatternOrder(a: nat, b: nat)
    requires a < P64 && b < P64 && a % P63 < b % P63
    ensures Mag(a) < Mag(b)
  {
    Fields(a);
    Fields(b);
    if Expo(a) == Expo(b) {
      if Expo(a) > 0 { Larger(P52 + Frac(a), P52 + Frac(b), Pow2(Expo(a) - 1)); }
    } else {
      assert Expo(a) < Expo(b);
      if Expo(a) == 0 {
        MulMono(1, Pow2(Expo(b) - 1), P52 + Frac(b));
      } else {
        Larger(P52 + Frac(a), P53, Pow2(Expo(a) - 1));
        assert P53 * Pow2(Expo(a) - 1) == P52 * Pow2(Expo(a));
        Pow2Mono(Expo(a), Expo(b) - 1);
        MulMono(Pow2(Expo(a)), Pow2(Expo(b) - 1), P52);
        MulMono(P52, P52 + Frac(b), Pow2(Expo(b) - 1));
      }
    }
  }

  lemma SamePattern(a: nat, b: nat)
    requires a < P64 && b < P64 && a % P63 == b % P63
    ensures Mag(a) == Mag(b)
  {
    Fields(a);
    Fields(b);
    ModUnique(Expo(a) * P52 + Frac(a), P52, Expo(a), Frac(a));
    ModUnique(Expo(b) * P52 + Frac(b), P52, Expo(b), Frac(b));
  }

  /** Shifting a word left by one compares without the sign. */
  lemma ShiftOne(u: nat)
    requires u < P64
    ensures u * 2 % P64 == 2 * (u % P63)
  {
    ModUnique(2 * u, P64, u / P63, 2 * (u % P63));
  }

  lemma ModSubtract(a: nat, k: nat, d: nat)
    requires d > 0 && k * d <= a
    ensures (a - k * d) % d == a % d
  {
    var r := a - k * d;
    var q := r / d;
    assert r == q * d + r % d;
    assert (q + k) * d == q * d + k * d;
    ModUnique(a, d, q + k, r % d);
  }

  lemma ModScale(a: nat, b: nat, c: nat)
    requires b > 0 && c > 0
    ensures b * c > 0 && (a * c) % (b * c) == (a % b) * c
  {
    var q := a / b;
    assert a == q * b + a % b;
    MulMono(1, b, c);
    Larger(a % b, b, c);
    assert a * c == q * (b * c) + (a % b) * c by {
      assert (q * b + a % b) * c == q * b * c + (a % b) * c;
      assert q * b * c == q * (b * c);
    }
    ModUnique(a * c, b * c, q, (a % b) * c);
  }

  // ---------------------------------------------------------------------------------------------------
  // Normalizing
  // ---------------------------------------------------------------------------------------------------

  lemma NormalScaled(u: nat)
    requires Finite(u) && Expo(u) > 0
    ensures Scaled(P52 + Frac(u), Expo(u), Mag(u))
  {
    var e := Expo(u);
    PowerUp(e);
    Assoc(P52 + Frac(u), Pow2(e - 1), P53);
  }

  lemma SubnormalScaled(f: nat, k: nat)
    requires k <= 53
    ensures Scaled(f * Pow2(k), 1 - k, f)
  {
    PowerSplit(k);
    Assoc(f, Pow2(k), Pow2(53 - k));
  }

  /** Shifting a word left drops the sign. */
  lemma ShiftOut(s: nat, f: nat, k: nat)
    requires k >= 1 && f * Pow2(k) < P64
    ensures (s * P63 + f) * Pow2(k) % P64 == f * Pow2(k)
  {
    var h := Pow2(k - 1);
    assert P63 * Pow2(k) == P64 * h;
    assert (s * P63 + f) * Pow2(k) == (s * h) * P64 + f * Pow2(k) by {
      assert (s * P63 + f) * Pow2(k) == s * P63 * Pow2(k) + f * Pow2(k);
      assert s * P63 * Pow2(k) == s * (P63 * Pow2(k)) == s * (P64 * h) == (s * h) * P64;
    }
    ModUnique((s * P63 + f) * Pow2(k), P64, s * h, f * Pow2(k));
  }

  lemma FewShifts(f: nat, t: nat)
    requires f >= 1 && f * 0x1000 * Pow2(t) < P64
    ensures t < 52
  {
    Powers();
    Assoc(f, 0x1000, Pow2(t));
    MulMono(1, f, 0x1000 * Pow2(t));
    if t >= 52 { Pow2Mono(52, t); }
  }

  /** One more turn of the loop that brings the leading bit to bit 63. */
  lemma KeepsShifting(f: nat, k: nat, i: nat)
    requires f >= 1 && f * 0x1000 * Pow2(k) == i && i < P63
    ensures i >= 1 && f * 0x1000 * Pow2(k + 1) == 2 * i && k + 1 < 52 && i * 2 % P64 == 2 * i
  {
    MulMono(1, f, 0x1000);
    MulMono(1, Pow2(k), f * 0x1000);
    Assoc(f * 0x1000, Pow2(k), 2);
    FewShifts(f, k + 1);
  }

  lemma Shifted(u: nat, s: nat, f: nat, k: nat, i: nat)
    requires u == s * P63 + f && 1 <= k <= 52 && f * 0x1000 * Pow2(k - 1) == i && P63 <= i < P64
    ensures u * Pow2(k) % P64 == f * Pow2(k) && P52 <= f * Pow2(k) < P53 && Scaled(f * Pow2(k), 1 - k, f)
  {
    assert f * Pow2(k) * 0x800 == i;
    ShiftOut(s, f, k);
    SubnormalScaled(f, k);
  }

  /** The significand with its leading bit at bit 52, and the exponent that goes with it. */
  method Normalize(u: nat) returns (m: nat, ex: int)
    requires Finite(u) && Mag(u) > 0
    ensures P52 <= m < P53 && -52 < ex < 0x7ff && Scaled(m, ex, Mag(u))
  {
    Fields(u);
    ex := Expo(u);
    if ex == 0 {
      var f := Frac(u);
      ghost var s := Sign(u);
      ModUnique(u * 0x1000, P64, s * P11, f * 0x1000);
      var i := u * 0x1000 % P64;
      while i / P63 == 0
        invariant -52 < ex <= 0 && f * 0x1000 * Pow2(-ex) == i < P64
        decreases P64 - i
      {
        KeepsShifting(f, -ex, i);
        ex := ex - 1;
        i := i * 2 % P64;
      }
      Shifted(u, s, f, -ex + 1, i);
      m := u * Pow2(-ex + 1) % P64;
    } else {
      m := u % P52 + P52;
      NormalScaled(u);
    }
  }

  // ---------------------------------------------------------------------------------------------------
  // The remainder loop
  // ---------------------------------------------------------------------------------------------------

  /** `u` at exponent `ex` is what is left of `n` after taking off some multiples of `uy` at exponent `ey`. */
  ghost predicate Left(u: nat, ex: int, uy: nat, ey: int, n: nat) {
    && ex >= ey >= -52 && 0 < u < 2 * uy
    && u * Pow2(ex + 52) % (uy * Pow2(ey + 52)) == n % (uy * Pow2(ey + 52))
  }

  lemma DivisorPositive(uy: nat, k: nat)
    requires uy > 0
    ensures uy * Pow2(k) > 0
  {
    MulMono(1, uy, Pow2(k));
  }

  lemma MultipleOfDivisor(uy: nat, ex: int, ey: int)
    requires ex >= ey >= -52
    ensures uy * Pow2(ex + 52) == Pow2(ex - ey) * (uy * Pow2(ey + 52))
  {
    Pow2Add(ex - ey, ey + 52);
    Assoc(uy, Pow2(ex - ey), Pow2(ey + 52));
    Assoc(Pow2(ex - ey), uy, Pow2(ey + 52));
  }

  lemma Distribute(a: int, b: int, c: int)
    ensures (a - b) * c == a * c - b * c
  {
  }

  lemma ZeroTimes(c: nat, d: nat)
    requires d > 0
    ensures 0 * c == 0 && 0 % d == 0
  {
  }

  lemma Subtracted(u: nat, ex: int, uy: nat, ey: int, n: nat)
    requires uy > 0 && Left(u, ex, uy, ey, n) && u >= uy
    ensures uy * Pow2(ey + 52) > 0
    ensures u > uy ==> Left(u - uy, ex, uy, ey, n)
    ensures u == uy ==> n % (uy * Pow2(ey + 52)) == 0
  {
    var d := uy * Pow2(ey + 52);
    DivisorPositive(uy, ey + 52);
    MultipleOfDivisor(uy, ex, ey);
    MulMono(uy, u, Pow2(ex + 52));
    ModSubtract(u * Pow2(ex + 52), Pow2(ex - ey), d);
    Distribute(u, uy, Pow2(ex + 52));
    ZeroTimes(Pow2(ex + 52), d);
  }

  lemma Doubled(u: nat, ex: int, uy: nat, ey: int, n: nat)
    requires uy > 0 && Left(u, ex, uy, ey, n) && u < uy && ex > ey
    ensures Left(2 * u, ex - 1, uy, ey, n)
  {
    assert Pow2(ex + 52) == 2 * Pow2(ex + 51);
    assert 2 * u * Pow2(ex + 51) == u * Pow2(ex + 52);
  }

  lemma ScaledRemainder(x: nat, y: nat, uy: nat, ey: int)
    requires y > 0 && Scaled(uy, ey, y)
    ensures uy * Pow2(ey + 52) > 0 && x * P53 % (uy * Pow2(ey + 52)) == x % y * P53
  {
    ModScale(x, y, P53);
  }

  /** At the divisor's exponent, what is left and smaller than the divisor is the remainder. */
  lemma Finished(u: nat, uy: nat, ey: int, x: nat, y: nat)
    requires y > 0 && Scaled(uy, ey, y) && uy > 0 && Left(u, ey, uy, ey, x * P53) && u < uy
    ensures Scaled(u, ey, x % y)
  {
    ScaledRemainder(x, y, uy, ey);
    Larger(u, uy, Pow2(ey + 52));
    ModUnique(u * Pow2(ey + 52), uy * Pow2(ey + 52), 0, u * Pow2(ey + 52));
  }

  lemma ZeroRemainder(uy: nat, ey: int, x: nat, y: nat)
    requires y > 0 && Scaled(uy, ey, y) && uy > 0 && uy * Pow2(ey + 52) > 0 && x * P53 % (uy * Pow2(ey + 52)) == 0
    ensures x % y == 0
  {
    ScaledRemainder(x, y, uy, ey);
  }

  lemma Begun(mx: nat, ex: int, x: nat, my: nat, ey: int, y: nat)
    requires Scaled(mx, ex, x) && Scaled(my, ey, y) && x > y > 0 && P52 <= mx < P53 && P52 <= my < P53
    ensures Left(mx, ex, my, ey, x * P53)
  {
    if ex < ey {
      Larger(mx, P53, Pow2(ex + 52));
      assert P53 * Pow2(ex + 52) == P52 * Pow2(ex + 53);
      Pow2Mono(ex + 53, ey + 52);
      MulMono(Pow2(ex + 53), Pow2(ey + 52), P52);
      MulMono(P52, my, Pow2(ey + 52));
      MulMono(y, x, P53);
      assert false;
    }
  }

  /** The top bit of a difference tells whether it borrowed. */
  lemma Borrow(u: nat, m: nat)
    requires u < 2 * m && m < P53
    ensures (u - m) % P64 / P63 == 0 <==> u >= m
    ensures u >= m ==> (u - m) % P64 == u - m
    ensures u < m ==> u * 2 % P64 == 2 * u
    ensures u >= m ==> (u - m) * 2 % P64 == 2 * (u - m)
  {
  }

  /** Reduces `mx` at exponent `ex` to the remainder; `u` is 0 if there is none. */
  method Reduce(mx: nat, ex: int, my: nat, ey: int, ghost x: nat, ghost y: nat) returns (u: nat)
    requires Scaled(mx, ex, x) && Scaled(my, ey, y) && x > y > 0 && P52 <= mx < P53 && P52 <= my < P53
    ensures u == 0 ==> x % y == 0
    ensures u > 0 ==> u < my && Scaled(u, ey, x % y)
  {
    u := mx;
    var e := ex;
    Begun(mx, ex, x, my, ey, y);
    while e > ey
      invariant Left(u, e, my, ey, x * P53)
      decreases e - ey
    {
      Borrow(u, my);
      var i := (u - my) % P64;
      if i / P63 == 0 {
        Subtracted(u, e, my, ey, x * P53);
        if i == 0 {
          ZeroRemainder(my, ey, x, y);
          return 0;
        }
        u := i;
      }
      Doubled(u, e, my, ey, x * P53);
      u := u * 2 % P64;
      e := e - 1;
    }
    Borrow(u, my);
    var i := (u - my) % P64;
    if i / P63 == 0 {
      Subtracted(u, e, my, ey, x * P53);
      if i == 0 {
        ZeroRemainder(my, ey, x, y);
        return 0;
      }
      u := i;
    }
    Finished(u, my, ey, x, y);
  }

  // ---------------------------------------------------------------------------------------------------
  // Putting the result together
  // ---------------------------------------------------------------------------------------------------

  lemma StillShifts(u: nat, e: int, r: nat)
    requires Scaled(u, e, r) && 0 < u < P52
    ensures e > -51 && Scaled(2 * u, e - 1, r)
  {
    MulMono(1, u, Pow2(e + 52));
    assert r != 0;
    MulMono(1, r, P53);
    assert Pow2(0) == 1 && Pow2(1) == 2;
    assert e > -51;
    assert Pow2(e + 52) == 2 * Pow2(e + 51);
    assert 2 * u * Pow2(e + 51) == u * Pow2(e + 52);
  }

  lemma Cancel(a: nat, b: nat, c: nat)
    requires c > 0 && a * c == b * c
    ensures a == b
  {
    if a < b { Larger(a, b, c); }
    if b < a { Larger(b, a, c); }
  }

  lemma NormalResult(u: nat, e: int, r: nat, s: nat)
    requires Scaled(u, e, r) && P52 <= u < P53 && 0 < e < 0x7ff && s < 2
    ensures var v := s * P63 + e * P52 + (u - P52); Finite(v) && Sign(v) == s && Mag(v) == r
  {
    FieldsOf(s, e, u - P52);
    PowerUp(e);
    Assoc(u, Pow2(e - 1), P53);
    Cancel(u * Pow2(e - 1), r, P53);
  }

  lemma AtLeastTwo(k: nat)
    requires k >= 1
    ensures Pow2(k) >= 2
  {
  }

  lemma ExactProduct(u: nat, e: int, r: nat)
    requires Scaled(u, e, r) && -52 <= e <= 0
    ensures u == r * Pow2(1 - e)
  {
    PowerSplit(1 - e);
    Assoc(r, Pow2(1 - e), Pow2(e + 52));
    Cancel(u, r * Pow2(1 - e), Pow2(e + 52));
  }

  /** The last shift of a subnormal result loses no bit. */
  lemma ExactShift(u: nat, e: int, r: nat)
    requires Scaled(u, e, r) && u < P53 && -52 <= e <= 0
    ensures u == r * Pow2(1 - e) && u / Pow2(1 - e) == r && r < P52
  {
    ExactProduct(u, e, r);
    ModUnique(u, Pow2(1 - e), r, 0);
    AtLeastTwo(1 - e);
    MulMono(2, Pow2(1 - e), r);
  }

  lemma SubnormalResult(r: nat, s: nat)
    requires r < P52 && s < 2
    ensures var v := r + s * P63; Finite(v) && Sign(v) == s && Mag(v) == r
  {
    FieldsOf(s, 0, r);
  }

  /** The loop that brings the leading bit to bit 52 again. */
  method Lead(u0: nat, e0: int, ghost r: nat) returns (u: nat, ex: int)
    requires Scaled(u0, e0, r) && 0 < u0 < P53
    ensures P52 <= u < P53 && ex <= e0 && Scaled(u, ex, r)
  {
    u, ex := u0, e0;
    while u / P52 == 0
      invariant 0 < u < P53 && ex <= e0 && Scaled(u, ex, r)
      decreases P53 - u
    {
      StillShifts(u, ex, r);
      u := u * 2 % P64;
      ex := ex - 1;
    }
  }

  /** Exponent and sign are or'ed in above the digits that are there. */
  lemma FieldAbove(u: nat, e: nat)
    requires u < P52
    ensures Or(u, e * P52) == u + e * P52
  {
    Powers();
    OrDisjoint(u, e, 52);
  }

  lemma SignAbove(u: nat, s: nat)
    requires u < P63
    ensures Or(u, s * P63) == u + s * P63
  {
    Powers();
    OrDisjoint(u, s, 63);
  }

  method Pack(u0: nat, e0: int, s: nat, ghost r: nat) returns (bits: nat)
    requires Scaled(u0, e0, r) && 0 < u0 < P53 && e0 < 0x7ff && s < 2
    ensures Finite(bits) && Sign(bits) == s && Mag(bits) == r
  {
    var u, ex := Lead(u0, e0, r);
    if ex > 0 {
      NormalResult(u, ex, r, s);
      u := u - P52;
      FieldAbove(u, ex);
      u := Or(u, ex * P52);
    } else {
      ExactShift(u, ex, r);
      u := u / Pow2(1 - ex);
      SubnormalResult(r, s);
    }
    SignAbove(u, s);
    bits := Or(u, s * P63);
  }

  /** A zero with the sign of `u`. */
  lemma ZeroOf(u: nat)
    requires u < P64
    ensures var z := Sign(u) * P63; Finite(z) && Sign(z) == Sign(u) && Mag(z) == 0
  {
    Fields(u);
    FieldsOf(Sign(u), 0, 0);
  }

  lemma SmallerStays(x: nat, y: nat)
    requires Finite(x) && Finite(y) && x % P63 < y % P63
    ensures Mag(x) % Mag(y) == Mag(x)
  {
    PatternOrder(x, y);
    ModUnique(Mag(x), Mag(y), 0, Mag(x));
  }

  /** Not a number for a zero or not-a-number divisor and for a dividend that is not finite; the dividend itself for an
      infinite divisor; otherwise the exact remainder of the magnitudes with the sign of the dividend. */
  method Fmod(x: nat, y: nat) returns (r: Result)
    requires x < P64 && y < P64
    ensures r.NaN? <==> y % P63 == 0 || IsNan(y) || Expo(x) == 0x7ff
    ensures !r.NaN? && IsInf(y) ==> r == Value(x)
    ensures !r.NaN? && !IsInf(y) ==>
              && Finite(x) && Finite(y) && Mag(y) > 0
              && Finite(r.bits) && Sign(r.bits) == Sign(x) && Mag(r.bits) == Mag(x) % Mag(y)
  {
    var sx := Sign(x);
    Fields(x);
    Fields(y);
    ShiftOne(x);
    ShiftOne(y);
    if y * 2 % P64 == 0 || IsNan(y) || Expo(x) == 0x7ff {
      return NaN;
    }
    ZeroOf(x);
    if x * 2 % P64 <= y * 2 % P64 {
      if x * 2 % P64 == y * 2 % P64 {
        SamePattern(x, y);
        ZeroPattern(y);
        return Value(sx * P63);
      }
      if !IsInf(y) { SmallerStays(x, y); ZeroPattern(y); }
      return Value(x);
    }
    LargerThanFinite(x, y);
    var bits := FmodLarger(x, y);
    return Value(bits);
  }

  /** The case of a dividend larger than the divisor. */
  method FmodLarger(x: nat, y: nat) returns (bits: nat)
    requires Finite(x) && Finite(y) && 0 < y % P63 < x % P63
    ensures Mag(y) > 0 && Finite(bits) && Sign(bits) == Sign(x) && Mag(bits) == Mag(x) % Mag(y)
  {
    PatternOrder(y, x);
    ZeroPattern(y);
    ZeroOf(x);
    var ux, ex := Normalize(x);
    var uy, ey := Normalize(y);
    var u := Reduce(ux, ex, uy, ey, Mag(x), Mag(y));
    if u == 0 {
      return Sign(x) * P63;
    }
    bits := Pack(u, ey, Sign(x), Mag(x) % Mag(y));
  }

  lemma LargerThanFinite(x: nat, y: nat)
    requires Finite(x) && y < P64 && y % P63 < x % P63
    ensures Finite(y)
  {
    Fields(x);
    Fields(y);
  }

  lemma ZeroPattern(y: nat)
    requires y < P64 && y % P63 != 0
    ensures Mag(y) > 0
  {
    Fields(y);
    if Expo(y) > 0 { MulMono(1, Pow2(Expo(y) - 1), P52 + Frac(y)); }
  }
}
