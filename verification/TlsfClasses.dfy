/** Size classes of the two-level segregated-fit allocator: the integer mapping from block sizes to
    (first level, second level) indices, and the rounding of requests to class boundaries. */
module TlsfClasses {
  import opened Words

  const OVERHEAD: nat := 16        // BHDR_OVERHEAD: bytes of a block header in front of the payload
  const MIN_BLOCK: nat := 16       // MIN_BLOCK_SIZE
  const HEADER: nat := 32          // sizeof(bhdr_t)
  const REAL_FLI: nat := 24
  const MAX_SLI: nat := 32
  const CLASSES: nat := 768        // REAL_FLI * MAX_SLI
  const SMALL_BLOCK: nat := 128
  const LIMIT: nat := 0x4000_0000  // block sizes have to stay below 2^30

  /** The largest request for which the index computed by the search mapping stays inside the matrix. */
  const MAX_REQUEST: nat := 0x3F00_0000

  function RoundUpSize(r: nat): nat {
    AndNot(r + 15, 15)
  }

  function RoundDownSize(r: nat): nat {
    AndNot(r, 15)
  }

  lemma RoundSizes(r: nat)
    ensures RoundDownSize(r) % 16 == 0 && RoundDownSize(r) <= r < RoundDownSize(r) + 16
    ensures RoundUpSize(r) % 16 == 0 && r <= RoundUpSize(r) < r + 16
  {
    Mask15(r);
    Mask15(r + 15);
    Aligned(r, RoundDownSize(r), RoundUpSize(r));
  }

  lemma Aligned(r: nat, d: int, u: int)
    requires d == r - r % 16 && u == r + 15 - (r + 15) % 16
    ensures d % 16 == 0 && d <= r < d + 16 && u % 16 == 0 && r <= u < r + 16
  {
  }

  lemma Mask15(r: nat)
    ensures AndNot(r, 15) == r - r % 16
  {
    var k := 4;
    assert Pow2(k) == 16 by { Pow2Values(); }
    AndNotLow(r, k);
  }

  /** First and second level of a size beyond the small ones. */
  function Levels(r: nat): (c: (int, int))
    requires SMALL_BLOCK <= r < 0x1_0000_0000
  {
    MsBitAtLeast7(r);
    var fl := MsBit(r);
    (fl - 6, r / Pow2(fl - 5) - MAX_SLI)
  }

  /** MAPPING_INSERT: the class a block of size `r` is filed under. */
  function MappingInsert(r: nat): (c: (int, int))
    requires r < 0x1_0000_0000
  {
    if r < SMALL_BLOCK then (0, r / (SMALL_BLOCK / MAX_SLI)) else Levels(r)
  }

  /** MAPPING_SEARCH: rounds a request up and names the first class to look in. */
  function MappingSearch(r: nat): (q: (nat, int, int))
    requires r < 0x8000_0000
  {
    if r < SMALL_BLOCK then (r, 0, r / (SMALL_BLOCK / MAX_SLI))
    else
      MsBitAtLeast7(r);
      StepBelow(r);
      SearchBy(r, Pow2(MsBit(r) - 5) - 1)
  }

  function SearchBy(r: nat, t: nat): (q: (nat, int, int))
    requires SMALL_BLOCK <= r + t < 0x1_0000_0000
  {
    (AndNot(r + t, t), Levels(r + t).0, Levels(r + t).1)
  }

  lemma MsBitAtLeast7(r: nat)
    requires SMALL_BLOCK <= r < 0x1_0000_0000
    ensures 7 <= MsBit(r) < 32 && Pow2(MsBit(r)) <= r < Pow2(MsBit(r) + 1)
  {
    MsBitBrackets(r);
    Pow2Values();
    if MsBit(r) < 7 {
      Pow2Mono(MsBit(r) + 1, 7);
      assert false;
    }
  }

  lemma StepBelow(r: nat)
    requires SMALL_BLOCK <= r < 0x8000_0000
    ensures 7 <= MsBit(r) && 32 * Pow2(MsBit(r) - 5) == Pow2(MsBit(r)) <= r
    ensures r + Pow2(MsBit(r) - 5) < 0x1_0000_0000
  {
    MsBitAtLeast7(r);
    Pow2Values();
    Pow2Add(5, MsBit(r) - 5);
  }

  /** The smallest size filed under class number `c` (first level times 32 plus second level). */
  function Lower(c: nat): nat {
    if c < MAX_SLI then 4 * c else (32 + c % 32) * Pow2(c / 32 + 1)
  }

  lemma LowerStep(c: nat)
    ensures Lower(c + 1) == Lower(c) + (if c < 32 then 4 else Pow2(c / 32 + 1)) > Lower(c)
  {
    assert Pow2(2) == 4;
    if c >= 32 {
      var p := Pow2(c / 32 + 1);
      if c % 32 == 31 {
        assert (c + 1) / 32 == c / 32 + 1 && (c + 1) % 32 == 0;
        assert Pow2(c / 32 + 2) == 2 * p;
      } else {
        assert (c + 1) / 32 == c / 32 && (c + 1) % 32 == c % 32 + 1;
        assert (33 + c % 32) * p == (32 + c % 32) * p + p;
      }
    } else if c == 31 {
      assert (32 + (c + 1) % 32) * Pow2((c + 1) / 32 + 1) == 32 * 4;
    }
  }

  lemma {:induction false} LowerMono(c: nat, d: nat)
    requires c <= d
    ensures Lower(c) <= Lower(d) && (c < d ==> Lower(c) < Lower(d))
    decreases d
  {
    if c < d {
      LowerMono(c, d - 1);
      LowerStep(d - 1);
    }
  }

  /** The class whose interval contains `r`, found by walking the intervals upwards. */
  function ClassFrom(r: nat, c: nat): (d: nat)
    requires c < CLASSES
    ensures c <= d < CLASSES
    decreases CLASSES - c
  {
    if c + 1 == CLASSES || r < Lower(c + 1) then c else ClassFrom(r, c + 1)
  }

  function Class(r: nat): (c: nat)
    ensures c < CLASSES
  {
    ClassFrom(r, 0)
  }

  lemma {:induction false} ClassFromInterval(r: nat, c: nat)
    requires c < CLASSES && Lower(c) <= r < LIMIT
    ensures Lower(ClassFrom(r, c)) <= r < Lower(ClassFrom(r, c) + 1)
    decreases CLASSES - c
  {
    if c + 1 == CLASSES {
      LastClass();
    } else if r >= Lower(c + 1) {
      ClassFromInterval(r, c + 1);
    }
  }

  lemma LastClass()
    ensures Lower(CLASSES) == LIMIT
  {
    Pow2Add(24, 1);
    Pow2Values();
  }

  lemma ClassInterval(r: nat)
    requires r < LIMIT
    ensures Lower(Class(r)) <= r < Lower(Class(r) + 1)
  {
    ClassFromInterval(r, 0);
  }

  lemma ClassUnique(r: nat, c: nat)
    requires r < LIMIT && Lower(c) <= r < Lower(c + 1)
    ensures c == Class(r)
  {
    ClassInterval(r);
    var d := Class(r);
    if c < d { LowerMono(c + 1, d); } else if d < c { LowerMono(d + 1, c); }
  }

  /** The bit arithmetic of MAPPING_INSERT computes the class, and its indices stay inside the 24 by 32 matrix. */
  lemma InsertComputesClass(r: nat)
    requires r < LIMIT
    ensures var (fl, sl) := MappingInsert(r);
            0 <= fl < REAL_FLI && 0 <= sl < MAX_SLI && Class(r) == fl * MAX_SLI + sl
  {
    var (fl, sl) := MappingInsert(r);
    if r >= SMALL_BLOCK {
      IntervalOf(r);
      MsBitBrackets(r);
      Pow2Values();
      if MsBit(r) >= 30 {
        Pow2Mono(30, MsBit(r));
        assert false;
      }
    }
    var c := fl * 32 + sl;
    assert c / 32 == fl && c % 32 == sl;
    LowerStep(c);
    ClassUnique(r, c);
  }

  lemma IntervalOf(r: nat)
    requires SMALL_BLOCK <= r < 0x1_0000_0000
    ensures var (fl, sl) := MappingInsert(r);
            1 <= fl && 0 <= sl < 32 && (32 + sl) * Pow2(fl + 1) <= r < (33 + sl) * Pow2(fl + 1)
  {
    MsBitAtLeast7(r);
    Pow2Values();
    var k := MsBit(r) - 5;
    var p := Pow2(k);
    Pow2Add(5, k);
    Pow2Add(6, k);
    DivRange(r, p, 32, 64);
  }

  function AdjustRequest(n: nat): nat {
    if n < MIN_BLOCK then MIN_BLOCK else RoundUpSize(n)
  }

  /** The first class at or after `c` all of whose sizes are at least `a`. */
  function FitFrom(a: nat, c: nat): (d: nat)
    requires c <= CLASSES
    ensures c <= d <= CLASSES && (d < CLASSES ==> a <= Lower(d))
    ensures forall e :: c <= e < d ==> Lower(e) < a
    decreases CLASSES - c
  {
    if c == CLASSES || a <= Lower(c) then c else FitFrom(a, c + 1)
  }

  /** What a request is rounded to, and the class the search starts from. */
  function Request(n: nat): (q: (nat, nat)) {
    var c := FitFrom(AdjustRequest(n), 0);
    (Lower(c), c)
  }

  /** Class (fl, sl), with lower bound `r`, is the first class all of whose sizes are at least `a`. */
  ghost predicate LeastFit(a: nat, r: int, fl: int, sl: int) {
    && 0 <= fl < REAL_FLI && 0 <= sl < MAX_SLI
    && MIN_BLOCK <= r < LIMIT && r % 16 == 0
    && r == Lower(fl * 32 + sl) && a <= r && 32 * (r - a) < a
    && (fl * 32 + sl > 0 ==> Lower(fl * 32 + sl - 1) < a)
  }

  lemma AdjustedBounds(n: nat)
    requires n <= MAX_REQUEST
    ensures MIN_BLOCK <= AdjustRequest(n) <= MAX_REQUEST && AdjustRequest(n) % 16 == 0
  {
    RoundSizes(n);
    MultipleAbove(n, RoundUpSize(n));
  }

  lemma MultipleAbove(n: nat, u: nat)
    requires n <= MAX_REQUEST && u % 16 == 0 && n <= u < n + 16
    ensures u <= MAX_REQUEST && (n >= MIN_BLOCK ==> u >= MIN_BLOCK)
  {
  }

  /** The bit arithmetic of MAPPING_SEARCH picks the first class all of whose blocks are large enough, and
      rounds the request to that class's lower bound. */
  lemma SearchComputesRequest(n: nat)
    requires n <= MAX_REQUEST
    ensures AdjustRequest(n) < 0x8000_0000
    ensures var (r, fl, sl) := MappingSearch(AdjustRequest(n));
            LeastFit(AdjustRequest(n), r, fl, sl) && Request(n) == (r, fl * MAX_SLI + sl)
  {
    AdjustedBounds(n);
    var a := AdjustRequest(n);
    SearchFits(a);
    var (r, fl, sl) := MappingSearch(a);
    LeastFitUnique(a, r, fl, sl);
  }

  lemma SearchFits(a: nat)
    requires MIN_BLOCK <= a <= MAX_REQUEST && a % 16 == 0
    ensures var (r, fl, sl) := MappingSearch(a);
            LeastFit(a, r, fl, sl)
  {
    if a < SMALL_BLOCK { SearchSmall(a); } else { SearchLarge(a); }
  }

  lemma SearchSmall(a: nat)
    requires MIN_BLOCK <= a < SMALL_BLOCK && a % 16 == 0
    ensures var (r, fl, sl) := MappingSearch(a);
            LeastFit(a, r, fl, sl)
  {
  }

  /** A request is aligned by less than 16 bytes and then rounded by less than 1/32 of the aligned size. */
  lemma RequestBounds(n: nat)
    requires n <= MAX_REQUEST
    ensures RequestOk(n)
  {
    RoundSizes(n);
    SearchComputesRequest(n);
  }

  /** The size of the rounded request. */
  ghost predicate RequestOk(n: nat) {
    && n <= AdjustRequest(n) <= Request(n).0 && AdjustRequest(n) < (if n < 16 then 17 else n + 16)
    && MIN_BLOCK <= Request(n).0 < LIMIT && Request(n).0 % 16 == 0 && Request(n).1 < CLASSES
    && 32 * (Request(n).0 - AdjustRequest(n)) < AdjustRequest(n)
  }

  lemma LeastFitUnique(a: nat, r: int, fl: int, sl: int)
    requires LeastFit(a, r, fl, sl)
    ensures FitFrom(a, 0) == fl * 32 + sl && Lower(FitFrom(a, 0)) == r
  {
    FitUnique(a, 0, fl * 32 + sl);
  }

  lemma FitUnique(a: nat, from: nat, c: nat)
    requires from <= c < CLASSES && a <= Lower(c) && (c > 0 ==> Lower(c - 1) < a)
    ensures FitFrom(a, from) == c
  {
    var d := FitFrom(a, from);
    if d < c {
      BelowCell(a, d, c - 1);
    }
  }

  lemma BelowCell(a: nat, d: nat, c: nat)
    requires d <= c && Lower(c) < a
    ensures Lower(d) < a
  {
    LowerMono(d, c);
  }

  /** Blocks of the starting class or a later one fit the request; blocks of earlier classes do not. */
  lemma ClassFits(n: nat, size: nat)
    requires n <= MAX_REQUEST && size < LIMIT
    ensures Request(n).1 <= Class(size) <==> Request(n).0 <= size
  {
    ClassInterval(size);
    var c := Request(n).1;
    if c <= Class(size) {
      LowerMono(c, Class(size));
    } else {
      LowerMono(Class(size) + 1, c);
    }
  }

  lemma SearchLarge(a: nat)
    requires SMALL_BLOCK <= a <= MAX_REQUEST && a % 16 == 0
    ensures var (r, fl, sl) := MappingSearch(a);
            LeastFit(a, r, fl, sl)
  {
    var k, x := SearchArgument(a);
    SearchValue(a, k, x);
    FitOf(a, k, x, x - x % Pow2(k), MappingInsert(x).0, MappingInsert(x).1);
  }

  lemma FitOf(a: nat, k: nat, x: nat, r: nat, fl: int, sl: int)
    requires SMALL_BLOCK <= a <= MAX_REQUEST && a % 16 == 0 && k >= 2 && 32 * Pow2(k) <= a < 64 * Pow2(k)
    requires x == a + (Pow2(k) - 1) < LIMIT && r == x - x % Pow2(k) && (fl, sl) == MappingInsert(x)
    ensures LeastFit(a, r, fl, sl)
  {
    InsertComputesClass(x);
    CellOf(a, k, x, fl, sl);
  }

  lemma SearchArgument(a: nat) returns (k: nat, x: nat)
    requires SMALL_BLOCK <= a <= MAX_REQUEST
    ensures k >= 2 && MsBit(a) == k + 5 && 32 * Pow2(k) <= a < 64 * Pow2(k) && x == a + (Pow2(k) - 1) < LIMIT
  {
    StepBelow(a);
    MsBitAtLeast7(a);
    k := MsBit(a) - 5;
    x := a + (Pow2(k) - 1);
    BelowLimit(a);
    assert a < 64 * Pow2(k) by { Pow2Add(6, k); assert Pow2(6) == 64; }
  }

  /** The rounded request is filed where a block of its size would be. */
  lemma SearchForm(a: nat, t: nat, x: nat, r: nat)
    requires SMALL_BLOCK <= a <= MAX_REQUEST && MsBit(a) >= 5 && t == Pow2(MsBit(a) - 5) - 1
    requires x == a + t < LIMIT && r == AndNot(x, t)
    ensures MappingSearch(a) == (r, MappingInsert(x).0, MappingInsert(x).1)
  {
    assert MappingSearch(a) == SearchBy(a, t);
    assert SearchBy(a, t) == (r, Levels(x).0, Levels(x).1);
  }

  lemma SearchValue(a: nat, k: nat, x: nat)
    requires SMALL_BLOCK <= a <= MAX_REQUEST && MsBit(a) == k + 5 && x == a + (Pow2(k) - 1) < LIMIT
    ensures MappingSearch(a) == (x - x % Pow2(k), MappingInsert(x).0, MappingInsert(x).1)
  {
    AndNotLow(x, k);
    SearchForm(a, Pow2(k) - 1, x, x - x % Pow2(k));
  }

  lemma CellOf(a: nat, k: nat, x: nat, fl: nat, sl: nat)
    requires k >= 2 && 32 * Pow2(k) <= a < 64 * Pow2(k) && x == a + (Pow2(k) - 1) < LIMIT && a % 16 == 0
    requires SMALL_BLOCK <= x && (fl, sl) == MappingInsert(x) && sl < 32
    ensures var r := x - x % Pow2(k);
            var c := fl * 32 + sl;
            c > 0 && r == Lower(c) && a <= r < a + Pow2(k) && r % 16 == 0 && Lower(c - 1) < a
  {
    MsBitAtLeast7(x);
    SearchCell(a, k, x, MsBit(x), fl, sl);
  }

  lemma SearchCell(a: nat, k: nat, x: nat, m: nat, fl: nat, sl: nat)
    requires k >= 2 && 32 * Pow2(k) <= a < 64 * Pow2(k) && x == a + (Pow2(k) - 1) && a % 16 == 0
    requires Pow2(m) <= x < Pow2(m + 1) && m >= 7 && fl == m - 6 && sl == x / Pow2(m - 5) - 32 && sl < 32
    ensures var r := x - x % Pow2(k);
            var c := fl * 32 + sl;
            c > 0 && r == Lower(c) && a <= r < a + Pow2(k) && r % 16 == 0 && Lower(c - 1) < a
  {
    var c := fl * 32 + sl;
    var q := CellFloor(a, Pow2(k), x);
    var r := x - x % Pow2(k);
    RoundedIsLower(a, k, x, m, fl, sl, c, q, r);
    PredecessorStep(c, k, a, r);
    SixteenDivides(q, k, a, r);
  }

  /** Rounding stays in the row of the request or crosses to the first cell of the next one. */
  lemma RoundedIsLower(a: nat, k: nat, x: nat, m: nat, fl: nat, sl: nat, c: nat, q: nat, r: nat)
    requires k >= 2 && 32 * Pow2(k) <= a < 64 * Pow2(k) && x == a + (Pow2(k) - 1)
    requires Pow2(m) <= x < Pow2(m + 1) && m >= 7 && fl == m - 6 && sl == x / Pow2(m - 5) - 32 && sl < 32
    requires c == fl * 32 + sl && q == x / Pow2(k) && r == x - x % Pow2(k) == q * Pow2(k)
    ensures r == Lower(c) && 32 <= c && (c / 32 + 1 == k || (c / 32 == k && c % 32 == 0))
  {
    assert c / 32 == fl && c % 32 == sl;
    CrossAtMostOne(x, k, m);
    if m == k + 6 {
      SixtyFour(k);
      assert Pow2(k + 1) == 2 * Pow2(k);
      CrossedCell(a, Pow2(k), x);
    }
  }

  lemma SixtyFour(k: nat)
    ensures Pow2(k + 6) == 64 * Pow2(k)
  {
    Pow2Add(6, k);
    assert Pow2(6) == 64;
  }

  lemma CellFloor(a: nat, p: nat, x: nat) returns (q: nat)
    requires p > 0 && x == a + (p - 1)
    ensures q == x / p && x - x % p == q * p && a <= x - x % p < a + p
  {
    q := x / p;
    assert x == q * p + x % p;
  }

  lemma CrossedCell(a: nat, p: nat, x: nat)
    requires p > 0 && x == a + (p - 1) && a < 64 * p <= x
    ensures x - x % p == 64 * p && x / (2 * p) == 32
  {
    ModUnique(x, p, 64, x - 64 * p);
    ModUnique(x, 2 * p, 32, x - 64 * p);
  }

  lemma CrossAtMostOne(x: nat, k: nat, m: nat)
    requires Pow2(m) <= x < Pow2(m + 1) && 32 * Pow2(k) <= x < 65 * Pow2(k)
    ensures m == k + 5 || m == k + 6
  {
    Pow2Values();
    Pow2Add(5, k);
    Pow2Add(7, k);
    if m < k + 5 { Pow2Mono(m + 1, k + 5); }
    if m > k + 6 { Pow2Mono(k + 7, m); }
  }

  lemma PredecessorStep(c: nat, k: nat, a: nat, r: nat)
    requires k >= 2 && 32 <= c && r == Lower(c) && 32 * Pow2(k) <= a <= r < a + Pow2(k)
    requires c / 32 + 1 == k || (c / 32 == k && c % 32 == 0)
    ensures Lower(c - 1) < a
  {
    LowerStep(c - 1);
    assert Pow2(2) == 4;
    if c / 32 == k {
      assert (c - 1) / 32 == k - 1;
    } else if c % 32 == 0 {
      assert r == 32 * Pow2(k);
    } else {
      assert (c - 1) / 32 == c / 32;
    }
  }

  lemma SixteenDivides(q: nat, k: nat, a: nat, r: nat)
    requires r == q * Pow2(k) && a <= r < a + Pow2(k) && a % 16 == 0
    ensures r % 16 == 0
  {
    if k >= 4 {
      Sixteenfold(k);
      MultipleOf16(q, Pow2(k - 4), Pow2(k), r);
    } else {
      PowDivides8(k, q, a, r);
    }
  }

  lemma Sixteenfold(k: nat)
    requires k >= 4
    ensures Pow2(k) == 16 * Pow2(k - 4)
  {
    assert Pow2(k) == 2 * Pow2(k - 1) && Pow2(k - 1) == 2 * Pow2(k - 2);
    assert Pow2(k - 2) == 2 * Pow2(k - 3) && Pow2(k - 3) == 2 * Pow2(k - 4);
  }

  lemma MultipleOf16(q: nat, p: nat, n: nat, r: nat)
    requires n == 16 * p && r == q * n
    ensures r % 16 == 0
  {
    var s := q * p;
    assert r == 16 * s;
  }

  lemma PowDivides8(k: nat, q: nat, a: nat, r: nat)
    requires k <= 3 && r == q * Pow2(k) && a <= r < a + Pow2(k) && a % 16 == 0
    ensures r == a
  {
    SmallPow(k);
    OnlyMultiple(q, Pow2(k), a, r);
  }

  lemma OnlyMultiple(q: nat, p: nat, a: nat, r: nat)
    requires (p == 1 || p == 2 || p == 4 || p == 8) && r == q * p && a <= r < a + p && a % 16 == 0
    ensures r == a
  {
    if p == 1 {
    } else if p == 2 {
      assert r == q * 2;
    } else if p == 4 {
      assert r == q * 4;
    } else {
      assert r == q * 8;
    }
  }

  lemma SmallPow(k: nat)
    requires k <= 3
    ensures Pow2(k) == if k == 0 then 1 else if k == 1 then 2 else if k == 2 then 4 else 8
  {
    assert Pow2(0) == 1 && Pow2(1) == 2 && Pow2(2) == 4 && Pow2(3) == 8;
  }

  lemma BelowLimit(a: nat)
    requires SMALL_BLOCK <= a <= MAX_REQUEST
    ensures MsBit(a) >= 7 && a + Pow2(MsBit(a) - 5) <= LIMIT
  {
    StepBelow(a);
    MsBitAtLeast7(a);
    Pow2Values();
    if MsBit(a) >= 30 { Pow2Mono(30, MsBit(a)); }
    Pow2Mono(MsBit(a) - 5, 24);
  }

  /** Beyond this bound the first-level index leaves the matrix: the bound on requests is the exact one. */
  lemma RequestBoundIsExact(n: nat)
    requires n <= 0x7FFF_FFF0
    ensures AdjustRequest(n) < 0x8000_0000
    ensures MappingSearch(AdjustRequest(n)).1 < REAL_FLI <==> n <= MAX_REQUEST
  {
    RoundSizes(n);
    if n <= MAX_REQUEST {
      SearchComputesRequest(n);
    } else {
      var a := AdjustRequest(n);
      StepBelow(a);
      MsBitAtLeast7(a);
      Pow2Values();
      var x := a + (Pow2(MsBit(a) - 5) - 1);
      MsBitAtLeast7(x);
      assert Pow2(29) == 0x2000_0000 by { assert Pow2(30) == 2 * Pow2(29); }
      AtLeast(a, 29);
      Pow2Mono(24, MsBit(a) - 5);
      AtLeast(x, 30);
    }
  }

  /** One byte more than the bound: the search would start in the row behind the last one. */
  lemma RequestBehindMatrix()
    ensures AdjustRequest(MAX_REQUEST + 1) < 0x8000_0000
    ensures MappingSearch(AdjustRequest(MAX_REQUEST + 1)).1 >= REAL_FLI
  {
    RequestBoundIsExact(MAX_REQUEST + 1);
  }

  lemma AtLeast(x: nat, k: nat)
    requires Pow2(k) <= x < 0x1_0000_0000
    ensures k <= MsBit(x)
  {
    MsBitBrackets(x);
    if MsBit(x) < k { Pow2Mono(MsBit(x) + 1, k); }
  }
}
