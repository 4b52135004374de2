/** The page allocator: buckets of power-of-two blocks on top of the free pages of one or more extents. */
module BsdHeap {
  import opened Words
  import opened BsdExtent
  import opened BsdBooks
  import opened Wrappers
  import opened Sums

  const RTHEAP_PARAM: int := -2

  /** The exponent of the smallest bucket size, 16 bytes or more, that holds `size`. */
  function LogFor(size: nat, l: nat): (r: nat)
    ensures r >= l && Pow2(r) >= size
    ensures forall k :: l <= k < r ==> Pow2(k) < size
    decreases if Pow2(l) >= size then 0 else size - Pow2(l)
  {
    if Pow2(l) >= size then l else LogFor(size, l + 1)
  }

  function PageCount(size: nat, shift: nat): nat {
    (size + Pow2(shift) - 1) / Pow2(shift)
  }

  /** The request rounded to 16 bytes, or to pages beyond one page. */
  function Rounded(size: nat, shift: nat): nat {
    if size <= Pow2(shift) then (size + 15) / 16 * 16 else PageCount(size, shift) * Pow2(shift)
  }

  /** Requests of up to two pages come from the buckets. */
  predicate Bucketed(size: nat, shift: nat) {
    Rounded(size, shift) <= 2 * Pow2(shift)
  }

  function LogOf(size: nat, shift: nat): nat {
    LogFor(Rounded(size, shift), MINLOG2)
  }

  /** The size of the block that a request is given. */
  function Granted(size: nat, shift: nat): nat {
    if Bucketed(size, shift) then Pow2(LogOf(size, shift)) else Rounded(size, shift)
  }

  /** The free pages in a row that a request needs when no block is at hand. */
  function Needed(size: nat, shift: nat): nat {
    if !Bucketed(size, shift) then PageCount(size, shift) else if LogOf(size, shift) > shift then 2 else 1
  }

  /** A block is as large as the request; in the buckets it is the smallest that is. */
  lemma GrantedFits(size: nat, shift: nat)
    requires size > 0 && shift >= MINLOG2
    ensures size <= Granted(size, shift) && Needed(size, shift) >= 1
    ensures Bucketed(size, shift) ==> MINLOG2 <= LogOf(size, shift) <= shift + 1
    ensures !Bucketed(size, shift) ==> Granted(size, shift) == PageCount(size, shift) * Pow2(shift) < size + Pow2(shift)
  {
    RoundedFits(size, shift, Pow2(shift));
    if Bucketed(size, shift) { LogFits(Rounded(size, shift), shift); }
  }

  lemma SmallGrant(size: nat, shift: nat, l: nat)
    requires size > 0 && shift >= MINLOG2 && Bucketed(size, shift) && l == LogFor(Rounded(size, shift), MINLOG2)
    ensures l == LogOf(size, shift) && MINLOG2 <= l <= shift + 1
    ensures Granted(size, shift) == Pow2(l) && Needed(size, shift) == if l > shift then 2 else 1
  {
    GrantedFits(size, shift);
  }

  /** Up to two pages, the block is the smallest power of two, from 16 bytes up, that holds the request; beyond that, it
      is the smallest number of pages that does. */
  lemma GrantedLeast(size: nat, shift: nat)
    requires size > 0 && shift >= MINLOG2
    ensures Bucketed(size, shift) <==> size <= 2 * Pow2(shift)
    ensures size <= 2 * Pow2(shift) ==> exists k: nat :: k >= MINLOG2 && Granted(size, shift) == Pow2(k)
    ensures size <= 2 * Pow2(shift) ==> forall k: nat :: k >= MINLOG2 && Pow2(k) >= size ==> Granted(size, shift) <= Pow2(k)
    ensures size <= 2 * Pow2(shift) ==> Granted(size, shift) == 16 || Granted(size, shift) < 2 * size
    ensures size > 2 * Pow2(shift) ==> exists n: nat :: Granted(size, shift) == n * Pow2(shift)
    ensures size > 2 * Pow2(shift) ==> size <= Granted(size, shift) < size + Pow2(shift)
  {
    GrantedFits(size, shift);
    BucketedIff(size, shift, Pow2(shift));
    if size <= 2 * Pow2(shift) { LeastPower(size, shift, LogOf(size, shift)); }
  }

  lemma LeastPower(size: nat, shift: nat, l: nat)
    requires 0 < size <= 2 * Pow2(shift) && shift >= MINLOG2 && l == LogOf(size, shift)
    ensures l >= MINLOG2 && forall k: nat :: k >= MINLOG2 && Pow2(k) >= size ==> Pow2(l) <= Pow2(k)
    ensures Pow2(l) == 16 || Pow2(l) < 2 * size
  {
    SixteenIsPower();
    forall k: nat | k >= MINLOG2 && Pow2(k) >= size
      ensures Pow2(l) <= Pow2(k)
    {
      RoundedBelow(size, shift, k);
      assert k >= l;
      Pow2Mono(l, k);
    }
    if l > MINLOG2 { assert Pow2(l) == 2 * Pow2(l - 1) && Pow2(l - 1) < size; }
  }

  /** A power of two that holds the request holds the rounded request. */
  lemma RoundedBelow(size: nat, shift: nat, k: nat)
    requires 0 < size <= 2 * Pow2(shift) && shift >= MINLOG2 && k >= MINLOG2 && Pow2(k) >= size
    ensures Rounded(size, shift) <= Pow2(k)
  {
    SixteenIsPower();
    if size <= Pow2(shift) {
      Pow2Add(MINLOG2, k - MINLOG2);
      RoundToSixteen(size, Pow2(k), Pow2(k - MINLOG2));
    } else {
      if k <= shift { Pow2Mono(k, shift); } else { Pow2Mono(shift + 1, k); }
      RoundToPages(size, Pow2(shift));
    }
  }

  lemma RoundToSixteen(size: nat, u: nat, q: nat)
    requires u == 16 * q && size <= u
    ensures (size + 15) / 16 * 16 <= u
  {
  }

  lemma RoundToPages(size: nat, p: nat)
    requires 0 < p < size <= 2 * p
    ensures (size + p - 1) / p * p == 2 * p
  {
    ModUnique(size + p - 1, p, 2, size - 1 - p);
  }

  lemma BucketedIff(size: nat, shift: nat, p: nat)
    requires size > 0 && shift >= MINLOG2 && p == Pow2(shift)
    ensures Bucketed(size, shift) <==> size <= 2 * p
  {
    RoundedFits(size, shift, p);
    if size <= 2 * p { Pow2Mono(MINLOG2, shift + 1); RoundedBelow(size, shift, shift + 1); }
  }

  lemma RoundedFits(size: nat, shift: nat, p: nat)
    requires size > 0 && shift >= MINLOG2 && p == Pow2(shift)
    ensures size <= Rounded(size, shift)
    ensures Rounded(size, shift) > 2 * p ==> PageCount(size, shift) >= 1
    ensures Rounded(size, shift) > 2 * p ==> Rounded(size, shift) == PageCount(size, shift) * p < size + p
  {
    SixteenIsPower();
    Pow2Mono(MINLOG2, shift);
    if size > p { CeilDiv(size, p); }
  }

  lemma LogFits(r: nat, shift: nat)
    requires shift >= MINLOG2 && r <= 2 * Pow2(shift)
    ensures MINLOG2 <= LogFor(r, MINLOG2) <= shift + 1
  {
    assert Pow2(shift + 1) == 2 * Pow2(shift);
  }

  lemma CeilDiv(size: nat, p: nat)
    requires size > 0 && p > 0
    ensures var n := (size + p - 1) / p; n >= 1 && size <= n * p < size + p
  {
    var n := (size + p - 1) / p;
    var r := (size + p - 1) % p;
    assert size + p - 1 == n * p + r;
    if n <= 0 { MulMono(n, 0, p); }
  }

  /** No extent has `n` free pages in a row. */
  ghost predicate NoRun(maps: seq<seq<nat>>, n: nat) {
    forall e, p {:trigger FreeRun(maps[e], p, n)} :: 0 <= e < |maps| && 0 <= p < |maps[e]| ==> !FreeRun(maps[e], p, n)
  }

  /** The first run of `n` free pages: in the first extent that has one, and the first there. */
  ghost predicate FirstFit(maps: seq<seq<nat>>, n: nat, e: nat, p: nat) {
    && e < |maps| && p < |maps[e]| && FreeRun(maps[e], p, n)
    && (forall q {:trigger FreeRun(maps[e], q, n)} :: 0 <= q < p ==> !FreeRun(maps[e], q, n))
    && (forall i, q {:trigger FreeRun(maps[i], q, n)} :: 0 <= i < e && 0 <= q < |maps[i]| ==> !FreeRun(maps[i], q, n))
  }

  /** The first run of `n` free pages became the block or the bucket page `a`, and no other page changed. */
  ghost predicate TakenFirst(maps: seq<seq<nat>>, maps': seq<seq<nat>>, n: nat, code: nat, a: Addr) {
    && n >= 1 && FirstFit(maps, n, a.ext, a.page) && a.off == 0
    && maps' == maps[a.ext := Carve(maps[a.ext], a.page, n, code)]
  }

  /** The first block of bucket `l` leaves it. */
  ghost predicate Popped(b: seq<seq<Addr>>, b': seq<seq<Addr>>, l: nat, a: Addr) {
    l < |b| && b[l] != [] && a == b[l][0] && b' == b[l := b[l][1..]]
  }

  /** Bucket `l`, which was empty, has the blocks of the page of `a` behind `a`, in address order. */
  ghost predicate Stocked(b: seq<seq<Addr>>, b': seq<seq<Addr>>, l: nat, shift: nat, a: Addr) {
    && l < |b| == |b'| && b[l] == [] && b' == b[l := b'[l]]
    && Splits([a] + b'[l], a.ext, a.page, shift, l + MINLOG2)
  }

  /** Block `a` is at the front of bucket `l` again. */
  ghost predicate Pushed(b: seq<seq<Addr>>, b': seq<seq<Addr>>, l: int, a: Addr) {
    0 <= l < |b| && b' == b[l := [a] + b[l]]
  }

  /** The pages of the block at page `p` are free again, and no other page changed. */
  ghost predicate PagesBack(maps: seq<seq<nat>>, maps': seq<seq<nat>>, e: nat, p: nat) {
    && e < |maps| == |maps'| && p < |maps[e]| && maps' == maps[e := maps'[e]] && |maps'[e]| == |maps[e]|
    && forall q {:trigger maps'[e][q]} :: 0 <= q < |maps[e]| ==>
         maps'[e][q] == if p <= q < p + Len(maps[e], p) then PFREE else maps[e][q]
  }

  lemma UncarvedBack(maps: seq<seq<nat>>, maps': seq<seq<nat>>, e: nat, p: nat, n: nat)
    requires e < |maps| && p < |maps[e]| && n == Len(maps[e], p) && maps' == maps[e := Uncarve(maps[e], p, n)]
    ensures PagesBack(maps, maps', e, p)
  {
  }

  lemma FirstOfPage(chain: seq<Addr>, e: nat, p: nat, shift: nat, code: nat)
    requires Splits(chain, e, p, shift, code)
    ensures chain != [] && chain[0] == Addr(e, p, 0) && chain == [chain[0]] + chain[1..]
  {
    ZeroMod(Pow2(code));
    assert Addr(e, p, 0) in chain;
    assert chain[0] in chain;
  }

  lemma AllFreeBooks(maps: seq<seq<nat>>, shift: nat, buckets: seq<seq<Addr>>)
    requires MINLOG2 <= shift <= 22 && |buckets| == NBUCKETS && forall l :: 0 <= l < |buckets| ==> buckets[l] == []
    requires forall e, p {:trigger maps[e][p]} :: 0 <= e < |maps| && 0 <= p < |maps[e]| ==> maps[e][p] == PFREE
    ensures BooksOk(maps, shift, buckets, map[]) && forall a :: !Carved(maps, shift, a)
  {
    forall e | 0 <= e < |maps|
      ensures MapOk(maps[e], shift)
    {
      forall p | 0 <= p < |maps[e]|
        ensures PageOk(maps[e], shift, p)
      {
        assert maps[e][p] == PFREE;
      }
    }
    forall a
      ensures !Carved(maps, shift, a)
    {
      if Inside(maps, shift, a) { assert maps[a.ext][a.page] == PFREE; }
    }
  }

  class Heap {
    const shift: nat
    const npages: nat
    const extents: seq<Extent>
    var buckets: seq<seq<Addr>>
    var ubytes: nat
    ghost var live: map<Addr, nat>

    ghost function Footprint(): set<object> {
      (set x: Extent | x in extents :: x as object) + (set x: Extent | x in extents :: x.pagemap as object)
        + (set x: Extent | x in extents :: x.link as object)
    }

    /** The extents share nothing. */
    ghost predicate Apart() {
      forall i, j :: 0 <= i < j < |extents| ==>
        extents[i] != extents[j] && extents[i].pagemap != extents[j].pagemap && extents[i].link != extents[j].link
    }

    ghost predicate ExtentsOk()
      reads Footprint()
    {
      forall i :: 0 <= i < |extents| ==> extents[i].Valid() && extents[i].link.Length == npages
    }

    ghost function Maps(): (m: seq<seq<nat>>)
      requires ExtentsOk()
      reads Footprint()
      ensures |m| == |extents|
      ensures forall i :: 0 <= i < |extents| ==> m[i] == extents[i].Map() && |m[i]| == npages
    {
      seq(|extents|, (i: int) requires 0 <= i < |extents| && ExtentsOk() reads Footprint() => extents[i].Map())
    }

    ghost predicate Valid()
      reads this, Footprint()
    {
      && Apart() && ExtentsOk() && BooksOk(Maps(), shift, buckets, live) && ubytes == Total(live)
    }

    /** A heap of `count` extents, all pages free. */
    constructor (shift: nat, npages: nat, count: nat)
      requires MINLOG2 <= shift <= 22 && npages >= 1
      ensures Valid() && live == map[] && ubytes == 0 && this.shift == shift && this.npages == npages && |extents| == count
      ensures forall a :: !Carved(Maps(), shift, a)
    {
      this.shift, this.npages := shift, npages;
      var all: seq<Extent> := [];
      while |all| < count
        invariant |all| <= count
        invariant forall i :: 0 <= i < |all| ==>
                    all[i].Valid() && all[i].link.Length == npages && fresh(all[i]) && fresh(all[i].pagemap) && fresh(all[i].link)
        invariant forall i, p {:trigger all[i].Map()[p]} :: 0 <= i < |all| && 0 <= p < npages ==> all[i].Map()[p] == PFREE
        invariant forall i, j :: 0 <= i < j < |all| ==>
                    all[i] != all[j] && all[i].pagemap != all[j].pagemap && all[i].link != all[j].link
      {
        var x := new Extent(npages);
        all := all + [x];
      }
      extents := all;
      buckets := seq(NBUCKETS, i => []);
      ubytes, live := 0, map[];
      new;
      AllFreeBooks(Maps(), shift, buckets);
    }

    predicate EmptyBucket(log2size: nat)
      reads this
    {
      MINLOG2 <= log2size < |buckets| + MINLOG2 && buckets[log2size - MINLOG2] == []
    }

    /** Finds pages in the first extent that has them. */
    method GetFreeRange(n: nat, code: nat, ghost maps: seq<seq<nat>>) returns (found: bool, e: nat, head: nat)
      requires Apart() && ExtentsOk() && maps == Maps() && n >= 1 && code > PCONT
      modifies Footprint()
      ensures ExtentsOk()
      ensures !found ==> Maps() == maps && NoRun(maps, n)
      ensures found ==> FirstFit(maps, n, e, head) && Maps() == maps[e := Carve(maps[e], head, n, code)]
    {
      e := 0;
      while e < |extents|
        invariant e <= |extents| && ExtentsOk() && Maps() == maps
        invariant forall i, p {:trigger FreeRun(maps[i], p, n)} :: 0 <= i < e && 0 <= p < npages ==> !FreeRun(maps[i], p, n)
      {
        var h := extents[e].TakeRange(n, code);
        assert forall i :: 0 <= i < |extents| && i != e ==> extents[i].Valid();
        if h >= 0 {
          return true, e, h;
        }
        e := e + 1;
      }
      return false, 0, 0;
    }

    /** The bucket size and its exponent, by doubling. */
    method FindLog(size: nat) returns (bsize: nat, log2size: nat)
      ensures log2size == LogFor(size, MINLOG2) && bsize == Pow2(log2size)
    {
      bsize, log2size := 16, MINLOG2;
      SixteenIsPower();
      while bsize < size
        invariant bsize == Pow2(log2size) && LogFor(size, log2size) == LogFor(size, MINLOG2)
        decreases size - bsize
      {
        bsize := bsize * 2;
        log2size := log2size + 1;
      }
    }

    /** The blocks of a page that was just taken. */
    method SplitPage(e: nat, head: nat, bsize: nat, log2size: nat) returns (chain: seq<Addr>)
      requires bsize == Pow2(log2size)
      ensures Splits(chain, e, head, shift, log2size)
    {
      chain := [];
      var psz := Pow2(shift);
      if bsize < psz {
        PowerDivides(log2size, shift);
        var block: nat := 0;
        var eblock: nat := psz - bsize;
        while block < eblock
          invariant block <= eblock && block % bsize == 0 && SplitUpTo(chain, e, head, block, bsize)
          decreases eblock - block
        {
          MultiplesApart(block, eblock, bsize);
          OneMoreBlock(chain, e, head, block, bsize);
          chain := chain + [Addr(e, head, block)];
          block := block + bsize;
        }
        OneMoreBlock(chain, e, head, block, bsize);
        chain := chain + [Addr(e, head, eblock)];
      } else {
        chain := [Addr(e, head, 0)];
        OnlyZero(psz, bsize);
      }
    }

    /** Allocates from the bucket of the size, or pages for larger requests. */
    method RtheapAlloc(size: nat) returns (r: Option<Addr>)
      requires Valid()
      modifies this`buckets, this`ubytes, this`live, Footprint()
      ensures Valid()
      ensures r.Some? ==> size > 0 && r.value !in old(live) && live == old(live)[r.value := Granted(size, shift)]
      ensures r.Some? && Bucketed(size, shift) && !old(EmptyBucket(LogOf(size, shift))) ==>
                Popped(old(buckets), buckets, LogOf(size, shift) - MINLOG2, r.value) && Maps() == old(Maps())
      ensures r.Some? && Bucketed(size, shift) && old(EmptyBucket(LogOf(size, shift))) ==>
                && TakenFirst(old(Maps()), Maps(), Needed(size, shift), LogOf(size, shift), r.value)
                && Stocked(old(buckets), buckets, LogOf(size, shift) - MINLOG2, shift, r.value)
      ensures r.Some? && !Bucketed(size, shift) ==>
                TakenFirst(old(Maps()), Maps(), Needed(size, shift), PLIST, r.value) && buckets == old(buckets)
      ensures r.None? ==> live == old(live) && buckets == old(buckets) && Maps() == old(Maps())
      ensures r.None? ==>
                || size == 0
                || (!Bucketed(size, shift) && Rounded(size, shift) > npages * Pow2(shift))
                || (NoRun(Maps(), Needed(size, shift)) && (Bucketed(size, shift) ==> EmptyBucket(LogOf(size, shift))))
    {
      if size == 0 {
        return None;
      }
      if Bucketed(size, shift) {
        r := AllocSmall(size);
      } else {
        r := AllocLarge(size);
      }
    }

    method AllocSmall(size: nat) returns (r: Option<Addr>)
      requires Valid() && size > 0 && Bucketed(size, shift)
      modifies this`buckets, this`ubytes, this`live, Footprint()
      ensures Valid()
      ensures r.Some? ==> r.value !in old(live) && live == old(live)[r.value := Granted(size, shift)]
      ensures r.Some? && !old(EmptyBucket(LogOf(size, shift))) ==>
                Popped(old(buckets), buckets, LogOf(size, shift) - MINLOG2, r.value) && Maps() == old(Maps())
      ensures r.Some? && old(EmptyBucket(LogOf(size, shift))) ==>
                && TakenFirst(old(Maps()), Maps(), Needed(size, shift), LogOf(size, shift), r.value)
                && Stocked(old(buckets), buckets, LogOf(size, shift) - MINLOG2, shift, r.value)
      ensures r.None? ==> live == old(live) && buckets == old(buckets) && Maps() == old(Maps())
      ensures r.None? ==> NoRun(Maps(), Needed(size, shift)) && EmptyBucket(LogOf(size, shift))
    {
      var bsize, log2size := FindLog(Rounded(size, shift));
      SmallGrant(size, shift, log2size);
      r := AllocBlock(bsize, log2size);
    }

    method AllocLarge(size: nat) returns (r: Option<Addr>)
      requires Valid() && size > 0 && !Bucketed(size, shift)
      modifies this`ubytes, this`live, Footprint()
      ensures Valid() && buckets == old(buckets)
      ensures r.Some? ==> r.value !in old(live) && live == old(live)[r.value := Granted(size, shift)]
      ensures r.Some? ==> TakenFirst(old(Maps()), Maps(), Needed(size, shift), PLIST, r.value)
      ensures r.None? ==> live == old(live) && Maps() == old(Maps())
      ensures r.None? ==> Rounded(size, shift) > npages * Pow2(shift) || NoRun(Maps(), Needed(size, shift))
    {
      GrantedFits(size, shift);
      if Rounded(size, shift) > npages * Pow2(shift) {
        return None;
      }
      r := TakePages(PageCount(size, shift), Rounded(size, shift));
    }

    /** A block from its bucket, which is filled first when it is empty. */
    method AllocBlock(bsize: nat, log2size: nat) returns (r: Option<Addr>)
      requires Valid() && MINLOG2 <= log2size <= shift + 1 && bsize == Pow2(log2size)
      modifies this`buckets, this`ubytes, this`live, Footprint()
      ensures Valid()
      ensures r.Some? ==> r.value !in old(live) && live == old(live)[r.value := bsize]
      ensures r.Some? && !old(EmptyBucket(log2size)) ==>
                Popped(old(buckets), buckets, log2size - MINLOG2, r.value) && Maps() == old(Maps())
      ensures r.Some? && old(EmptyBucket(log2size)) ==>
                && TakenFirst(old(Maps()), Maps(), if log2size > shift then 2 else 1, log2size, r.value)
                && Stocked(old(buckets), buckets, log2size - MINLOG2, shift, r.value)
      ensures r.None? ==> live == old(live) && buckets == old(buckets) && Maps() == old(Maps())
      ensures r.None? ==> NoRun(Maps(), if log2size > shift then 2 else 1) && EmptyBucket(log2size)
    {
      ghost var b, maps, e: nat, head: nat := buckets, Maps(), 0, 0;
      if buckets[log2size - MINLOG2] == [] {
        var found;
        found, e, head := FillBucket(bsize, log2size);
        if !found {
          return None;
        }
        FirstOfPage(buckets[log2size - MINLOG2], e, head, shift, log2size);
      }
      var block := HandOut(bsize, log2size);
      r := Some(block);
    }

    /** The first block of a bucket comes into use. */
    method HandOut(bsize: nat, log2size: nat) returns (block: Addr)
      requires Valid() && MINLOG2 <= log2size <= shift + 1 && bsize == Pow2(log2size) && buckets[log2size - MINLOG2] != []
      modifies this`buckets, this`ubytes, this`live
      ensures Valid() && block !in old(live) && live == old(live)[block := bsize]
      ensures Maps() == old(Maps()) && Popped(old(buckets), buckets, log2size - MINLOG2, block)
    {
      block := PopBucket(log2size - MINLOG2);
      ghost var maps := Maps();
      ubytes := ubytes + bsize;
      assert Maps() == maps;
    }

    /** Takes a page, or two, and puts its blocks into the empty bucket. */
    method FillBucket(bsize: nat, log2size: nat) returns (found: bool, ghost e: nat, ghost head: nat)
      requires Valid() && MINLOG2 <= log2size <= shift + 1 && bsize == Pow2(log2size) && buckets[log2size - MINLOG2] == []
      modifies this`buckets, Footprint()
      ensures Valid() && live == old(live) && ubytes == old(ubytes)
      ensures found ==>
                && TakenFirst(old(Maps()), Maps(), if log2size > shift then 2 else 1, log2size, Addr(e, head, 0))
                && buckets == old(buckets)[log2size - MINLOG2 := buckets[log2size - MINLOG2]]
                && Splits(buckets[log2size - MINLOG2], e, head, shift, log2size)
      ensures !found ==> buckets == old(buckets) && Maps() == old(Maps()) && NoRun(Maps(), if log2size > shift then 2 else 1)
    {
      ghost var maps := Maps();
      var n := if log2size > shift then 2 else 1;
      var ext, page;
      found, ext, page := GetFreeRange(n, log2size, maps);
      e, head := ext, page;
      assert live == old(live) && buckets == old(buckets) && ubytes == old(ubytes);
      if found {
        StockPage(maps, ext, page, n, bsize, log2size);
      }
    }

    method StockPage(ghost maps: seq<seq<nat>>, e: nat, head: nat, ghost n: nat, bsize: nat, log2size: nat)
      requires Apart() && ExtentsOk() && ubytes == Total(live) && BooksOk(maps, shift, buckets, live) && e < |maps|
      requires MINLOG2 <= log2size <= shift + 1 && bsize == Pow2(log2size) && buckets[log2size - MINLOG2] == []
      requires n == (if log2size > shift then 2 else 1) && FreeRun(maps[e], head, n)
      requires Maps() == maps[e := Carve(maps[e], head, n, log2size)]
      modifies this`buckets
      ensures Valid() && Maps() == old(Maps())
      ensures buckets == old(buckets)[log2size - MINLOG2 := buckets[log2size - MINLOG2]]
      ensures Splits(buckets[log2size - MINLOG2], e, head, shift, log2size)
    {
      ghost var maps' := Maps();
      var chain := SplitPage(e, head, bsize, log2size);
      SplitOk(maps, shift, buckets, live, e, head, n, log2size, chain);
      assert Maps() == maps';
      SetBucket(log2size - MINLOG2, chain);
    }

    method SetBucket(l: nat, chain: seq<Addr>)
      requires Apart() && ExtentsOk() && l < |buckets| && BooksOk(Maps(), shift, buckets[l := chain], live) && ubytes == Total(live)
      modifies this`buckets
      ensures Valid() && buckets == old(buckets)[l := chain] && Maps() == old(Maps())
    {
      ghost var maps := Maps();
      buckets := buckets[l := chain];
      assert Maps() == maps;
    }

    method PopBucket(l: nat) returns (block: Addr)
      requires Apart() && ExtentsOk() && BooksOk(Maps(), shift, buckets, live) && l < |buckets| && buckets[l] != []
      modifies this`buckets, this`live
      ensures ExtentsOk() && BooksOk(Maps(), shift, buckets, live)
      ensures block !in old(live) && live == old(live)[block := Pow2(l + MINLOG2)]
      ensures Total(live) == old(Total(live)) + Pow2(l + MINLOG2)
      ensures Maps() == old(Maps()) && Popped(old(buckets), buckets, l, block)
    {
      ghost var maps := Maps();
      PopOk(maps, shift, buckets, live, l);
      block := buckets[l][0];
      TotalWith(live, block, Pow2(l + MINLOG2));
      buckets, live := buckets[l := buckets[l][1..]], live[block := Pow2(l + MINLOG2)];
      assert Maps() == maps;
    }

    method PushBucket(a: Addr, code: nat)
      requires Valid() && a in live && Inside(Maps(), shift, a) && code == Code(Maps(), a) && code >= MINLOG2
      modifies this`buckets, this`live
      ensures ExtentsOk() && BooksOk(Maps(), shift, buckets, live)
      ensures live == old(live) - {a} && ubytes == Total(live) + Pow2(code)
      ensures Maps() == old(Maps()) && Pushed(old(buckets), buckets, code - MINLOG2, a)
    {
      ghost var maps := Maps();
      assert LiveOk(maps, shift, live, a);
      PushOk(maps, shift, buckets, live, a);
      TotalWithout(live, a);
      var l := code - MINLOG2;
      buckets, live := buckets[l := [a] + buckets[l]], live - {a};
      assert Maps() == maps;
    }

    method TakePages(n: nat, bytes: nat) returns (r: Option<Addr>)
      requires Valid() && n >= 1 && bytes == n * Pow2(shift)
      modifies this`ubytes, this`live, Footprint()
      ensures Valid() && buckets == old(buckets)
      ensures r.None? ==> live == old(live) && Maps() == old(Maps()) && NoRun(Maps(), n)
      ensures r.Some? ==> r.value !in old(live) && live == old(live)[r.value := bytes]
      ensures r.Some? ==> TakenFirst(old(Maps()), Maps(), n, PLIST, r.value)
    {
      ghost var maps, b, l := Maps(), buckets, live;
      var found, e, head := GetFreeRange(n, PLIST, maps);
      assert buckets == b && live == l && ubytes == Total(l);
      if found {
        RecordPages(maps, e, head, n, bytes);
        r := Some(Addr(e, head, 0));
      } else {
        assert BooksOk(Maps(), shift, buckets, live);
        r := None;
      }
    }

    /** The pages just taken are one block in use. */
    method RecordPages(ghost maps: seq<seq<nat>>, e: nat, head: nat, ghost n: nat, bytes: nat)
      requires Apart() && ExtentsOk() && ubytes == Total(live) && BooksOk(maps, shift, buckets, live)
      requires e < |maps| && n >= 1 && FreeRun(maps[e], head, n) && Maps() == maps[e := Carve(maps[e], head, n, PLIST)]
      requires bytes == n * Pow2(shift)
      modifies this`ubytes, this`live
      ensures Valid() && Addr(e, head, 0) !in old(live) && live == old(live)[Addr(e, head, 0) := bytes]
      ensures Maps() == old(Maps())
    {
      GrantOk(maps, shift, buckets, live, e, head, n);
      Record(Addr(e, head, 0), bytes);
    }

    /** Puts a new block on record. */
    method Record(ghost a: Addr, n: nat)
      requires Apart() && ExtentsOk() && BooksOk(Maps(), shift, buckets, live[a := n]) && a !in live && ubytes == Total(live)
      modifies this`ubytes, this`live
      ensures Valid() && live == old(live)[a := n] && Maps() == old(Maps())
    {
      ghost var maps := Maps();
      TotalWith(live, a, n);
      live := live[a := n];
      ubytes := ubytes + n;
      assert Maps() == maps;
    }

    /** Takes a block off the record. */
    method Strike(ghost a: Addr, n: nat)
      requires Apart() && ExtentsOk() && a in live && live[a] == n && BooksOk(Maps(), shift, buckets, live - {a})
      requires ubytes == Total(live)
      modifies this`ubytes, this`live
      ensures Valid() && live == old(live) - {a} && Maps() == old(Maps())
    {
      ghost var maps := Maps();
      TotalWithout(live, a);
      live := live - {a};
      ubytes := ubytes - n;
      assert Maps() == maps;
    }

    /** Gives a block back to its bucket, or its pages to its extent. */
    method RtheapFree(a: Addr) returns (rc: int)
      requires Valid() && Inside(Maps(), shift, a) && (Carved(Maps(), shift, a) ==> a in live)
      requires Code(Maps(), a) == PLIST ==> a.off == 0
      modifies this`buckets, this`ubytes, this`live, Footprint()
      ensures Valid()
      ensures if a in old(live) then rc == 0 && live == old(live) - {a} else rc == RTHEAP_PARAM && live == old(live)
      ensures rc != 0 ==> buckets == old(buckets) && Maps() == old(Maps())
      ensures rc == 0 && old(Code(Maps(), a)) == PLIST ==>
                buckets == old(buckets) && PagesBack(old(Maps()), Maps(), a.ext, a.page)
      ensures rc == 0 && old(Code(Maps(), a)) != PLIST ==>
                Maps() == old(Maps()) && Pushed(old(buckets), buckets, old(Code(Maps(), a)) - MINLOG2, a)
    {
      var code, begins := BlockAt(a);
      if !begins {
        return RTHEAP_PARAM;
      }
      if code == PLIST {
        FreePages(a);
      } else {
        FreeBlock(a, code);
      }
      rc := 0;
    }

    /** The page map entry for `a`, and whether a block begins there. */
    method BlockAt(a: Addr) returns (code: nat, begins: bool)
      requires Valid() && Inside(Maps(), shift, a) && (Carved(Maps(), shift, a) ==> a in live)
      requires Code(Maps(), a) == PLIST ==> a.off == 0
      ensures code == Code(Maps(), a) && (begins <==> a in live)
      ensures begins ==> code == PLIST || code >= MINLOG2
    {
      code := extents[a.ext].pagemap[a.page];
      assert code == Code(Maps(), a);
      assert a in live ==> LiveOk(Maps(), shift, live, a);
      assert PageOk(Maps()[a.ext], shift, a.page);
      if code == PFREE || code == PCONT {
        begins := false;
      } else if code == PLIST {
        begins := true;
      } else {
        begins := a.off % Pow2(code) == 0;
      }
    }

    /** A block goes back to its bucket. */
    method FreeBlock(a: Addr, code: nat)
      requires Valid() && a in live && Inside(Maps(), shift, a) && code == Code(Maps(), a) && code >= MINLOG2
      modifies this`buckets, this`ubytes, this`live
      ensures Valid() && live == old(live) - {a} && Maps() == old(Maps())
      ensures Pushed(old(buckets), buckets, code - MINLOG2, a)
    {
      PushBucket(a, code);
      ghost var maps := Maps();
      ubytes := ubytes - Pow2(code);
      assert Maps() == maps;
    }

    method FreePages(a: Addr)
      requires Valid() && Inside(Maps(), shift, a) && a in live && Code(Maps(), a) == PLIST
      modifies this`ubytes, this`live, Footprint()
      ensures Valid() && live == old(live) - {a}
      ensures buckets == old(buckets) && PagesBack(old(Maps()), Maps(), a.ext, a.page)
    {
      ghost var maps, b, l := Maps(), buckets, live;
      var n := BlockPages(a);
      GivePages(a.ext, a.page, n);
      assert buckets == b && live == l && ubytes == Total(l);
      UncarvedBack(maps, Maps(), a.ext, a.page, n);
      StrikePages(maps, a, n);
    }

    /** How many pages the block at `a` has; none of them is free. */
    method BlockPages(a: Addr) returns (n: nat)
      requires Valid() && Inside(Maps(), shift, a) && Code(Maps(), a) == PLIST
      ensures n == Len(Maps()[a.ext], a.page) && a.page + n <= npages
      ensures forall q :: a.page <= q < a.page + n ==> Maps()[a.ext][q] != PFREE
    {
      n := CountPages(extents[a.ext], a.page);
      LenNotFree(Maps()[a.ext], a.page);
    }

    /** The block whose pages were just given back is no longer in use. */
    method StrikePages(ghost maps: seq<seq<nat>>, a: Addr, n: nat)
      requires Apart() && ExtentsOk() && ubytes == Total(live) && BooksOk(maps, shift, buckets, live)
      requires Inside(maps, shift, a) && a in live && Code(maps, a) == PLIST && n == Len(maps[a.ext], a.page)
      requires Maps() == maps[a.ext := Uncarve(maps[a.ext], a.page, n)]
      modifies this`ubytes, this`live
      ensures Valid() && live == old(live) - {a} && Maps() == old(Maps())
    {
      assert LiveOk(maps, shift, live, a);
      ReleaseOk(maps, shift, buckets, live, a);
      Strike(a, n * Pow2(shift));
    }

    method GivePages(e: nat, page: nat, n: nat)
      requires Apart() && ExtentsOk() && e < |extents| && n >= 1 && page + n <= npages
      requires forall q :: page <= q < page + n ==> Maps()[e][q] != PFREE
      modifies Footprint()
      ensures ExtentsOk() && Maps() == old(Maps())[e := Uncarve(old(Maps())[e], page, n)]
    {
      assert forall q :: page <= q < page + n ==> extents[e].Map()[q] == Maps()[e][q];
      extents[e].GiveRange(page, n);
      assert forall i :: 0 <= i < |extents| && i != e ==> extents[i].Valid();
    }

    /** The pages of a block: its first and those that continue it. */
    method CountPages(x: Extent, page: nat) returns (n: nat)
      requires x.Valid() && x.link.Length == npages && page < npages
      ensures n == Len(x.Map(), page)
    {
      n := 1;
      while n < npages && x.pagemap[page + n] == PCONT
        invariant 1 <= n && page + n <= npages
        invariant forall q :: page < q < page + n ==> x.Map()[q] == PCONT
        decreases npages - n
      {
        n := n + 1;
      }
      LenIs(x.Map(), page, n);
    }
  }

  lemma LenNotFree(m: seq<nat>, p: nat)
    requires p < |m| && m[p] == PLIST
    ensures forall q :: p <= q < p + Len(m, p) ==> m[q] != PFREE
  {
    LenSpan(m, p);
  }

  lemma SixteenIsPower()
    ensures Pow2(MINLOG2) == 16
  {
    assert Pow2(2) == 4;
    Pow2Add(2, 2);
  }

  lemma PowerDivides(c: nat, shift: nat)
    requires Pow2(c) < Pow2(shift)
    ensures (Pow2(shift) - Pow2(c)) % Pow2(c) == 0
  {
    if c > shift { Pow2Mono(shift, c); }
    Pow2Add(c, shift - c);
    LessOne(Pow2(shift - c), Pow2(c));
    ModUnique(Pow2(shift) - Pow2(c), Pow2(c), Pow2(shift - c) - 1, 0);
  }

  lemma LessOne(a: int, b: int)
    ensures (a - 1) * b == b * a - b
  {
  }

  lemma ZeroMod(d: nat)
    requires d > 0
    ensures 0 % d == 0
  {
  }

  lemma OnlyZero(psz: nat, bsize: nat)
    requires 0 < psz <= bsize
    ensures forall k: nat :: k < psz && k % bsize == 0 ==> k == 0
    ensures 0 % bsize == 0
  {
    forall k: nat | k < psz
      ensures k % bsize == k
    {
      ModUnique(k, bsize, 0, k);
    }
  }

  /** All blocks below `block`, and no others, are in the chain. */
  ghost predicate SplitUpTo(chain: seq<Addr>, e: nat, p: nat, block: nat, bsize: nat)
    requires bsize > 0
  {
    && Ascending(chain)
    && forall a: Addr :: a in chain <==> a.ext == e && a.page == p && a.off < block && a.off % bsize == 0
  }

  lemma OneMoreBlock(chain: seq<Addr>, e: nat, p: nat, block: nat, bsize: nat)
    requires bsize > 0 && block % bsize == 0 && SplitUpTo(chain, e, p, block, bsize)
    ensures SplitUpTo(chain + [Addr(e, p, block)], e, p, block + bsize, bsize) && (block + bsize) % bsize == 0
  {
    var chain' := chain + [Addr(e, p, block)];
    forall a: Addr | a.ext == e && a.page == p && a.off < block + bsize && a.off % bsize == 0
      ensures a in chain'
    {
      if a.off > block { MultiplesApart(block, a.off, bsize); }
      assert a.off == block ==> a == Addr(e, p, block);
    }
    ModUnique(block + bsize, bsize, block / bsize + 1, 0);
  }

  // ---------------------------------------------------------------------------------------------------
  // Setting up a heap in a given area
  // ---------------------------------------------------------------------------------------------------

  const MAX_EXTENT: nat := 0x7FFF_FFFF

  /** Sizes of the header and of the page map in it, for an extent structure of `sz` bytes. */
  function MapBytes(heapsize: nat, pagesize: nat, sz: nat): nat
    requires sz <= heapsize
  {
    (heapsize - sz) / (pagesize + 1)
  }

  function HeaderBytes(heapsize: nat, pagesize: nat, sz: nat): nat
    requires sz <= heapsize
  {
    (sz + MapBytes(heapsize, pagesize, sz) + 15) / 16 * 16
  }

  ghost predicate PowerOfTwo(x: nat) {
    exists k: nat :: x == Pow2(k)
  }

  ghost predicate ParamsOk(heapsize: nat, pagesize: nat, sz: nat) {
    && 16 <= pagesize <= 0x40_0000 && PowerOfTwo(pagesize)
    && sz < heapsize <= MAX_EXTENT && heapsize % pagesize == 0
    && HeaderBytes(heapsize, pagesize, sz) + 2 * pagesize <= heapsize
  }

  /** Pages of 8 bytes are refused, pages of 65536 bytes in a heap of 32 Mbytes are not. */
  lemma OtherThanDescribed(sz: nat)
    requires sz <= 0x1000
    ensures !ParamsOk(0x10_0000, 8, sz) && ParamsOk(0x200_0000, 0x1_0000, sz)
  {
    Pow2Add(8, 8);
    assert Pow2(8) == 0x100;
  }

  /** The header is the static part and the page map, a byte for each page, rounded up to 16 bytes. */
  lemma HeaderTight(heapsize: nat, pagesize: nat, sz: nat)
    requires sz <= heapsize
    ensures var h, m := HeaderBytes(heapsize, pagesize, sz), (heapsize - sz) / (pagesize + 1);
            h % 16 == 0 && sz + m <= h < sz + m + 16
  {
  }

  /** The header has room for an entry for every page and for the guard, if the page map begins two bytes or more
      before the end of the extent structure. */
  lemma HeaderHoldsMap(heapsize: nat, pagesize: nat, sz: nat, at: nat)
    requires pagesize > 0 && sz < heapsize && at + 2 <= sz && HeaderBytes(heapsize, pagesize, sz) <= heapsize
    ensures at + (heapsize - HeaderBytes(heapsize, pagesize, sz)) / pagesize + 1 <= HeaderBytes(heapsize, pagesize, sz)
  {
    var h, m := HeaderBytes(heapsize, pagesize, sz), MapBytes(heapsize, pagesize, sz);
    assert h >= sz + m;
    PagesBound(heapsize, h, sz, m, pagesize);
  }

  lemma PagesBound(total: nat, h: nat, sz: nat, m: nat, p: nat)
    requires p > 0 && sz + m <= h <= total && m == (total - sz) / (p + 1)
    ensures (total - h) / p <= m + 1
  {
    FloorBelow(total - sz, p + 1, m);
    assert (m + 1) * (p + 1) == (m + 1) * p + m + 1;
    assert total - h < (m + 1) * p + 1;
    FloorAtMost(total - h, p, m + 1);
  }

  lemma FloorBelow(x: nat, d: nat, q: nat)
    requires d > 0 && q == x / d
    ensures x < (q + 1) * d
  {
    assert x == q * d + x % d;
    assert (q + 1) * d == q * d + d;
  }

  lemma FloorAtMost(x: nat, d: nat, k: nat)
    requires d > 0 && x <= k * d
    ensures x / d <= k
  {
    var q := x / d;
    assert x == q * d + x % d;
    assert (k + 1) * d == k * d + d;
    if q > k { MulMono(k + 1, q, d); }
  }

  lemma {:induction false} AndSelf(x: nat)
    ensures And(x, x) == x
  {
    if x > 0 { AndSelf(x / 2); }
  }

  /** `x & (x - 1)` is zero exactly for powers of two. */
  lemma {:induction false} PowerTest(x: nat)
    requires x > 0
    ensures And(x, x - 1) == 0 <==> PowerOfTwo(x)
  {
    if x == 1 {
      assert x == Pow2(0);
    } else if x % 2 == 1 {
      AndSelf(x / 2);
      assert forall k: nat :: Pow2(k) == x ==> k > 0;
    } else {
      PowerTest(x / 2);
      assert (x - 1) / 2 == x / 2 - 1;
      if And(x, x - 1) == 0 {
        var k: nat :| x / 2 == Pow2(k);
        assert x == Pow2(k + 1);
      }
      if k: nat :| x == Pow2(k) {
        assert x / 2 == Pow2(k - 1);
      }
    }
  }

  /** The exponent of a power of two, by halving. */
  method PageShift(pagesize: nat) returns (pageshift: nat)
    requires PowerOfTwo(pagesize)
    ensures pagesize == Pow2(pageshift)
  {
    ghost var k: nat :| pagesize == Pow2(k);
    pageshift := 0;
    var shiftsize := pagesize;
    while shiftsize > 1
      invariant k >= pageshift && shiftsize == Pow2(k - pageshift)
    {
      shiftsize := shiftsize / 2;
      pageshift := pageshift + 1;
    }
    assert k == pageshift;
  }

  method RtheapInit(heapsize: nat, pagesize: nat, sz: nat) returns (rc: int, heap: Heap?)
    ensures rc == 0 <==> ParamsOk(heapsize, pagesize, sz)
    ensures rc != 0 ==> rc == RTHEAP_PARAM && heap == null
    ensures rc == 0 ==>
              && heap != null && heap.Valid() && heap.live == map[] && |heap.extents| == 1
              && pagesize == Pow2(heap.shift) && heap.npages >= 2
              && heap.npages == (heapsize - HeaderBytes(heapsize, pagesize, sz)) / pagesize
  {
    rc, heap := RTHEAP_PARAM, null;
    if pagesize < 16 || pagesize > 0x40_0000 {
      return;
    }
    PowerTest(pagesize);
    if And(pagesize, pagesize - 1) != 0 || heapsize <= sz || heapsize > MAX_EXTENT {
      return;
    }
    var shift := PageShift(pagesize);
    AndLow(heapsize, shift);
    if And(heapsize, pagesize - 1) != 0 {
      return;
    }
    var hdrsize := HeaderBytes(heapsize, pagesize, sz);
    if hdrsize + 2 * pagesize > heapsize {
      return;
    }
    ShiftBounds(shift);
    TwoPages(heapsize - hdrsize, pagesize);
    heap := new Heap(shift, (heapsize - hdrsize) / pagesize, 1);
    rc := 0;
  }

  lemma TwoPages(n: nat, pagesize: nat)
    requires pagesize > 0 && 2 * pagesize <= n
    ensures n / pagesize >= 2
  {
    MulMono(1, pagesize, n + 1);
    DivRange(n, pagesize, 2, n + 1);
  }

  lemma ShiftBounds(shift: nat)
    requires 16 <= Pow2(shift) <= 0x40_0000
    ensures MINLOG2 <= shift <= 22
  {
    SixteenIsPower();
    assert Pow2(6) == 4 * Pow2(4);
    Pow2Add(6, 16);
    Pow2Add(8, 8);
    Pow2Add(4, 4);
    if shift < MINLOG2 { Pow2Mono(shift, MINLOG2); }
    if shift > 22 { Pow2Mono(22, shift); }
  }
}
