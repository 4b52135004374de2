/** The books of the page allocator: which blocks the page maps carve out, and that each of them is either in use or in
    the bucket of its size. */
module BsdBooks {
  import opened Words
  import opened BsdExtent

  const MINLOG2: nat := 4
  const NBUCKETS: nat := 20

  /** A place in the page area of an extent, split as the free routine splits it. */
  datatype Addr = Addr(ext: nat, page: nat, off: nat)

  /** How many pages the block that begins on page `p` has. */
  function Len(m: seq<nat>, p: nat): (n: nat)
    requires p < |m|
    ensures n >= 1 && p + n <= |m|
    decreases |m| - p
  {
    if p + 1 < |m| && m[p + 1] == PCONT then 1 + Len(m, p + 1) else 1
  }

  lemma {:induction false} LenSpan(m: seq<nat>, p: nat)
    requires p < |m|
    ensures forall q {:trigger m[q]} :: p < q < p + Len(m, p) ==> m[q] == PCONT
    ensures p + Len(m, p) < |m| ==> m[p + Len(m, p)] != PCONT
    decreases |m| - p
  {
    if p + 1 < |m| && m[p + 1] == PCONT { LenSpan(m, p + 1); }
  }

  lemma {:induction false} LenIs(m: seq<nat>, p: nat, n: nat)
    requires n >= 1 && p + n <= |m| && (p + n < |m| ==> m[p + n] != PCONT)
    requires forall q {:trigger m[q]} :: p < q < p + n ==> m[q] == PCONT
    ensures Len(m, p) == n
    decreases n
  {
    if n > 1 {
      assert m[p + 1] == PCONT;
      LenIs(m, p + 1, n - 1);
    }
  }

  /** What a page map entry can be, next to its neighbour before it. */
  ghost predicate PageOk(m: seq<nat>, shift: nat, p: nat)
    requires p < |m|
  {
    && (m[p] <= PLIST || MINLOG2 <= m[p] <= shift + 1)
    && (m[p] == PCONT ==> p > 0 && m[p - 1] != PFREE)
    && (m[p] >= MINLOG2 ==> Len(m, p) == if m[p] > shift then 2 else 1)
  }

  ghost predicate MapOk(m: seq<nat>, shift: nat) {
    forall p {:trigger PageOk(m, shift, p)} :: 0 <= p < |m| ==> PageOk(m, shift, p)
  }

  /** Every page that is not free lies in exactly one block run or bucket page. */
  lemma {:induction false} PageCovered(m: seq<nat>, shift: nat, p: nat) returns (h: nat)
    requires MapOk(m, shift) && p < |m| && m[p] != PFREE
    ensures h <= p < h + Len(m, h) && m[h] >= PLIST
    ensures forall g {:trigger Len(m, g)} :: 0 <= g <= p && m[g] >= PLIST && p < g + Len(m, g) ==> g == h
  {
    assert PageOk(m, shift, p);
    h := p;
    if m[p] == PCONT {
      h := PageCovered(m, shift, p - 1);
      LenSpan(m, h);
    }
    forall g | 0 <= g <= p && m[g] >= PLIST && p < g + Len(m, g)
      ensures g == h
    {
      LenSpan(m, g);
      LenSpan(m, h);
    }
  }

  lemma CarveMapOk(m: seq<nat>, shift: nat, p: nat, n: nat, code: nat)
    requires MapOk(m, shift) && n >= 1 && FreeRun(m, p, n)
    requires code == PLIST || (MINLOG2 <= code <= shift + 1 && n == if code > shift then 2 else 1)
    ensures MapOk(Carve(m, p, n, code), shift) && Len(Carve(m, p, n, code), p) == n
    ensures forall q {:trigger Len(m, q)} :: 0 <= q < |m| && m[q] >= PLIST ==> Len(Carve(m, p, n, code), q) == Len(m, q)
  {
    var m' := Carve(m, p, n, code);
    if p + n < |m| {
      assert PageOk(m, shift, p + n) && m[p + n - 1] == PFREE;
    }
    LenIs(m', p, n);
    forall q | 0 <= q < |m| && m[q] >= PLIST
      ensures Len(m', q) == Len(m, q)
    {
      CarveOtherLen(m, p, n, code, q);
    }
    forall q | 0 <= q < |m'|
      ensures PageOk(m', shift, q)
    {
      assert PageOk(m, shift, q);
    }
  }

  lemma CarveOtherLen(m: seq<nat>, p: nat, n: nat, code: nat, q: nat)
    requires n >= 1 && FreeRun(m, p, n) && code >= PLIST && q < |m| && m[q] >= PLIST
    ensures Len(Carve(m, p, n, code), q) == Len(m, q)
  {
    var m' := Carve(m, p, n, code);
    var l := Len(m, q);
    LenSpan(m, q);
    assert m[q + l - 1] != PFREE;
    forall t | q < t < q + l
      ensures m'[t] == PCONT
    {
      assert m[t] == PCONT;
    }
    assert q + l < |m| ==> m[q + l] != PCONT;
    LenIs(m', q, l);
  }

  lemma UncarveMapOk(m: seq<nat>, shift: nat, p: nat)
    requires MapOk(m, shift) && p < |m| && m[p] >= PLIST
    ensures MapOk(Uncarve(m, p, Len(m, p)), shift)
    ensures forall q {:trigger Len(m, q)} :: 0 <= q < |m| && q != p && m[q] >= PLIST ==>
              !(p <= q < p + Len(m, p)) && Len(Uncarve(m, p, Len(m, p)), q) == Len(m, q)
  {
    var n := Len(m, p);
    var m' := Uncarve(m, p, n);
    LenSpan(m, p);
    forall q | 0 <= q < |m| && q != p && m[q] >= PLIST
      ensures !(p <= q < p + n) && Len(m', q) == Len(m, q)
    {
      LenSpan(m, q);
      assert m[p] != PCONT;
      LenIs(m', q, Len(m, q));
    }
    forall q | 0 <= q < |m'|
      ensures PageOk(m', shift, q)
    {
      assert PageOk(m, shift, q);
    }
  }

  // ---------------------------------------------------------------------------------------------------
  // Blocks
  // ---------------------------------------------------------------------------------------------------

  ghost predicate Inside(maps: seq<seq<nat>>, shift: nat, a: Addr) {
    a.ext < |maps| && a.page < |maps[a.ext]| && a.off < Pow2(shift)
  }

  function Code(maps: seq<seq<nat>>, a: Addr): nat
    requires a.ext < |maps| && a.page < |maps[a.ext]|
  {
    maps[a.ext][a.page]
  }

  /** A block begins here. */
  ghost predicate Carved(maps: seq<seq<nat>>, shift: nat, a: Addr) {
    && Inside(maps, shift, a)
    && var c := Code(maps, a);
       (c == PLIST && a.off == 0) || (c >= MINLOG2 && a.off % Pow2(c) == 0)
  }

  function SizeAt(maps: seq<seq<nat>>, shift: nat, a: Addr): nat
    requires a.ext < |maps| && a.page < |maps[a.ext]|
  {
    var c := Code(maps, a);
    if c < MINLOG2 then Len(maps[a.ext], a.page) * Pow2(shift) else Pow2(c)
  }

  ghost predicate NoDup(q: seq<Addr>) {
    forall i, j :: 0 <= i < j < |q| ==> q[i] != q[j]
  }

  /** A block in a bucket: of that bucket's size, and not in use. */
  ghost predicate BucketedOk(maps: seq<seq<nat>>, shift: nat, live: map<Addr, nat>, l: nat, a: Addr) {
    Carved(maps, shift, a) && Code(maps, a) == l + MINLOG2 && a !in live
  }

  ghost predicate LiveOk(maps: seq<seq<nat>>, shift: nat, live: map<Addr, nat>, a: Addr)
    requires a in live
  {
    Carved(maps, shift, a) && live[a] == SizeAt(maps, shift, a)
  }

  ghost predicate Accounted(maps: seq<seq<nat>>, buckets: seq<seq<Addr>>, live: map<Addr, nat>, a: Addr)
    requires a.ext < |maps| && a.page < |maps[a.ext]|
  {
    a in live || (MINLOG2 <= Code(maps, a) < |buckets| + MINLOG2 && a in buckets[Code(maps, a) - MINLOG2])
  }

  ghost predicate MapsOk(maps: seq<seq<nat>>, shift: nat) {
    forall e :: 0 <= e < |maps| ==> MapOk(maps[e], shift)
  }

  /** Every block is either in use, with its size on record, or once in the bucket of its size. */
  ghost predicate BooksOk(maps: seq<seq<nat>>, shift: nat, buckets: seq<seq<Addr>>, live: map<Addr, nat>) {
    && MapsOk(maps, shift) && |buckets| == NBUCKETS && MINLOG2 <= shift <= 22
    && (forall l :: 0 <= l < |buckets| ==> NoDup(buckets[l]))
    && (forall l, a {:trigger BucketedOk(maps, shift, live, l, a)} ::
          0 <= l < |buckets| && a in buckets[l] ==> BucketedOk(maps, shift, live, l, a))
    && (forall a {:trigger LiveOk(maps, shift, live, a)} :: a in live ==> LiveOk(maps, shift, live, a))
    && (forall a {:trigger Carved(maps, shift, a)} :: Carved(maps, shift, a) ==> Accounted(maps, buckets, live, a))
  }

  /** Two blocks never share a byte. */
  lemma BlocksDisjoint(maps: seq<seq<nat>>, shift: nat, a: Addr, b: Addr)
    requires MapsOk(maps, shift) && Carved(maps, shift, a) && Carved(maps, shift, b) && a != b && a.ext == b.ext
    ensures a.page * Pow2(shift) + a.off + SizeAt(maps, shift, a) <= b.page * Pow2(shift) + b.off
         || b.page * Pow2(shift) + b.off + SizeAt(maps, shift, b) <= a.page * Pow2(shift) + a.off
  {
    var m := maps[a.ext];
    assert PageOk(m, shift, a.page) && PageOk(m, shift, b.page);
    if a.page == b.page {
      SamePage(maps, shift, a, b);
    } else if a.page < b.page {
      EarlierPage(maps, shift, a, b);
    } else {
      EarlierPage(maps, shift, b, a);
    }
  }

  lemma MultiplesApart(x: nat, y: nat, d: nat)
    requires d > 0 && x % d == 0 && y % d == 0 && x < y
    ensures x + d <= y
  {
    var i, j := x / d, y / d;
    assert x == i * d && y == j * d;
    if j <= i { MulMono(j, i, d); }
    MulMono(i + 1, j, d);
    assert (i + 1) * d == i * d + d;
  }

  lemma SamePage(maps: seq<seq<nat>>, shift: nat, a: Addr, b: Addr)
    requires Carved(maps, shift, a) && Carved(maps, shift, b) && a != b && a.ext == b.ext && a.page == b.page
    ensures SizeAt(maps, shift, a) == SizeAt(maps, shift, b)
    ensures a.off + SizeAt(maps, shift, a) <= b.off || b.off + SizeAt(maps, shift, b) <= a.off
  {
    var c := Code(maps, a);
    if a.off < b.off { MultiplesApart(a.off, b.off, Pow2(c)); } else { MultiplesApart(b.off, a.off, Pow2(c)); }
  }

  lemma SmallFits(off: nat, c: nat, shift: nat)
    requires c <= shift && off < Pow2(shift) && off % Pow2(c) == 0
    ensures off + Pow2(c) <= Pow2(shift)
  {
    Pow2Add(c, shift - c);
    MultipleFits(off, Pow2(c), Pow2(shift - c), Pow2(shift));
  }

  lemma MultipleFits(off: nat, d: nat, k: nat, p: nat)
    requires d > 0 && p == d * k && off < p && off % d == 0
    ensures off + d <= p
  {
    ModUnique(p, d, k, 0);
    MultiplesApart(off, p, d);
  }

  /** A block ends within its pages. */
  lemma EndsInPages(maps: seq<seq<nat>>, shift: nat, a: Addr)
    requires MapsOk(maps, shift) && Carved(maps, shift, a)
    ensures a.off + SizeAt(maps, shift, a) <= Len(maps[a.ext], a.page) * Pow2(shift)
  {
    var c := Code(maps, a);
    assert PageOk(maps[a.ext], shift, a.page);
    if MINLOG2 <= c <= shift {
      SmallFits(a.off, c, shift);
    } else if c >= MINLOG2 {
      assert Pow2(c) == 2 * Pow2(shift);
      ModUnique(a.off, Pow2(c), 0, a.off);
    }
  }

  lemma EarlierPage(maps: seq<seq<nat>>, shift: nat, a: Addr, b: Addr)
    requires MapsOk(maps, shift) && Carved(maps, shift, a) && Carved(maps, shift, b) && a.ext == b.ext && a.page < b.page
    ensures a.page * Pow2(shift) + a.off + SizeAt(maps, shift, a) <= b.page * Pow2(shift)
  {
    var n := Len(maps[a.ext], a.page);
    EndsInPages(maps, shift, a);
    LaterHead(maps[a.ext], a.page, b.page);
    MulMono(a.page + n, b.page, Pow2(shift));
    DistributeSum(a.page, n, Pow2(shift));
  }

  lemma DistributeSum(a: nat, b: nat, c: nat)
    ensures (a + b) * c == a * c + b * c
  {
  }

  lemma LaterHead(m: seq<nat>, p: nat, q: nat)
    requires p < q < |m| && m[q] >= PLIST
    ensures p + Len(m, p) <= q
  {
    LenSpan(m, p);
    assert m[q] != PCONT;
  }

  // ---------------------------------------------------------------------------------------------------
  // What the operations do to the books
  // ---------------------------------------------------------------------------------------------------

  lemma TailOfNoDup(q: seq<Addr>)
    requires NoDup(q) && q != []
    ensures NoDup(q[1..]) && forall b :: b in q <==> b == q[0] || b in q[1..]
    ensures q[0] !in q[1..]
  {
    assert q == [q[0]] + q[1..];
  }

  lemma StillAccounted(maps: seq<seq<nat>>, buckets: seq<seq<Addr>>, buckets': seq<seq<Addr>>, live: map<Addr, nat>,
                       live': map<Addr, nat>, a: Addr, b: Addr)
    requires b.ext < |maps| && b.page < |maps[b.ext]| && Accounted(maps, buckets, live, b)
    requires |buckets'| == |buckets| && live'.Keys == live.Keys + {a}
    requires forall k :: 0 <= k < |buckets| && b in buckets[k] ==> b == a || b in buckets'[k]
    ensures Accounted(maps, buckets', live', b)
  {
  }

  /** A bucket hands out its first block. */
  lemma PopOk(maps: seq<seq<nat>>, shift: nat, buckets: seq<seq<Addr>>, live: map<Addr, nat>, l: nat)
    requires BooksOk(maps, shift, buckets, live) && l < |buckets| && buckets[l] != []
    ensures var a := buckets[l][0];
            && a !in live && Carved(maps, shift, a) && Code(maps, a) == l + MINLOG2
            && BooksOk(maps, shift, buckets[l := buckets[l][1..]], live[a := Pow2(l + MINLOG2)])
  {
    var a := buckets[l][0];
    var buckets', live' := buckets[l := buckets[l][1..]], live[a := Pow2(l + MINLOG2)];
    assert a in buckets[l] && BucketedOk(maps, shift, live, l, a);
    TailOfNoDup(buckets[l]);
    forall k, b | 0 <= k < |buckets'| && b in buckets'[k]
      ensures BucketedOk(maps, shift, live', k, b)
    {
      assert b in buckets[k] && BucketedOk(maps, shift, live, k, b);
    }
    forall b | b in live'
      ensures LiveOk(maps, shift, live', b)
    {
      assert b != a ==> LiveOk(maps, shift, live, b);
    }
    forall b | Carved(maps, shift, b)
      ensures Accounted(maps, buckets', live', b)
    {
      assert Accounted(maps, buckets, live, b);
      StillAccounted(maps, buckets, buckets', live, live', a, b);
    }
  }

  /** A block in use goes to the front of its bucket. */
  lemma PushOk(maps: seq<seq<nat>>, shift: nat, buckets: seq<seq<Addr>>, live: map<Addr, nat>, a: Addr)
    requires BooksOk(maps, shift, buckets, live) && a in live && Inside(maps, shift, a) && Code(maps, a) >= MINLOG2
    ensures var l := Code(maps, a) - MINLOG2;
            l < |buckets| && BooksOk(maps, shift, buckets[l := [a] + buckets[l]], live - {a})
  {
    assert LiveOk(maps, shift, live, a);
    assert PageOk(maps[a.ext], shift, a.page);
    var l := Code(maps, a) - MINLOG2;
    var buckets', live' := buckets[l := [a] + buckets[l]], live - {a};
    forall k, b | 0 <= k < |buckets'| && b in buckets'[k]
      ensures BucketedOk(maps, shift, live', k, b)
    {
      assert b in buckets[k] ==> BucketedOk(maps, shift, live, k, b);
    }
    assert a in buckets[l] ==> BucketedOk(maps, shift, live, l, a);
    forall b | b in live'
      ensures LiveOk(maps, shift, live', b)
    {
      assert LiveOk(maps, shift, live, b);
    }
    forall b | Carved(maps, shift, b)
      ensures Accounted(maps, buckets', live', b)
    {
      assert Accounted(maps, buckets, live, b);
    }
  }

  /** Other blocks do not change when free pages become a block. */
  lemma CarveFrame(maps: seq<seq<nat>>, shift: nat, e: nat, p: nat, n: nat, code: nat, b: Addr)
    requires MapsOk(maps, shift) && e < |maps| && n >= 1 && FreeRun(maps[e], p, n) && !(b.ext == e && b.page == p)
    requires code == PLIST || (MINLOG2 <= code <= shift + 1 && n == if code > shift then 2 else 1)
    ensures var maps' := maps[e := Carve(maps[e], p, n, code)];
            && (Carved(maps', shift, b) <==> Carved(maps, shift, b))
            && (Carved(maps, shift, b) ==> Code(maps', b) == Code(maps, b) && SizeAt(maps', shift, b) == SizeAt(maps, shift, b))
  {
    CarveMapOk(maps[e], shift, p, n, code);
    if Inside(maps, shift, b) { assert PageOk(maps[b.ext], shift, b.page); }
  }

  lemma CarveMapsOk(maps: seq<seq<nat>>, shift: nat, e: nat, p: nat, n: nat, code: nat)
    requires MapsOk(maps, shift) && e < |maps| && n >= 1 && FreeRun(maps[e], p, n)
    requires code == PLIST || (MINLOG2 <= code <= shift + 1 && n == if code > shift then 2 else 1)
    ensures MapsOk(maps[e := Carve(maps[e], p, n, code)], shift)
  {
    CarveMapOk(maps[e], shift, p, n, code);
  }

  /** Nothing begins on a free page. */
  lemma FreshPage(maps: seq<seq<nat>>, shift: nat, buckets: seq<seq<Addr>>, live: map<Addr, nat>, e: nat, p: nat, n: nat, a: Addr)
    requires BooksOk(maps, shift, buckets, live) && e < |maps| && n >= 1 && FreeRun(maps[e], p, n) && a.ext == e && a.page == p
    ensures !Carved(maps, shift, a) && a !in live && forall l :: 0 <= l < |buckets| ==> a !in buckets[l]
  {
    assert maps[e][p] == PFREE;
    assert a in live ==> LiveOk(maps, shift, live, a);
    forall l | 0 <= l < |buckets|
      ensures a !in buckets[l]
    {
      assert a in buckets[l] ==> BucketedOk(maps, shift, live, l, a);
    }
  }

  /** Pages become one block in use. */
  lemma GrantOk(maps: seq<seq<nat>>, shift: nat, buckets: seq<seq<Addr>>, live: map<Addr, nat>, e: nat, p: nat, n: nat)
    requires BooksOk(maps, shift, buckets, live) && e < |maps| && n >= 1 && FreeRun(maps[e], p, n)
    ensures var a := Addr(e, p, 0);
            a !in live && BooksOk(maps[e := Carve(maps[e], p, n, PLIST)], shift, buckets, live[a := n * Pow2(shift)])
  {
    var a := Addr(e, p, 0);
    var maps', live' := maps[e := Carve(maps[e], p, n, PLIST)], live[a := n * Pow2(shift)];
    CarveMapsOk(maps, shift, e, p, n, PLIST);
    CarveMapOk(maps[e], shift, p, n, PLIST);
    FreshPage(maps, shift, buckets, live, e, p, n, a);
    forall l, b | 0 <= l < |buckets| && b in buckets[l]
      ensures BucketedOk(maps', shift, live', l, b)
    {
      assert BucketedOk(maps, shift, live, l, b);
      if b.ext == e && b.page == p { FreshPage(maps, shift, buckets, live, e, p, n, b); }
      CarveFrame(maps, shift, e, p, n, PLIST, b);
    }
    forall b | b in live'
      ensures LiveOk(maps', shift, live', b)
    {
      if b != a {
        assert LiveOk(maps, shift, live, b);
        if b.ext == e && b.page == p { FreshPage(maps, shift, buckets, live, e, p, n, b); }
        CarveFrame(maps, shift, e, p, n, PLIST, b);
      }
    }
    forall b | Carved(maps', shift, b)
      ensures Accounted(maps', buckets, live', b)
    {
      if b.ext == e && b.page == p {
        assert b == a;
      } else {
        CarveFrame(maps, shift, e, p, n, PLIST, b);
        assert Accounted(maps, buckets, live, b);
      }
    }
  }

  ghost predicate Ascending(chain: seq<Addr>) {
    forall i, j :: 0 <= i < j < |chain| ==> chain[i].off < chain[j].off
  }

  lemma AscendingNoDup(chain: seq<Addr>)
    requires Ascending(chain)
    ensures NoDup(chain)
  {
  }

  /** The blocks of a page, in address order, are exactly those that its code describes. */
  ghost predicate Splits(chain: seq<Addr>, e: nat, p: nat, shift: nat, code: nat) {
    && Ascending(chain)
    && forall a :: a in chain <==> a.ext == e && a.page == p && a.off < Pow2(shift) && a.off % Pow2(code) == 0
  }

  /** A page, or two, becomes a chain of blocks: the first is handed out, the others fill the empty bucket. */
  lemma SplitOk(maps: seq<seq<nat>>, shift: nat, buckets: seq<seq<Addr>>, live: map<Addr, nat>,
                e: nat, p: nat, n: nat, code: nat, chain: seq<Addr>)
    requires BooksOk(maps, shift, buckets, live) && e < |maps| && n >= 1 && FreeRun(maps[e], p, n)
    requires MINLOG2 <= code <= shift + 1 && n == if code > shift then 2 else 1
    requires buckets[code - MINLOG2] == [] && Splits(chain, e, p, shift, code)
    ensures BooksOk(maps[e := Carve(maps[e], p, n, code)], shift, buckets[code - MINLOG2 := chain], live)
  {
    AscendingNoDup(chain);
    var l := code - MINLOG2;
    var maps', buckets' := maps[e := Carve(maps[e], p, n, code)], buckets[l := chain];
    CarveMapsOk(maps, shift, e, p, n, code);
    forall k, b | 0 <= k < |buckets'| && b in buckets'[k]
      ensures BucketedOk(maps', shift, live, k, b)
    {
      if b.ext == e && b.page == p {
        FreshPage(maps, shift, buckets, live, e, p, n, b);
      } else {
        assert BucketedOk(maps, shift, live, k, b);
        CarveFrame(maps, shift, e, p, n, code, b);
      }
    }
    forall b | b in live
      ensures LiveOk(maps', shift, live, b)
    {
      assert LiveOk(maps, shift, live, b);
      if b.ext == e && b.page == p { FreshPage(maps, shift, buckets, live, e, p, n, b); }
      CarveFrame(maps, shift, e, p, n, code, b);
    }
    forall b | Carved(maps', shift, b)
      ensures Accounted(maps', buckets', live, b)
    {
      if b.ext == e && b.page == p {
        assert b in chain;
      } else {
        CarveFrame(maps, shift, e, p, n, code, b);
        assert Accounted(maps, buckets, live, b);
      }
    }
  }

  lemma UncarveFrame(maps: seq<seq<nat>>, shift: nat, a: Addr, b: Addr)
    requires MapsOk(maps, shift) && Carved(maps, shift, a) && Code(maps, a) == PLIST && b != a
    ensures var maps' := maps[a.ext := Uncarve(maps[a.ext], a.page, Len(maps[a.ext], a.page))];
            && (Carved(maps', shift, b) <==> Carved(maps, shift, b))
            && (Carved(maps, shift, b) ==> Code(maps', b) == Code(maps, b) && SizeAt(maps', shift, b) == SizeAt(maps, shift, b))
  {
    UncarveMapOk(maps[a.ext], shift, a.page);
    LenSpan(maps[a.ext], a.page);
    if Inside(maps, shift, b) { assert PageOk(maps[b.ext], shift, b.page); }
  }

  /** The pages of a block in use become free. */
  lemma ReleaseOk(maps: seq<seq<nat>>, shift: nat, buckets: seq<seq<Addr>>, live: map<Addr, nat>, a: Addr)
    requires BooksOk(maps, shift, buckets, live) && a in live && Inside(maps, shift, a) && Code(maps, a) == PLIST
    ensures BooksOk(maps[a.ext := Uncarve(maps[a.ext], a.page, Len(maps[a.ext], a.page))], shift, buckets, live - {a})
  {
    var maps', live' := maps[a.ext := Uncarve(maps[a.ext], a.page, Len(maps[a.ext], a.page))], live - {a};
    assert LiveOk(maps, shift, live, a);
    UncarveMapOk(maps[a.ext], shift, a.page);
    forall l, b | 0 <= l < |buckets| && b in buckets[l]
      ensures BucketedOk(maps', shift, live', l, b)
    {
      assert BucketedOk(maps, shift, live, l, b);
      UncarveFrame(maps, shift, a, b);
    }
    forall b | b in live'
      ensures LiveOk(maps', shift, live', b)
    {
      assert LiveOk(maps, shift, live, b);
      UncarveFrame(maps, shift, a, b);
    }
    assert !Carved(maps', shift, a);
    forall b | Carved(maps', shift, b)
      ensures Accounted(maps', buckets, live', b)
    {
      UncarveFrame(maps, shift, a, b);
      assert Accounted(maps, buckets, live, b);
    }
  }
}
