/** Laws of the two-level segregated-fit heap: every operation keeps the heap well formed, grants are a good
    fit, live blocks are left alone, bytes are conserved, and releasing undoes granting. */
module TlsfLaws {
  import opened TlsfClasses
  import opened TlsfHeap
  import opened Wrappers

  // ---------------------------------------------------------------------------------------------------
  // Grants
  // ---------------------------------------------------------------------------------------------------

  /** A grant replaces block `i` by one or two blocks over the same bytes, the first of them used. */
  ghost predicate GrantOk(s: seq<Block>, i: nat, g: seq<Block>)
    requires i < |s|
  {
    && Covers(s, i, i, g) && Coalesced(g) && !g[0].free && |g| <= 2
    && (forall j :: 0 <= j < |g| ==> g[j].size >= MIN_BLOCK && g[j].size % 16 == 0 && g[j].size < LIMIT)
  }

  lemma GrantIsOk(s: seq<Block>, i: nat, r: nat)
    requires WellFormed(s) && 0 < i < |s| - 1 && s[i].size < LIMIT && MIN_BLOCK <= r <= s[i].size && r % 16 == 0
    ensures GrantOk(s, i, Grant(s[i], r))
  {
    var b := s[i];
    if b.size >= r + HEADER {
      var x, y := Granted(b, r), Remainder(b, r);
      var g := [x, y];
      assert Tiled(g) && Coalesced(g);
      assert g[0] == x && g[1] == y;
    } else {
      var x := Granted(b, r);
      assert Grant(b, r)[0] == x;
    }
  }

  lemma GrantCovers(h: Heap, n: nat)
    requires Good(h) && n <= MAX_REQUEST && StartList(h, n) < CLASSES
    ensures var i := FoundAt(h, n);
            && GrantOk(h.chain, i, Grant(h.chain[i], Request(n).0))
            && !h.chain[i - 1].free && !h.chain[i + 1].free
  {
    RequestBounds(n);
    var i := FoundAt(h, n);
    Fits(h.chain, i);
    GrantIsOk(h.chain, i, Request(n).0);
    Neighbours(h.chain, i);
  }

  /** The neighbours of a free block are used, and blocks touch their neighbours. */
  lemma Neighbours(s: seq<Block>, i: nat)
    requires WellFormed(s) && 0 < i < |s| - 1
    ensures s[i - 1].End() == s[i].addr && s[i].End() == s[i + 1].addr
    ensures s[i].free ==> !s[i - 1].free && !s[i + 1].free
  {
  }

  lemma PopIsRemove(l: seq<int>)
    requires NoDup(l) && l != []
    ensures NoDup(l[1..]) && forall x :: x in l[1..] <==> x in l && x != l[0]
  {
    forall x
      ensures x in l[1..] <==> x in l && x != l[0]
    {
      if x in l && x != l[0] {
        var k :| 0 <= k < |l| && l[k] == x;
        assert l[1..][k - 1] == x;
      }
    }
  }

  /** A grant keeps the blocks adjacent and coalesced, and the lists exact. */
  lemma MallocGood(h: Heap, n: nat)
    requires Good(h) && n <= MAX_REQUEST
    ensures Good(Malloc(h, n).0)
  {
    if StartList(h, n) < CLASSES {
      var r := Request(n).0;
      var i := FoundAt(h, n);
      GrantCovers(h, n);
      SpliceWellFormed(h.chain, i, i, Grant(h.chain[i], r));
      GrantLists(h, StartList(h, n), i, r);
      SpliceIndexed(h.chain, i, i, Grant(h.chain[i], r), h.lists, Malloc(h, n).0.lists);
    }
  }

  /** The lists after a grant from list `d` hold what they held, less the granted block, plus the remainder. */
  lemma GrantLists(h: Heap, d: nat, i: nat, r: nat)
    requires Good(h) && d < CLASSES && h.lists[d] != [] && FreeIn(h.chain, i, h.lists[d][0], d)
    ensures var popped := h.lists[d := h.lists[d][1..]];
            var b := h.chain[i];
            var lists' := if b.size >= r + HEADER then Push(popped, Remainder(b, r)) else popped;
            Reindexed(h.chain, i, i, Grant(b, r), h.lists, lists')
  {
    var b := h.chain[i];
    var popped := h.lists[d := h.lists[d][1..]];
    var lists' := if b.size >= r + HEADER then Push(popped, Remainder(b, r)) else popped;
    PopIsRemove(h.lists[d]);
    if b.size >= r + HEADER {
      RemainderIsNew(h, i, r, Class(Remainder(b, r).size));
    }
    forall c: nat, a: int | c < CLASSES
      ensures a in lists'[c] <==> (a in h.lists[c] && !IsFree(h.chain[i..i + 1], a, c)) || IsFree(Grant(b, r), a, c)
    {
      OneFree(b, a, c);
      assert h.chain[i..i + 1] == [b];
      GrantFree(b, r, a, c);
    }
  }

  lemma OneFree(b: Block, a: int, c: nat)
    ensures IsFree([b], a, c) <==> b.free && a == b.addr && c == Class(b.size)
  {
    if b.free && a == b.addr && c == Class(b.size) {
      assert FreeIn([b], 0, a, c);
    }
  }

  lemma GrantFree(b: Block, r: nat, a: int, c: nat)
    ensures IsFree(Grant(b, r), a, c) <==>
            b.size >= r + HEADER && a == Remainder(b, r).addr && c == Class(Remainder(b, r).size)
  {
    if b.size >= r + HEADER && a == Remainder(b, r).addr && c == Class(Remainder(b, r).size) {
      assert FreeIn(Grant(b, r), 1, a, c);
    }
  }

  /** An address inside a block is not the address of any block. */
  lemma InsideIsNew(h: Heap, i: nat, a: int, e: nat)
    requires Good(h) && i < |h.chain| && h.chain[i].addr < a < h.chain[i].End() && e < CLASSES
    ensures a !in h.lists[e]
  {
    if a in h.lists[e] {
      assert IsFree(h.chain, a, e);
      var j :| FreeIn(h.chain, j, a, e);
      if j < i { Ordered(h.chain, j, i); } else if i < j { Ordered(h.chain, i, j); }
    }
  }

  lemma RemainderIsNew(h: Heap, i: nat, r: nat, e: nat)
    requires Good(h) && i < |h.chain| && h.chain[i].size >= r + HEADER && e < CLASSES
    ensures Remainder(h.chain[i], r).addr !in h.lists[e]
  {
    InsideIsNew(h, i, Remainder(h.chain[i], r).addr, e);
  }

  /** Good fit.  A request fails exactly when every free block is smaller than the rounded request; otherwise
      the caller gets what was a free block, at least as long as the rounded request (hence as the request)
      and at most 16 bytes longer. */
  lemma GoodFit(h: Heap, n: nat)
    requires Good(h) && n <= MAX_REQUEST
    ensures RequestOk(n)
    ensures Malloc(h, n).1.None? <==> NoneFits(h.chain, Request(n).0)
    ensures Malloc(h, n).1.None? ==> Malloc(h, n).0 == h
    ensures Malloc(h, n).1.Some? ==>
              var i := FoundAt(h, n);
              FitsAt(h.chain, Malloc(h, n).0.chain, i, Malloc(h, n).1.value, Request(n).0)
  {
    RequestBounds(n);
    if StartList(h, n) == CLASSES {
      NoListNoFit(h, n);
    } else {
      var i := FoundAt(h, n);
      assert Malloc(h, n).0.chain == Splice(h.chain, i, i, Grant(h.chain[i], Request(n).0));
      Fits(h.chain, i);
      GrantFits(h.chain, i, Request(n).0);
    }
  }

  /** Block `i` is granted whole when less than a header and the smallest block would be left of it, and otherwise cut to
      exactly `r` bytes. */
  ghost predicate ChainTaken(s: seq<Block>, s': seq<Block>, i: nat, r: nat) {
    && i < |s|
    && var b := s[i];
       if b.size < r + OVERHEAD + MIN_BLOCK then s' == s[i := Block(b.addr, b.size, false)]
       else s' == s[..i] + [Block(b.addr, r, false), Block(b.addr + OVERHEAD + r, b.size - r - OVERHEAD, true)] + s[i + 1..]
  }

  /** List `d` loses its head, block `b`; what is cut off it becomes the head of the list of its class. */
  ghost predicate ListsTaken(lists: seq<seq<int>>, lists': seq<seq<int>>, d: nat, b: Block, r: nat) {
    && |lists| == CLASSES && |lists'| == CLASSES && d < CLASSES && lists[d] != []
    && forall c {:trigger lists'[c]} :: 0 <= c < CLASSES ==>
         lists'[c] == CutOff(b, r, c) + if c == d then lists[c][1..] else lists[c]
  }

  function CutOff(b: Block, r: nat, c: nat): seq<int> {
    if b.size >= r + OVERHEAD + MIN_BLOCK && c == Class(b.size - r - OVERHEAD) then [b.addr + OVERHEAD + r] else []
  }

  /** A grant takes block `i`, the head of list `d`, which is the first list from the class of the request on that is not
      empty. */
  ghost predicate TakesFrom(h: Heap, h': Heap, p: int, r: nat, from: nat, d: nat, i: nat) {
    && from <= d < CLASSES && |h.lists| == CLASSES && h.lists[d] != [] && (forall e :: from <= e < d ==> h.lists[e] == [])
    && 0 < i < |h.chain| - 1 && h.chain[i].free && h.chain[i].addr == h.lists[d][0] && p == h.chain[i].addr + OVERHEAD
    && ChainTaken(h.chain, h'.chain, i, r) && ListsTaken(h.lists, h'.lists, d, h.chain[i], r)
    && h'.used == h.used + OVERHEAD + if h.chain[i].size < r + OVERHEAD + MIN_BLOCK then h.chain[i].size else r
  }

  lemma ChainOfGrant(s: seq<Block>, i: nat, r: nat)
    requires i < |s|
    ensures ChainTaken(s, Splice(s, i, i, Grant(s[i], r)), i, r)
  {
    if s[i].size < r + HEADER {
      assert s[..i] + [s[i].(free := false)] + s[i + 1..] == s[i := s[i].(free := false)];
    }
  }

  lemma ListsOfGrant(lists: seq<seq<int>>, d: nat, b: Block, r: nat)
    requires |lists| == CLASSES && d < CLASSES && lists[d] != []
    ensures var popped := lists[d := lists[d][1..]];
            ListsTaken(lists, if b.size >= r + HEADER then Push(popped, Remainder(b, r)) else popped, d, b, r)
  {
  }

  lemma MallocTakes(h: Heap, n: nat) returns (d: nat, i: nat)
    requires Good(h) && n <= MAX_REQUEST && Malloc(h, n).1.Some?
    ensures TakesFrom(h, Malloc(h, n).0, Malloc(h, n).1.value, Request(n).0, Request(n).1, d, i)
  {
    d, i := StartList(h, n), FoundAt(h, n);
    ChainOfGrant(h.chain, i, Request(n).0);
    ListsOfGrant(h.lists, d, h.chain[i], Request(n).0);
  }

  /** Block `i` and its free neighbours became one free block `m`. */
  ghost predicate ChainFreed(s: seq<Block>, s': seq<Block>, i: nat, m: Block) {
    && 0 < i < |s| - 1 && m.free
    && var lo, hi := if s[i - 1].free then i - 1 else i, if s[i + 1].free then i + 1 else i;
       && m.addr == s[lo].addr && m.addr + m.size == s[hi].addr + s[hi].size
       && s' == s[..lo] + [m] + s[hi + 1..]
  }

  /** Block `m` is the head of the list of its class; the free ones of `next` and `prev` have left their lists, and the
      others there keep their order. */
  ghost predicate ListsFreed(lists: seq<seq<int>>, lists': seq<seq<int>>, m: Block, next: Block, prev: Block) {
    && |lists| == CLASSES && |lists'| == CLASSES
    && forall c {:trigger lists'[c]} :: 0 <= c < CLASSES ==>
         lists'[c] == (if c == Class(m.size) then [m.addr] else []) + LessOne(LessOne(lists[c], next, c), prev, c)
  }

  /** A list of class `c` without block `b`, if that is free and of this class. */
  function LessOne(l: seq<int>, b: Block, c: nat): seq<int> {
    if b.free && Class(b.size) == c then Remove(l, b.addr) else l
  }

  lemma UnlinkIsLess(lists: seq<seq<int>>, b: Block, c: nat)
    requires |lists| == CLASSES && c < CLASSES
    ensures (if b.free then Unlink(lists, b) else lists)[c] == LessOne(lists[c], b, c)
  {
  }

  lemma ListsOfFree(h: Heap, i: nat, m: Block)
    requires Good(h) && 0 < i < |h.chain| - 1
    ensures ListsFreed(h.lists, Push(WithoutNeighbours(h, i), m), m, h.chain[i + 1], h.chain[i - 1])
  {
    var next, prev := h.chain[i + 1], h.chain[i - 1];
    var mid := if next.free then Unlink(h.lists, next) else h.lists;
    forall c | 0 <= c < CLASSES
      ensures WithoutNeighbours(h, i)[c] == LessOne(LessOne(h.lists[c], next, c), prev, c)
    {
      UnlinkIsLess(h.lists, next, c);
      UnlinkIsLess(mid, prev, c);
    }
  }

  lemma FreeFiles(h: Heap, p: int) returns (i: nat, m: Block)
    requires Good(h) && Live(h, p)
    ensures 0 < i < |h.chain| - 1 && !h.chain[i].free && h.chain[i].addr + OVERHEAD == p
    ensures ChainFreed(h.chain, Free(h, p).chain, i, m)
    ensures ListsFreed(h.lists, Free(h, p).lists, m, h.chain[i + 1], h.chain[i - 1])
    ensures Free(h, p).used == h.used - (h.chain[i].size + OVERHEAD)
  {
    i := Held(h, p);
    m := Merged(h.chain, i);
    ListsOfFree(h, i, m);
  }

  lemma GrantFits(s: seq<Block>, i: nat, r: nat)
    requires WellFormed(s) && 0 < i < |s| - 1 && s[i].free && s[i].size < LIMIT && MIN_BLOCK <= r <= s[i].size && r % 16 == 0
    ensures FitsAt(s, Splice(s, i, i, Grant(s[i], r)), i, s[i].addr + OVERHEAD, r) && !NoneFits(s, r)
  {
    GrantIsOk(s, i, r);
    assert Splice(s, i, i, Grant(s[i], r))[i] == Granted(s[i], r);
  }

  ghost predicate NoneFits(s: seq<Block>, r: nat) {
    forall j :: 0 <= j < |s| && s[j].free ==> s[j].size < r
  }

  /** The block at `i` was free and is now used, starts at payload `p`, and has `r` to `r + 16` bytes. */
  ghost predicate FitsAt(s: seq<Block>, s': seq<Block>, i: nat, p: int, r: nat) {
    && 0 < i < |s| - 1 && s[i].free && s[i].addr + OVERHEAD == p
    && i < |s'| - 1 && !s'[i].free && s'[i].addr + OVERHEAD == p && r <= s'[i].size <= r + 16
  }

  lemma NoListNoFit(h: Heap, n: nat)
    requires Good(h) && n <= MAX_REQUEST && StartList(h, n) == CLASSES
    ensures NoneFits(h.chain, Request(n).0)
  {
    forall j | 0 <= j < |h.chain| && h.chain[j].free
      ensures h.chain[j].size < Request(n).0
    {
      Fits(h.chain, j);
      var e := Class(h.chain[j].size);
      assert FreeIn(h.chain, j, h.chain[j].addr, e);
      assert IsFree(h.chain, h.chain[j].addr, e);
      assert h.lists[e] != [];
      ClassFits(n, h.chain[j].size);
    }
  }

  // ---------------------------------------------------------------------------------------------------
  // Releases
  // ---------------------------------------------------------------------------------------------------

  /** Membership after the neighbours of a released block are unlinked. */
  lemma WithoutNeighboursMembers(h: Heap, i: nat)
    requires Good(h) && 0 < i < |h.chain| - 1
    ensures var lists := WithoutNeighbours(h, i);
            && (forall c :: 0 <= c < CLASSES ==> NoDup(lists[c]))
            && (forall c: nat, a: int :: c < CLASSES ==>
                  (a in lists[c] <==> a in h.lists[c] && !IsFree([h.chain[i - 1]], a, c) && !IsFree([h.chain[i + 1]], a, c)))
  {
    var prev, next := h.chain[i - 1], h.chain[i + 1];
    Fits(h.chain, i - 1);
    Fits(h.chain, i + 1);
    var mid := if next.free then Unlink(h.lists, next) else h.lists;
    Ordered(h.chain, i - 1, i + 1);
    if next.free {
      UnlinkMembers(h.chain, h.lists, i + 1);
    }
    if prev.free {
      var cp := Class(prev.size);
      assert FreeIn(h.chain, i - 1, prev.addr, cp);
      assert IsFree(h.chain, prev.addr, cp);
      assert prev.addr in h.lists[cp];
      assert prev.addr in mid[cp];
      RemoveMembers(mid[cp], prev.addr);
    }
    forall c: nat, a: int | c < CLASSES
      ensures a in WithoutNeighbours(h, i)[c] <==>
              a in h.lists[c] && !IsFree([prev], a, c) && !IsFree([next], a, c)
    {
      OneFree(prev, a, c);
      OneFree(next, a, c);
    }
  }

  lemma UnlinkMembers(s: seq<Block>, lists: seq<seq<int>>, j: nat)
    requires WellFormed(s) && Indexed(s, lists) && j < |s| && s[j].free
    ensures var r := Unlink(lists, s[j]);
            && s[j].addr in lists[Class(s[j].size)]
            && (forall c :: 0 <= c < CLASSES ==> NoDup(r[c]))
            && (forall c: nat, a: int :: c < CLASSES ==>
                  (a in r[c] <==> a in lists[c] && !(a == s[j].addr && c == Class(s[j].size))))
  {
    var c := Class(s[j].size);
    assert FreeIn(s, j, s[j].addr, c);
    assert IsFree(s, s[j].addr, c);
    RemoveMembers(lists[c], s[j].addr);
  }

  lemma MergedRange(s: seq<Block>, i: nat)
    requires WellFormed(s) && 0 < i < |s| - 1
    ensures 0 < First(s, i) <= i <= Last(s, i) < |s| - 1
    ensures !s[i].free ==> !s[First(s, i) - 1].free && !s[Last(s, i) + 1].free
    ensures s[First(s, i)].addr <= s[i].addr <= s[Last(s, i)].addr
  {
    Neighbours(s, i);
    if s[i - 1].free {
      Neighbours(s, i - 1);
    }
    if s[i + 1].free {
      Neighbours(s, i + 1);
    }
  }

  lemma MergedCovers(s: seq<Block>, i: nat)
    requires WellFormed(s) && 0 < i < |s| - 1
    ensures 0 < First(s, i) <= i <= Last(s, i) < |s| - 1
    ensures !s[i].free ==> !s[First(s, i) - 1].free && !s[Last(s, i) + 1].free
    ensures Covers(s, First(s, i), Last(s, i), [Merged(s, i)])
    ensures Merged(s, i).size >= MIN_BLOCK && Merged(s, i).size % 16 == 0
  {
    MergedRange(s, i);
    MergedAligned(s, i);
    SingleCovers(s, First(s, i), Last(s, i), Merged(s, i));
  }

  lemma SingleCovers(s: seq<Block>, lo: nat, hi: nat, m: Block)
    requires lo <= hi < |s| && m.addr == s[lo].addr && m.End() == s[hi].End()
    ensures Covers(s, lo, hi, [m])
  {
  }

  lemma MergedAligned(s: seq<Block>, i: nat)
    requires WellFormed(s) && 0 < i < |s| - 1
    ensures Merged(s, i).size >= MIN_BLOCK && Merged(s, i).size % 16 == 0
  {
    MergedSize(s, i);
    var a := if s[i - 1].free then s[i - 1].size + OVERHEAD else 0;
    var b := if s[i + 1].free then s[i + 1].size + OVERHEAD else 0;
    SumAligned(s[i].size, a, b);
  }

  lemma SumAligned(x: nat, a: nat, b: nat)
    requires x % 16 == 0 && a % 16 == 0 && b % 16 == 0
    ensures (x + a + b) % 16 == 0
  {
  }

  lemma MergedSize(s: seq<Block>, i: nat)
    requires WellFormed(s) && 0 < i < |s| - 1
    ensures Merged(s, i).addr == (if s[i - 1].free then s[i - 1].addr else s[i].addr)
    ensures Merged(s, i).size == s[i].size + (if s[i - 1].free then s[i - 1].size + OVERHEAD else 0)
                                 + (if s[i + 1].free then s[i + 1].size + OVERHEAD else 0)
    ensures s[i].addr < s[i + 1].addr
  {
    Neighbours(s, i);
  }

  /** A release keeps the blocks adjacent and coalesced, and the lists exact. */
  lemma FreeGood(h: Heap, p: int)
    requires Good(h) && Live(h, p)
    ensures Good(Free(h, p))
  {
    var i := Held(h, p);
    var lo, hi := First(h.chain, i), Last(h.chain, i);
    var m := Merged(h.chain, i);
    MergedCovers(h.chain, i);
    SpliceWellFormed(h.chain, lo, hi, [m]);
    FreeLists(h, i);
    SpliceIndexed(h.chain, lo, hi, [m], h.lists, Push(WithoutNeighbours(h, i), m));
  }

  /** The lists after a release hold what they held, less the absorbed neighbours, plus the merged block. */
  lemma FreeLists(h: Heap, i: nat)
    requires Good(h) && 0 < i < |h.chain| - 1 && !h.chain[i].free
    ensures 0 < First(h.chain, i) <= Last(h.chain, i) < |h.chain| - 1
    ensures var m := Merged(h.chain, i);
            Reindexed(h.chain, First(h.chain, i), Last(h.chain, i), [m], h.lists, Push(WithoutNeighbours(h, i), m))
  {
    var m := Merged(h.chain, i);
    MergedRange(h.chain, i);
    WithoutNeighboursMembers(h, i);
    MergedIsNew(h, i, Class(m.size));
    PushNoDup(WithoutNeighbours(h, i), m);
    forall c: nat, a: int | c < CLASSES
      ensures a in Push(WithoutNeighbours(h, i), m)[c] <==>
              (a in h.lists[c] && !IsFree(h.chain[First(h.chain, i)..Last(h.chain, i) + 1], a, c)) || IsFree([m], a, c)
    {
      OneFree(m, a, c);
      ThreeFree(h.chain, i, a, c);
    }
  }

  lemma PushNoDup(lists: seq<seq<int>>, m: Block)
    requires |lists| == CLASSES && (forall c :: 0 <= c < CLASSES ==> NoDup(lists[c]))
    requires m.addr !in lists[Class(m.size)]
    ensures forall c :: 0 <= c < CLASSES ==> NoDup(Push(lists, m)[c])
  {
  }

  /** The address of the merged block is on no list once the neighbours have left. */
  lemma MergedIsNew(h: Heap, i: nat, c: nat)
    requires Good(h) && 0 < i < |h.chain| - 1 && !h.chain[i].free && c < CLASSES
    ensures Merged(h.chain, i).addr !in WithoutNeighbours(h, i)[c]
  {
    var a := Merged(h.chain, i).addr;
    WithoutNeighboursMembers(h, i);
    OneFree(h.chain[i - 1], a, c);
    if a in h.lists[c] {
      assert IsFree(h.chain, a, c);
      var j :| FreeIn(h.chain, j, a, c);
      Distinct(h.chain, j, First(h.chain, i));
    }
  }

  /** The free blocks absorbed by a release are the free neighbours of the released block. */
  lemma ThreeFree(s: seq<Block>, i: nat, a: int, c: nat)
    requires WellFormed(s) && 0 < i < |s| - 1 && !s[i].free
    ensures IsFree(s[First(s, i)..Last(s, i) + 1], a, c) <==>
            IsFree([s[i - 1]], a, c) || IsFree([s[i + 1]], a, c)
  {
    var lo, hi := First(s, i), Last(s, i);
    var seg := s[lo..hi + 1];
    if IsFree(seg, a, c) {
      var j :| FreeIn(seg, j, a, c);
      assert lo + j == i - 1 || lo + j == i + 1;
      assert FreeIn([s[lo + j]], 0, a, c);
    }
    if IsFree([s[i - 1]], a, c) {
      assert FreeIn([s[i - 1]], 0, a, c);
      assert FreeIn(seg, 0, a, c);
    }
    if IsFree([s[i + 1]], a, c) {
      assert FreeIn([s[i + 1]], 0, a, c);
      assert FreeIn(seg, hi - lo, a, c);
    }
  }

  // ---------------------------------------------------------------------------------------------------
  // Live blocks
  // ---------------------------------------------------------------------------------------------------

  /** A caller holds the block with payload `[p, p + size)`. */
  ghost predicate Holds(h: Heap, p: int, size: nat) {
    exists j :: LiveAt(h, j, p) && h.chain[j].size == size
  }

  /** Payloads held at the same time never overlap. */
  lemma PayloadsDisjoint(h: Heap, p: int, m: nat, q: int, n: nat)
    requires Good(h) && Holds(h, p, m) && Holds(h, q, n)
    ensures (p == q && m == n) || p + m <= q || q + n <= p
  {
    var i :| LiveAt(h, i, p) && h.chain[i].size == m;
    var j :| LiveAt(h, j, q) && h.chain[j].size == n;
    if i < j { Ordered(h.chain, i, j); } else if j < i { Ordered(h.chain, j, i); }
  }

  /** Splicing changes no block outside the replaced ones. */
  lemma SpliceHolds(h: Heap, h': Heap, lo: nat, hi: nat, bs: seq<Block>, q: int, size: nat)
    requires WellFormed(h.chain) && 0 < lo <= hi < |h.chain| - 1 && |bs| >= 1
    requires h'.chain == Splice(h.chain, lo, hi, bs)
    ensures Holds(h', q, size) <==>
            (exists j :: LiveAt(h, j, q) && h.chain[j].size == size && !(lo <= j <= hi)) ||
            (exists j :: 0 <= j < |bs| && UsedAt(bs, j, q, size))
  {
    var d := hi + 1 - lo - |bs|;
    if Holds(h', q, size) {
      var j :| LiveAt(h', j, q) && h'.chain[j].size == size;
      if j < lo {
        assert LiveAt(h, j, q);
      } else if j < lo + |bs| {
        assert UsedAt(bs, j - lo, q, size);
      } else {
        assert LiveAt(h, j + d, q);
      }
    }
    if j :| LiveAt(h, j, q) && h.chain[j].size == size && !(lo <= j <= hi) {
      assert LiveAt(h', if j < lo then j else j - d, q);
    }
    if j :| 0 <= j < |bs| && UsedAt(bs, j, q, size) {
      assert LiveAt(h', lo + j, q);
    }
  }

  ghost predicate UsedAt(bs: seq<Block>, j: nat, q: int, size: nat)
    requires j < |bs|
  {
    !bs[j].free && bs[j].addr + OVERHEAD == q && bs[j].size == size
  }

  /** The head of the blocks that a grant leaves is the one block they hold. */
  lemma GrantUsed(b: Block, r: nat, q: int, size: nat)
    ensures (exists j :: 0 <= j < |Grant(b, r)| && UsedAt(Grant(b, r), j, q, size)) <==>
            q == b.addr + OVERHEAD && size == Granted(b, r).size
  {
    var g := Grant(b, r);
    if q == b.addr + OVERHEAD && size == Granted(b, r).size {
      assert UsedAt(g, 0, q, size);
    }
  }

  lemma FreeNotHeld(h: Heap, i: nat, q: int, size: nat)
    requires i < |h.chain| && h.chain[i].free
    ensures (exists j :: LiveAt(h, j, q) && h.chain[j].size == size && !(i <= j <= i)) <==> Holds(h, q, size)
  {
    if Holds(h, q, size) {
      var j :| LiveAt(h, j, q) && h.chain[j].size == size;
      assert j != i;
    }
  }

  lemma GrantHolds(h: Heap, h': Heap, i: nat, r: nat, q: int, size: nat)
    requires Good(h) && 0 < i < |h.chain| - 1 && h.chain[i].free && h'.chain == Splice(h.chain, i, i, Grant(h.chain[i], r))
    ensures Holds(h', q, size) <==>
            Holds(h, q, size) || (q == h.chain[i].addr + OVERHEAD && size == Granted(h.chain[i], r).size)
  {
    SpliceHolds(h, h', i, i, Grant(h.chain[i], r), q, size);
    GrantUsed(h.chain[i], r, q, size);
    FreeNotHeld(h, i, q, size);
  }

  /** A grant adds one held block, which was not held before, and changes no other. */
  lemma MallocHolds(h: Heap, n: nat, q: int, size: nat)
    requires Good(h) && n <= MAX_REQUEST && Malloc(h, n).1.Some?
    ensures var p := Malloc(h, n).1.value;
            var b := Granted(h.chain[FoundAt(h, n)], Request(n).0);
            && !Live(h, p)
            && (Holds(Malloc(h, n).0, q, size) <==> Holds(h, q, size) || (q == p && size == b.size))
  {
    var i := FoundAt(h, n);
    GrantHolds(h, Malloc(h, n).0, i, Request(n).0, q, size);
    NotLiveAt(h, i);
  }

  lemma NotLiveAt(h: Heap, i: nat)
    requires WellFormed(h.chain) && i < |h.chain| && h.chain[i].free
    ensures !Live(h, h.chain[i].addr + OVERHEAD)
  {
    if Live(h, h.chain[i].addr + OVERHEAD) {
      var j :| LiveAt(h, j, h.chain[i].addr + OVERHEAD);
      Distinct(h.chain, i, j);
    }
  }

  /** A release removes the released block and changes no other held block. */
  lemma FreeHolds(h: Heap, p: int, q: int, size: nat)
    requires Good(h) && Live(h, p)
    ensures Holds(Free(h, p), q, size) <==> Holds(h, q, size) && q != p
  {
    var i := Held(h, p);
    MergedCovers(h.chain, i);
    SpliceHolds(h, Free(h, p), First(h.chain, i), Last(h.chain, i), [Merged(h.chain, i)], q, size);
    OutsideMerged(h, i, q, size);
  }

  /** Of the blocks that a release replaces, the released one is the only one that was held. */
  lemma OutsideMerged(h: Heap, i: nat, q: int, size: nat)
    requires WellFormed(h.chain) && 0 < i < |h.chain| - 1 && !h.chain[i].free
    ensures (exists j :: LiveAt(h, j, q) && h.chain[j].size == size && !(First(h.chain, i) <= j <= Last(h.chain, i))) <==>
            Holds(h, q, size) && q != h.chain[i].addr + OVERHEAD
  {
    var s := h.chain;
    var lo, hi := First(s, i), Last(s, i);
    if j :| LiveAt(h, j, q) && s[j].size == size && !(lo <= j <= hi) {
      if q == s[i].addr + OVERHEAD {
        Distinct(s, i, j);
      }
    }
    if Holds(h, q, size) && q != s[i].addr + OVERHEAD {
      var j :| LiveAt(h, j, q) && s[j].size == size;
      assert j < lo || hi < j;
    }
  }

  // ---------------------------------------------------------------------------------------------------
  // Releasing undoes granting
  // ---------------------------------------------------------------------------------------------------

  /** Releasing a block right after it was granted gives the heap back as it was: blocks, contents and order
      of every list, and the used-bytes statistic, whether or not the block had been split. */
  lemma FreeUndoesMalloc(h: Heap, n: nat)
    requires Good(h) && n <= MAX_REQUEST && Malloc(h, n).1.Some?
    ensures var (h', p) := (Malloc(h, n).0, Malloc(h, n).1.value);
            Good(h') && Live(h', p) && Free(h', p) == h
  {
    var r := Request(n).0;
    var (h', p) := (Malloc(h, n).0, Malloc(h, n).1.value);
    var i := FoundAt(h, n);
    GrantCovers(h, n);
    MallocGood(h, n);
    assert LiveAt(h', i, p);
    FindAt(h'.chain, i);
    assert Held(h', p) == i;
    GrantMergesBack(h.chain, i, r);
    ListsRestored(h, n);
  }

  /** The blocks of a grant merge back into the block they were cut from. */
  lemma GrantMergesBack(s: seq<Block>, i: nat, r: nat)
    requires WellFormed(s) && 0 < i < |s| - 1 && s[i].free && r <= s[i].size
    requires WellFormed(Splice(s, i, i, Grant(s[i], r)))
    ensures var t := Splice(s, i, i, Grant(s[i], r));
            && First(t, i) == i && Last(t, i) == i + |Grant(s[i], r)| - 1
            && Merged(t, i) == s[i]
            && Splice(t, First(t, i), Last(t, i), [Merged(t, i)]) == s
  {
    Neighbours(s, i);
    var g := Grant(s[i], r);
    var t := Splice(s, i, i, g);
    assert t[i - 1] == s[i - 1] && t[i] == g[0];
    if |g| == 2 {
      assert t[i + 1] == g[1] && t[i + 2..] == s[i + 1..];
    } else {
      assert t[i + 1] == s[i + 1] && t[i + 1..] == s[i + 1..];
    }
    assert t[..i] == s[..i];
    assert s == s[..i] + [s[i]] + s[i + 1..];
  }

  /** The remainder is unlinked from the head of its list, and the block pushed where it was taken from. */
  lemma ListsRestored(h: Heap, n: nat)
    requires Good(h) && n <= MAX_REQUEST && StartList(h, n) < CLASSES && Good(Malloc(h, n).0)
    requires var i := FoundAt(h, n);
             var t := Malloc(h, n).0.chain;
             i < |t| - 1 && First(t, i) == i && Last(t, i) == i + |Grant(h.chain[i], Request(n).0)| - 1
    ensures Push(WithoutNeighbours(Malloc(h, n).0, FoundAt(h, n)), h.chain[FoundAt(h, n)]) == h.lists
  {
    var r := Request(n).0;
    var d := StartList(h, n);
    var i := FoundAt(h, n);
    var b := h.chain[i];
    var h' := Malloc(h, n).0;
    var popped := h.lists[d := h.lists[d][1..]];
    assert h.lists[d] == [b.addr] + h.lists[d][1..];
    if b.size >= r + HEADER {
      assert h'.chain[i + 1] == Remainder(b, r);
      PushUnlink(popped, Remainder(b, r));
    }
    assert WithoutNeighbours(h', i) == popped;
  }

  lemma PushUnlink(lists: seq<seq<int>>, b: Block)
    requires |lists| == CLASSES
    ensures Unlink(Push(lists, b), b) == lists
  {
    var c := Class(b.size);
    assert Remove([b.addr] + lists[c], b.addr) == lists[c];
  }

  // ---------------------------------------------------------------------------------------------------
  // Conservation
  // ---------------------------------------------------------------------------------------------------

  /** Bytes taken by the free blocks, headers included. */
  function FreeBytes(s: seq<Block>): int {
    if s == [] then 0 else (if s[0].free then s[0].size + OVERHEAD else 0) + FreeBytes(s[1..])
  }

  lemma {:induction false} FreeBytesConcat(s: seq<Block>, t: seq<Block>)
    ensures FreeBytes(s + t) == FreeBytes(s) + FreeBytes(t)
  {
    if s == [] {
      assert s + t == t;
    } else {
      assert (s + t)[1..] == s[1..] + t;
      FreeBytesConcat(s[1..], t);
    }
  }

  lemma FreeBytesSplice(s: seq<Block>, lo: nat, hi: nat, bs: seq<Block>)
    requires lo <= hi < |s|
    ensures FreeBytes(Splice(s, lo, hi, bs)) == FreeBytes(s) - FreeBytes(s[lo..hi + 1]) + FreeBytes(bs)
  {
    FreeBytesConcat(s[..lo] + bs, s[hi + 1..]);
    FreeBytesConcat(s[..lo], bs);
    FreeBytesConcat(s[..lo] + s[lo..hi + 1], s[hi + 1..]);
    FreeBytesConcat(s[..lo], s[lo..hi + 1]);
    assert s == s[..lo] + s[lo..hi + 1] + s[hi + 1..];
  }

  lemma MallocConserves(h: Heap, n: nat)
    requires Good(h) && n <= MAX_REQUEST
    ensures var h' := Malloc(h, n).0;
            h'.used + FreeBytes(h'.chain) == h.used + FreeBytes(h.chain)
  {
    if Malloc(h, n).1.Some? {
      var i := FoundAt(h, n);
      var b := h.chain[i];
      FreeBytesSplice(h.chain, i, i, Grant(b, Request(n).0));
      assert h.chain[i..i + 1] == [b];
      GrantBytes(b, Request(n).0);
    }
  }

  lemma GrantBytes(b: Block, r: nat)
    requires b.free && r <= b.size
    ensures FreeBytes([b]) == Granted(b, r).size + OVERHEAD + FreeBytes(Grant(b, r))
  {
    if b.size >= r + HEADER {
      FreeBytesConcat([Granted(b, r)], [Remainder(b, r)]);
      assert Grant(b, r) == [Granted(b, r)] + [Remainder(b, r)];
    }
  }

  lemma FreeConserves(h: Heap, p: int)
    requires Good(h) && Live(h, p)
    ensures var h' := Free(h, p);
            h'.used + FreeBytes(h'.chain) == h.used + FreeBytes(h.chain)
  {
    var i := Held(h, p);
    var s := h.chain;
    MergedCovers(s, i);
    FreeBytesSplice(s, First(s, i), Last(s, i), [Merged(s, i)]);
    MergedBytes(s, i);
  }

  lemma CutAt(s: seq<Block>, lo: nat, i: nat, hi: nat)
    requires lo <= i <= hi < |s|
    ensures s[lo..hi + 1] == s[lo..i] + [s[i]] + s[i + 1..hi + 1]
  {
  }

  lemma MergedBytes(s: seq<Block>, i: nat)
    requires WellFormed(s) && 0 < i < |s| - 1 && !s[i].free
    ensures First(s, i) <= Last(s, i) < |s| &&
            FreeBytes([Merged(s, i)]) == FreeBytes(s[First(s, i)..Last(s, i) + 1]) + s[i].size + OVERHEAD
  {
    var lo, hi := First(s, i), Last(s, i);
    Neighbours(s, i);
    var before := if lo < i then [s[i - 1]] else [];
    var after := if i < hi then [s[i + 1]] else [];
    assert before == s[lo..i] && after == s[i + 1..hi + 1];
    CutAt(s, lo, i, hi);
    FreeBytesConcat(before + [s[i]], after);
    FreeBytesConcat(before, [s[i]]);
  }

  // ---------------------------------------------------------------------------------------------------
  // Runs
  // ---------------------------------------------------------------------------------------------------

  datatype Op = Alloc(n: nat) | Release(p: int)

  /** Requests stay below the bound; only blocks that are held are released (releasing NULL does nothing). */
  ghost predicate Legal(h: Heap, op: Op) {
    match op
    case Alloc(n) => n <= MAX_REQUEST
    case Release(p) => p == 0 || Live(h, p)
  }

  ghost function Step(h: Heap, op: Op): Heap
    requires Good(h) && Legal(h, op)
  {
    match op
    case Alloc(n) => Malloc(h, n).0
    case Release(p) => if p == 0 then h else Free(h, p)
  }

  lemma StepLaws(h: Heap, op: Op)
    requires Good(h) && Legal(h, op)
    ensures Good(Step(h, op)) && SameFrame(h, Step(h, op))
  {
    match op
    case Alloc(n) =>
      MallocFrame(h, n);
    case Release(p) =>
      if p != 0 {
        FreeFrame(h, p);
      }
  }

  lemma SpliceEnds(s: seq<Block>, i: nat, g: seq<Block>)
    requires 0 < i < |s| - 1 && g != []
    ensures Splice(s, i, i, g)[0] == s[0] && Splice(s, i, i, g)[|Splice(s, i, i, g)| - 1] == s[|s| - 1]
  {
  }

  lemma MallocEnds(h: Heap, n: nat)
    requires Good(h) && n <= MAX_REQUEST
    ensures var c, c' := h.chain, Malloc(h, n).0.chain;
            c' != [] && c'[0] == c[0] && c'[|c'| - 1] == c[|c| - 1]
  {
    if StartList(h, n) < CLASSES {
      var i := FoundAt(h, n);
      SpliceEnds(h.chain, i, Grant(h.chain[i], Request(n).0));
    }
  }

  lemma MallocFrame(h: Heap, n: nat)
    requires Good(h) && n <= MAX_REQUEST
    ensures Good(Malloc(h, n).0) && SameFrame(h, Malloc(h, n).0)
  {
    MallocGood(h, n);
    MallocConserves(h, n);
    MallocEnds(h, n);
  }

  lemma FreeFrame(h: Heap, p: int)
    requires Good(h) && Live(h, p)
    ensures Good(Free(h, p)) && SameFrame(h, Free(h, p))
  {
    FreeGood(h, p);
    FreeConserves(h, p);
    MergedRange(h.chain, Held(h, p));
  }

  /** What no operation changes: the area header, the sentinel, and used plus free bytes. */
  ghost predicate SameFrame(h: Heap, h': Heap)
    requires Good(h) && Good(h')
  {
    && h'.chain[0] == h.chain[0] && h'.chain[|h'.chain| - 1] == h.chain[|h.chain| - 1]
    && h'.used + FreeBytes(h'.chain) == h.used + FreeBytes(h.chain)
  }

  ghost predicate LegalRun(h: Heap, ops: seq<Op>)
    requires Good(h)
    decreases |ops|
  {
    ops == [] || (Legal(h, ops[0]) && (StepLaws(h, ops[0]); LegalRun(Step(h, ops[0]), ops[1..])))
  }

  ghost function Run(h: Heap, ops: seq<Op>): Heap
    requires Good(h) && LegalRun(h, ops)
    decreases |ops|
  {
    if ops == [] then h else StepLaws(h, ops[0]); Run(Step(h, ops[0]), ops[1..])
  }

  /** Any run keeps the heap good, its two ends fixed and its bytes conserved. */
  lemma {:induction false} RunLaws(h: Heap, ops: seq<Op>)
    requires Good(h) && LegalRun(h, ops)
    ensures Good(Run(h, ops)) && SameFrame(h, Run(h, ops))
    decreases |ops|
  {
    if ops != [] {
      StepLaws(h, ops[0]);
      var h1 := Step(h, ops[0]);
      RunLaws(h1, ops[1..]);
      FrameTransitive(h, h1, Run(h1, ops[1..]));
    }
  }

  lemma FrameTransitive(a: Heap, b: Heap, c: Heap)
    requires Good(a) && Good(b) && Good(c) && SameFrame(a, b) && SameFrame(b, c)
    ensures SameFrame(a, c)
  {
  }

  /** The heap after initialisation: area header, one free block, sentinel. */
  ghost predicate Fresh(h: Heap) {
    && Good(h) && |h.chain| == 3 && h.chain[1].free && h.chain[1].size < LIMIT
    && (forall c :: 0 <= c < CLASSES ==> h.lists[c] == if c == Class(h.chain[1].size) then [h.chain[1].addr] else [])
  }

  /** No fragmentation survives: once a run has released everything it was granted, in whatever order, the
      heap is the fresh heap again. */
  lemma ReleasedRunRestores(h: Heap, ops: seq<Op>)
    requires Fresh(h) && LegalRun(h, ops)
    requires forall p :: !Live(Run(h, ops), p)
    ensures Run(h, ops) == h
  {
    RunLaws(h, ops);
    var g := Run(h, ops);
    var s := g.chain;
    forall j | 0 < j < |s| - 1
      ensures s[j].free
    {
      assert !Live(g, s[j].addr + OVERHEAD);
      assert !LiveAt(g, j, s[j].addr + OVERHEAD);
    }
    if |s| > 3 {
      var j := SomeUsed(s);
    }
    Neighbours(s, 1);
    Neighbours(h.chain, 1);
    assert s[1] == h.chain[1];
    assert s == h.chain;
    forall c | 0 <= c < CLASSES
      ensures g.lists[c] == h.lists[c]
    {
      SingleList(s, g.lists, c);
    }
    assert g.lists == h.lists;
  }

  lemma SomeUsed(s: seq<Block>) returns (j: nat)
    requires WellFormed(s) && |s| > 3
    ensures 0 < j < |s| - 1 && !s[j].free
  {
    Neighbours(s, 1);
    j := if s[1].free then 2 else 1;
  }

  lemma AllEqual(l: seq<int>, a: int)
    requires NoDup(l) && forall x :: x in l ==> x == a
    ensures |l| <= 1 && (a in l ==> l == [a]) && (a !in l ==> l == [])
  {
    if |l| > 0 {
      assert l[0] in l;
      assert l[|l| - 1] in l;
    }
  }

  lemma SingleList(s: seq<Block>, lists: seq<seq<int>>, c: nat)
    requires WellFormed(s) && Indexed(s, lists) && |s| == 3 && s[1].free && c < CLASSES
    ensures lists[c] == if c == Class(s[1].size) then [s[1].addr] else []
  {
    var a := s[1].addr;
    forall x | x in lists[c]
      ensures x == a && c == Class(s[1].size)
    {
      assert IsFree(s, x, c);
      var j :| FreeIn(s, j, x, c);
    }
    AllEqual(lists[c], a);
    if c == Class(s[1].size) {
      assert FreeIn(s, 1, a, c);
      assert IsFree(s, a, c);
    }
  }
}
