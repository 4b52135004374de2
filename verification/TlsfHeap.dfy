/** The allocator seen from outside its pointers: a chain of adjacent blocks and one list of free blocks per
    size class.  `Malloc` and `Free` are the specification of the imperative allocator in `Tlsf`; the laws of
    a heap are proved here about every state and every run. */
module TlsfHeap {
  import opened TlsfClasses
  import opened Wrappers

  datatype Block = Block(addr: int, size: nat, free: bool) {
    function End(): int { addr + OVERHEAD + size }
  }

  /** `lists[c]` holds the addresses of the free blocks of class `c`, most recently freed first; `used` is the
      statistic kept by TLSF_ADD_SIZE and TLSF_REMOVE_SIZE. */
  datatype Heap = Heap(chain: seq<Block>, lists: seq<seq<int>>, used: int)

  // ---------------------------------------------------------------------------------------------------
  // The chain of blocks
  // ---------------------------------------------------------------------------------------------------

  /** Blocks follow one another without gap or overlap. */
  ghost predicate Tiled(s: seq<Block>) {
    forall i, j :: 0 <= i && i + 1 == j < |s| ==> s[i].End() == s[j].addr
  }

  /** No two neighbours are both free. */
  ghost predicate Coalesced(s: seq<Block>) {
    forall i, j :: 0 <= i && i + 1 == j < |s| ==> !(s[i].free && s[j].free)
  }

  /** The chain runs from the area header block, which stays used, up to a used block of size zero. */
  ghost predicate WellFormed(s: seq<Block>) {
    && |s| >= 3 && Tiled(s) && Coalesced(s)
    && !s[0].free && s[0].size == MIN_BLOCK && s[0].addr > 0
    && !s[|s| - 1].free && s[|s| - 1].size == 0
    && (forall j :: 0 <= j < |s| - 1 ==> s[j].size >= MIN_BLOCK && s[j].size % 16 == 0)
    && s[|s| - 1].addr - s[0].addr <= LIMIT
  }

  lemma {:induction false} Ordered(s: seq<Block>, i: int, j: int)
    requires Tiled(s) && 0 <= i < j < |s|
    ensures s[i].End() <= s[j].addr
    decreases j
  {
    if i < j - 1 {
      Ordered(s, i, j - 1);
    }
  }

  lemma Distinct(s: seq<Block>, i: int, j: int)
    requires Tiled(s) && 0 <= i < |s| && 0 <= j < |s| && s[i].addr == s[j].addr
    ensures i == j
  {
    if i < j { Ordered(s, i, j); } else if j < i { Ordered(s, j, i); }
  }

  lemma Fits(s: seq<Block>, j: int)
    requires WellFormed(s) && 0 <= j < |s|
    ensures s[j].size < LIMIT && s[0].addr <= s[j].addr
  {
    if 0 < j { Ordered(s, 0, j); }
    if j < |s| - 1 { Ordered(s, j, |s| - 1); }
  }

  /** The position of the block at address `a`, or `|s|`. */
  function Find(s: seq<Block>, a: int): (i: nat)
    ensures i <= |s| && (i < |s| ==> s[i].addr == a)
    ensures i == |s| ==> forall j :: 0 <= j < |s| ==> s[j].addr != a
  {
    if s == [] then 0 else if s[0].addr == a then 0 else 1 + Find(s[1..], a)
  }

  lemma FindAt(s: seq<Block>, i: int)
    requires Tiled(s) && 0 <= i < |s|
    ensures Find(s, s[i].addr) == i
  {
    Distinct(s, Find(s, s[i].addr), i);
  }

  /** Replaces the blocks `lo..hi` (inclusive) by `bs`. */
  function Splice(s: seq<Block>, lo: nat, hi: nat, bs: seq<Block>): seq<Block>
    requires lo <= hi < |s|
  {
    s[..lo] + bs + s[hi + 1..]
  }

  /** `bs` covers exactly the bytes that the blocks `lo..hi` cover. */
  ghost predicate Covers(s: seq<Block>, lo: nat, hi: nat, bs: seq<Block>)
    requires lo <= hi < |s|
  {
    |bs| >= 1 && Tiled(bs) && bs[0].addr == s[lo].addr && bs[|bs| - 1].End() == s[hi].End()
  }

  lemma SpliceWellFormed(s: seq<Block>, lo: nat, hi: nat, bs: seq<Block>)
    requires WellFormed(s) && 0 < lo <= hi < |s| - 1 && Covers(s, lo, hi, bs) && Coalesced(bs)
    requires bs[0].free ==> !s[lo - 1].free
    requires bs[|bs| - 1].free ==> !s[hi + 1].free
    requires forall j :: 0 <= j < |bs| ==> bs[j].size >= MIN_BLOCK && bs[j].size % 16 == 0
    ensures WellFormed(Splice(s, lo, hi, bs))
  {
    var t := Splice(s, lo, hi, bs);
    var d := hi + 1 - lo - |bs|;
    forall j | 0 <= j < |t|
      ensures j < lo ==> t[j] == s[j]
      ensures lo <= j < lo + |bs| ==> t[j] == bs[j - lo]
      ensures lo + |bs| <= j ==> t[j] == s[j + d]
    {
    }
    forall i, j | 0 <= i && i + 1 == j < |t|
      ensures t[i].End() == t[j].addr && !(t[i].free && t[j].free)
    {
      if lo < j < lo + |bs| {
        assert bs[i - lo].End() == bs[j - lo].addr;
      } else if lo + |bs| < j {
        assert s[i + d].End() == s[j + d].addr;
      }
    }
    assert t[|t| - 1] == s[|s| - 1];
    forall j | 0 <= j < |t| - 1
      ensures t[j].size >= MIN_BLOCK && t[j].size % 16 == 0
    {
      if lo <= j < lo + |bs| {
        assert t[j] == bs[j - lo];
      } else if lo + |bs| <= j {
        assert t[j] == s[j + d];
      }
    }
  }

  // ---------------------------------------------------------------------------------------------------
  // The free lists
  // ---------------------------------------------------------------------------------------------------

  ghost predicate NoDup(l: seq<int>) {
    forall i, j :: 0 <= i < j < |l| ==> l[i] != l[j]
  }

  ghost predicate FreeIn(s: seq<Block>, j: int, a: int, c: nat) {
    0 <= j < |s| && s[j].addr == a && s[j].free && Class(s[j].size) == c
  }

  /** Block `a` is a free block of class `c`. */
  ghost predicate IsFree(s: seq<Block>, a: int, c: nat) {
    exists j :: FreeIn(s, j, a, c)
  }

  /** Every free block is on exactly the list of its class, and lists hold nothing else. */
  ghost predicate Indexed(s: seq<Block>, lists: seq<seq<int>>) {
    && |lists| == CLASSES
    && (forall c :: 0 <= c < CLASSES ==> NoDup(lists[c]))
    && (forall c: nat, a: int :: c < CLASSES ==> (a in lists[c] <==> IsFree(s, a, c)))
  }

  ghost predicate Good(h: Heap) {
    WellFormed(h.chain) && Indexed(h.chain, h.lists)
  }

  function Remove(l: seq<int>, a: int): seq<int> {
    if l == [] then [] else if l[0] == a then l[1..] else [l[0]] + Remove(l[1..], a)
  }

  lemma ConsCut(l: seq<int>, rest: seq<int>, k: nat)
    requires l != [] && rest == l[1..] && 0 < k < |l|
    ensures rest[k - 1] == l[k] && [l[0]] + (rest[..k - 1] + rest[k..]) == l[..k] + l[k + 1..]
  {
  }

  lemma {:induction false} RemoveIs(l: seq<int>, k: nat)
    requires NoDup(l) && k < |l|
    ensures Remove(l, l[k]) == l[..k] + l[k + 1..]
  {
    if k > 0 {
      var rest := l[1..];
      ConsCut(l, rest, k);
      RemoveIs(rest, k - 1);
      assert Remove(l, l[k]) == [l[0]] + Remove(rest, rest[k - 1]);
    } else {
      assert l[..0] + l[1..] == l[1..];
    }
  }

  lemma CutNoDup(l: seq<int>, k: nat)
    requires NoDup(l) && k < |l|
    ensures NoDup(l[..k] + l[k + 1..])
  {
    var r := l[..k] + l[k + 1..];
    assert forall i :: 0 <= i < |r| ==> r[i] == l[if i < k then i else i + 1];
  }

  lemma {:induction false} RemoveHas(l: seq<int>, a: int, x: int)
    requires NoDup(l) && a in l
    ensures x in Remove(l, a) <==> x in l && x != a
  {
    var rest := l[1..];
    assert l == [l[0]] + rest;
    if l[0] != a { RemoveHas(rest, a, x); }
  }

  lemma RemoveMembers(l: seq<int>, a: int)
    requires NoDup(l) && a in l
    ensures NoDup(Remove(l, a)) && forall x :: x in Remove(l, a) <==> x in l && x != a
  {
    var k :| 0 <= k < |l| && l[k] == a;
    RemoveIs(l, k);
    CutNoDup(l, k);
    forall x
      ensures x in Remove(l, a) <==> x in l && x != a
    {
      RemoveHas(l, a, x);
    }
  }

  function Unlink(lists: seq<seq<int>>, b: Block): (r: seq<seq<int>>)
    requires |lists| == CLASSES
    ensures |r| == CLASSES
  {
    var c := Class(b.size);
    lists[c := Remove(lists[c], b.addr)]
  }

  function Push(lists: seq<seq<int>>, b: Block): (r: seq<seq<int>>)
    requires |lists| == CLASSES
    ensures |r| == CLASSES
  {
    var c := Class(b.size);
    lists[c := [b.addr] + lists[c]]
  }

  /** The lists lost the free blocks among `s[lo..hi]` (inclusive) and gained those of `bs`. */
  ghost predicate Reindexed(s: seq<Block>, lo: nat, hi: nat, bs: seq<Block>, lists: seq<seq<int>>, lists': seq<seq<int>>)
    requires lo <= hi < |s| && |lists| == CLASSES
  {
    && |lists'| == CLASSES
    && (forall c :: 0 <= c < CLASSES ==> NoDup(lists'[c]))
    && (forall c: nat, a: int :: c < CLASSES ==>
          (a in lists'[c] <==> (a in lists[c] && !IsFree(s[lo..hi + 1], a, c)) || IsFree(bs, a, c)))
  }

  /** Splicing the chain keeps the index right when the lists change so. */
  lemma SpliceIndexed(s: seq<Block>, lo: nat, hi: nat, bs: seq<Block>, lists: seq<seq<int>>, lists': seq<seq<int>>)
    requires Tiled(s) && lo <= hi < |s| && Indexed(s, lists) && Reindexed(s, lo, hi, bs, lists, lists')
    ensures Indexed(Splice(s, lo, hi, bs), lists')
  {
    var t := Splice(s, lo, hi, bs);
    var d := hi + 1 - lo - |bs|;
    forall c: nat, a: int | c < CLASSES
      ensures a in lists'[c] <==> IsFree(t, a, c)
    {
      if a in lists'[c] {
        if IsFree(bs, a, c) {
          var j :| FreeIn(bs, j, a, c);
          assert FreeIn(t, lo + j, a, c);
        } else {
          assert IsFree(s, a, c);
          var j :| FreeIn(s, j, a, c);
          if lo <= j <= hi {
            assert FreeIn(s[lo..hi + 1], j - lo, a, c);
          }
          assert FreeIn(t, if j < lo then j else j - d, a, c);
        }
      }
      if IsFree(t, a, c) {
        var j :| FreeIn(t, j, a, c);
        if lo <= j < lo + |bs| {
          assert FreeIn(bs, j - lo, a, c);
        } else {
          var i := if j < lo then j else j + d;
          assert FreeIn(s, i, a, c);
          if IsFree(s[lo..hi + 1], a, c) {
            var m :| FreeIn(s[lo..hi + 1], m, a, c);
            Distinct(s, i, lo + m);
          }
        }
      }
    }
  }

  // ---------------------------------------------------------------------------------------------------
  // The operations
  // ---------------------------------------------------------------------------------------------------

  /** The first non-empty list at or after class `c`, or CLASSES. */
  function FirstList(lists: seq<seq<int>>, c: nat): (d: nat)
    requires |lists| == CLASSES && c <= CLASSES
    ensures c <= d <= CLASSES && (d < CLASSES ==> lists[d] != [])
    ensures forall e :: c <= e < d ==> lists[e] == []
    decreases CLASSES - c
  {
    if c == CLASSES || lists[c] != [] then c else FirstList(lists, c + 1)
  }

  /** The used block that a grant leaves, and the free remainder when the block is split. */
  function Granted(b: Block, r: nat): Block {
    if b.size >= r + HEADER then Block(b.addr, r, false) else b.(free := false)
  }

  function Remainder(b: Block, r: nat): (q: Block)
    requires b.size >= r + HEADER
    ensures q.size < b.size
  {
    Block(b.addr + OVERHEAD + r, b.size - r - OVERHEAD, true)
  }

  function Grant(b: Block, r: nat): seq<Block> {
    if b.size >= r + HEADER then [Granted(b, r), Remainder(b, r)] else [Granted(b, r)]
  }

  function Malloc(h: Heap, n: nat): (q: (Heap, Option<int>))
    requires Good(h) && n <= MAX_REQUEST
  {
    var r := Request(n).0;
    var d := StartList(h, n);
    if d == CLASSES then (h, None)
    else
      var i := FoundAt(h, n);
      var b := h.chain[i];
      var lists := h.lists[d := h.lists[d][1..]];
      var lists' := if b.size >= r + HEADER then Push(lists, Remainder(b, r)) else lists;
      (Heap(Splice(h.chain, i, i, Grant(b, r)), lists', h.used + Granted(b, r).size + OVERHEAD),
       Some(b.addr + OVERHEAD))
  }

  /** The list the granted block is taken from, or CLASSES. */
  function StartList(h: Heap, n: nat): (d: nat)
    requires Good(h) && n <= MAX_REQUEST
    ensures Request(n).1 <= d <= CLASSES && (d < CLASSES ==> h.lists[d] != [])
    ensures forall e :: Request(n).1 <= e < d ==> h.lists[e] == []
  {
    FirstList(h.lists, Request(n).1)
  }

  /** Where the block to be granted stands in the chain. */
  function FoundAt(h: Heap, n: nat): (i: nat)
    requires Good(h) && n <= MAX_REQUEST && StartList(h, n) < CLASSES
    ensures 0 < i < |h.chain| - 1
    ensures FreeIn(h.chain, i, h.lists[StartList(h, n)][0], StartList(h, n))
    ensures h.chain[i].size >= Request(n).0
  {
    var d := StartList(h, n);
    var a := h.lists[d][0];
    var i := Find(h.chain, a);
    assert FreeIn(h.chain, i, a, d) && h.chain[i].size >= Request(n).0 by {
      assert a in h.lists[d];
      assert IsFree(h.chain, a, d);
      var j :| FreeIn(h.chain, j, a, d);
      FindAt(h.chain, j);
      Fits(h.chain, j);
      ClassFits(n, h.chain[j].size);
    }
    i
  }

  /** `p` is the payload address of a block a caller holds. */
  ghost predicate Live(h: Heap, p: int) {
    exists j :: LiveAt(h, j, p)
  }

  ghost predicate LiveAt(h: Heap, j: int, p: int) {
    0 < j < |h.chain| - 1 && !h.chain[j].free && h.chain[j].addr + OVERHEAD == p
  }

  function Held(h: Heap, p: int): (i: nat)
    requires Good(h) && Live(h, p)
    ensures LiveAt(h, i, p)
  {
    var i := Find(h.chain, p - OVERHEAD);
    assert LiveAt(h, i, p) by {
      var j :| LiveAt(h, j, p);
      FindAt(h.chain, j);
    }
    i
  }

  function First(s: seq<Block>, i: nat): nat
    requires 0 < i < |s|
  {
    if s[i - 1].free then i - 1 else i
  }

  function Last(s: seq<Block>, i: nat): nat
    requires i + 1 < |s|
  {
    if s[i + 1].free then i + 1 else i
  }

  /** The free block that replaces block `i` and its free neighbours. */
  function Merged(s: seq<Block>, i: nat): Block
    requires WellFormed(s) && 0 < i < |s| - 1
  {
    var lo, hi := First(s, i), Last(s, i);
    assert s[hi].End() - s[lo].addr - OVERHEAD >= 0 by { if lo < hi { Ordered(s, lo, hi); } }
    Block(s[lo].addr, s[hi].End() - s[lo].addr - OVERHEAD, true)
  }

  lemma MergedFits(s: seq<Block>, i: nat)
    requires WellFormed(s) && 0 < i < |s| - 1
    ensures Merged(s, i).size < LIMIT
  {
    var lo, hi := First(s, i), Last(s, i);
    assert s[hi].size > 0 && s[|s| - 1].size == 0;
    if hi < |s| - 1 { Ordered(s, hi, |s| - 1); }
    Ordered(s, 0, lo);
  }

  /** The lists once the free neighbours of block `i` have left them. */
  function WithoutNeighbours(h: Heap, i: nat): (r: seq<seq<int>>)
    requires Good(h) && 0 < i < |h.chain| - 1
    ensures |r| == CLASSES
  {
    var next, prev := h.chain[i + 1], h.chain[i - 1];
    var lists := if next.free then Unlink(h.lists, next) else h.lists;
    if prev.free then Unlink(lists, prev) else lists
  }

  function Free(h: Heap, p: int): (h': Heap)
    requires Good(h) && Live(h, p)
  {
    var i := Held(h, p);
    var m := Merged(h.chain, i);
    Heap(Splice(h.chain, First(h.chain, i), Last(h.chain, i), [m]),
         Push(WithoutNeighbours(h, i), m),
         h.used - (h.chain[i].size + OVERHEAD))
  }
}
