/** The two-level segregated-fit allocator as it works in memory: boundary tags in front of every block, free
    blocks linked through their payloads, a matrix of list heads and two levels of bitmap words. */
module Tlsf {
  import opened Words
  import opened TlsfClasses
  import opened TlsfHeap
  import opened TlsfLaws
  import opened Wrappers

  /** The `size` word of a header: byte count, FREE_BLOCK bit and PREV_FREE bit. */
  datatype SizeWord = SizeWord(bytes: nat, free: bool, prevFree: bool)

  const WORD: nat := 32             // digits of a bitmap word
  const TLSF_SIZE: nat := 6280      // sizeof(tlsf_t)
  const AREA_OFFSET: nat := 6288    // ROUNDUP_SIZE(sizeof(tlsf_t))
  const NULL := 0

  function Head(l: seq<int>): int {
    if l == [] then NULL else l[0]
  }

  // ---------------------------------------------------------------------------------------------------
  // What the words in memory mean
  // ---------------------------------------------------------------------------------------------------

  /** The tag of block `j`: its own size and state; and, unless `j == x`, the state of its true physical
      predecessor, with a back pointer when that one is free. */
  ghost predicate TagOk(s: seq<Block>, j: int, x: int, word: map<int, SizeWord>, prevHdr: map<int, int>)
    requires 0 <= j < |s|
  {
    && s[j].addr in word
    && word[s[j].addr].bytes == s[j].size && word[s[j].addr].free == s[j].free
    && (j != x ==>
          && word[s[j].addr].prevFree == (j > 0 && s[j - 1].free)
          && (j > 0 && s[j - 1].free ==> s[j].addr in prevHdr && prevHdr[s[j].addr] == s[j - 1].addr))
  }

  ghost predicate TagsOk(s: seq<Block>, x: int, word: map<int, SizeWord>, prevHdr: map<int, int>) {
    forall j :: 0 <= j < |s| ==> TagOk(s, j, x, word, prevHdr)
  }

  lemma TagsWeaker(s: seq<Block>, x: int, word: map<int, SizeWord>, prevHdr: map<int, int>)
    requires TagsOk(s, -1, word, prevHdr)
    ensures TagsOk(s, x, word, prevHdr)
  {
    forall j | 0 <= j < |s|
      ensures TagOk(s, j, x, word, prevHdr)
    {
      assert TagOk(s, j, -1, word, prevHdr);
    }
  }

  /** Node `k` of a list is linked to its neighbours. */
  ghost predicate NodeOk(l: seq<int>, k: int, next: map<int, int>, prev: map<int, int>)
    requires 0 <= k < |l|
  {
    && l[k] != NULL && l[k] in next && l[k] in prev
    && next[l[k]] == (if k + 1 < |l| then l[k + 1] else NULL)
    && prev[l[k]] == (if k > 0 then l[k - 1] else NULL)
  }

  ghost predicate Linked(l: seq<int>, next: map<int, int>, prev: map<int, int>) {
    forall k :: 0 <= k < |l| ==> NodeOk(l, k, next, prev)
  }

  /** No address is twice on the lists. */
  ghost predicate Apart(lists: seq<seq<int>>) {
    && (forall c :: 0 <= c < |lists| ==> NoDup(lists[c]))
    && (forall c, d, a :: 0 <= c < |lists| && 0 <= d < |lists| && a in lists[c] && a in lists[d] ==> c == d)
  }

  lemma RemoveApart(lists: seq<seq<int>>, c: nat, a: int, r: seq<seq<int>>)
    requires Apart(lists) && c < |lists| && a in lists[c] && r == lists[c := Remove(lists[c], a)]
    ensures Apart(r) && forall d :: 0 <= d < |r| ==> a !in r[d]
  {
    RemoveMembers(lists[c], a);
  }

  ghost predicate OnNone(a: int, lists: seq<seq<int>>) {
    |lists| == CLASSES && forall d :: 0 <= d < CLASSES ==> a !in lists[d]
  }

  /** Writing the links of an address that is on no list disturbs no list. */
  lemma LinkedFrame(l: seq<int>, next: map<int, int>, prev: map<int, int>, next': map<int, int>, prev': map<int, int>)
    requires Linked(l, next, prev)
    requires forall a :: a in l && a in next && a in prev ==>
               a in next' && a in prev' && next'[a] == next[a] && prev'[a] == prev[a]
    ensures Linked(l, next', prev')
  {
    forall k | 0 <= k < |l|
      ensures NodeOk(l, k, next', prev')
    {
      assert NodeOk(l, k, next, prev);
      assert l[k] in l;
    }
  }

  /** The pointer surgery of EXTRACT_BLOCK takes node `k` out of its list. */
  lemma ExtractLinks(l: seq<int>, k: nat, next: map<int, int>, prev: map<int, int>, next': map<int, int>, prev': map<int, int>)
    requires NoDup(l) && k < |l| && Linked(l, next, prev)
    requires next' == (if k > 0 then next[l[k - 1] := if k + 1 < |l| then l[k + 1] else NULL] else next)[l[k] := NULL]
    requires prev' == (if k + 1 < |l| then prev[l[k + 1] := if k > 0 then l[k - 1] else NULL] else prev)[l[k] := NULL]
    ensures Linked(l[..k] + l[k + 1..], next', prev')
  {
    var r := l[..k] + l[k + 1..];
    forall j | 0 <= j < |r|
      ensures NodeOk(r, j, next', prev')
    {
      var i := if j < k then j else j + 1;
      assert NodeOk(l, i, next, prev);
      ExtractNode(l, k, i, next, prev, next', prev');
    }
  }

  lemma ExtractNode(l: seq<int>, k: nat, i: nat, next: map<int, int>, prev: map<int, int>, next': map<int, int>, prev': map<int, int>)
    requires NoDup(l) && k < |l| && i < |l| && i != k && NodeOk(l, i, next, prev)
    requires next' == (if k > 0 then next[l[k - 1] := if k + 1 < |l| then l[k + 1] else NULL] else next)[l[k] := NULL]
    requires prev' == (if k + 1 < |l| then prev[l[k + 1] := if k > 0 then l[k - 1] else NULL] else prev)[l[k] := NULL]
    ensures NodeOk(l[..k] + l[k + 1..], if i < k then i else i - 1, next', prev')
  {
    var r := l[..k] + l[k + 1..];
    var j := if i < k then i else i - 1;
    assert r[j] == l[i];
    if j + 1 < |r| { assert r[j + 1] == l[if j + 1 < k then j + 1 else j + 2]; }
    if j > 0 { assert r[j - 1] == l[if j - 1 < k then j - 1 else j]; }
  }

  lemma InsertLinks(l: seq<int>, a: int, next: map<int, int>, prev: map<int, int>, next': map<int, int>, prev': map<int, int>)
    requires Linked(l, next, prev) && a !in l && a != NULL && NoDup(l)
    requires next' == next[a := Head(l)]
    requires prev' == (var p := prev[a := NULL]; if l == [] then p else p[l[0] := a])
    ensures Linked([a] + l, next', prev')
  {
    var r := [a] + l;
    forall j | 0 <= j < |r|
      ensures NodeOk(r, j, next', prev')
    {
      if j > 0 {
        assert r[j] == l[j - 1] && NodeOk(l, j - 1, next, prev);
        assert l[j - 1] in l;
      }
    }
  }

  lemma LinkedNotNull(l: seq<int>, next: map<int, int>, prev: map<int, int>)
    requires Linked(l, next, prev)
    ensures NULL !in l
  {
    forall k | 0 <= k < |l|
      ensures l[k] != NULL
    {
      assert NodeOk(l, k, next, prev);
    }
  }

  /** Every list is linked through its nodes, and no address is twice on the lists. */
  ghost predicate LinksOk(lists: seq<seq<int>>, next: map<int, int>, prev: map<int, int>) {
    && |lists| == CLASSES && Apart(lists)
    && (forall c :: 0 <= c < CLASSES ==> Linked(lists[c], next, prev))
  }

  lemma LinksExtracted(lists: seq<seq<int>>, c: nat, k: nat, next: map<int, int>, prev: map<int, int>, next': map<int, int>, prev': map<int, int>)
    requires LinksOk(lists, next, prev) && c < CLASSES && k < |lists[c]|
    requires var l := lists[c];
             && next' == (if k > 0 then next[l[k - 1] := if k + 1 < |l| then l[k + 1] else NULL] else next)[l[k] := NULL]
             && prev' == (if k + 1 < |l| then prev[l[k + 1] := if k > 0 then l[k - 1] else NULL] else prev)[l[k] := NULL]
    ensures LinksOk(lists[c := Remove(lists[c], lists[c][k])], next', prev')
    ensures forall d :: 0 <= d < CLASSES && d != c ==> lists[c][k] !in lists[d]
    ensures lists[c][k] !in Remove(lists[c], lists[c][k])
  {
    var l := lists[c];
    var lists' := lists[c := Remove(l, l[k])];
    RemoveApart(lists, c, l[k], lists');
    RemoveMembers(l, l[k]);
    RemoveIs(l, k);
    ExtractLinks(l, k, next, prev, next', prev');
    forall d | 0 <= d < CLASSES && d != c
      ensures Linked(lists'[d], next', prev')
    {
      assert Linked(lists[d], next, prev);
      LinkedFrame(lists[d], next, prev, next', prev');
    }
  }

  lemma LinksInserted(lists: seq<seq<int>>, c: nat, b: int, next: map<int, int>, prev: map<int, int>, next': map<int, int>, prev': map<int, int>)
    requires LinksOk(lists, next, prev) && c < CLASSES && b != NULL
    requires forall d :: 0 <= d < CLASSES ==> b !in lists[d]
    requires next' == next[b := Head(lists[c])]
    requires prev' == (var p := prev[b := NULL]; if lists[c] == [] then p else p[lists[c][0] := b])
    ensures LinksOk(lists[c := [b] + lists[c]], next', prev')
  {
    var lists' := lists[c := [b] + lists[c]];
    InsertLinks(lists[c], b, next, prev, next', prev');
    forall d | 0 <= d < CLASSES && d != c
      ensures Linked(lists'[d], next', prev')
    {
      assert Linked(lists[d], next, prev);
      LinkedFrame(lists[d], next, prev, next', prev');
    }
  }

  /** Tags after the blocks `lo..hi` became one free block. */
  lemma TagsMerged(s: seq<Block>, lo: nat, hi: nat, m: Block, x: int,
                   word: map<int, SizeWord>, prevHdr: map<int, int>, word': map<int, SizeWord>, prevHdr': map<int, int>)
    requires Tiled(s) && 0 < lo <= hi < |s| - 1 && Covers(s, lo, hi, [m]) && m.free
    requires TagsOk(s, x, word, prevHdr) && lo < x <= hi + 1 && !s[lo - 1].free
    requires m.addr in word' && word'[m.addr] == SizeWord(m.size, true, false)
    requires var e := s[hi + 1].addr;
             && e in word' && word'[e] == SizeWord(s[hi + 1].size, s[hi + 1].free, true)
             && e in prevHdr' && prevHdr'[e] == m.addr
    requires forall j :: 0 <= j < |s| && (j < lo || hi + 1 < j) ==> SameTag(s[j].addr, word, prevHdr, word', prevHdr')
    ensures TagsOk(Splice(s, lo, hi, [m]), -1, word', prevHdr')
  {
    var t := Splice(s, lo, hi, [m]);
    var d := hi - lo;
    forall j | 0 <= j < |t|
      ensures TagOk(t, j, -1, word', prevHdr')
    {
      if j < lo {
        assert TagOk(s, j, x, word, prevHdr);
      } else if j > lo + 1 {
        assert TagOk(s, j + d, x, word, prevHdr);
        assert t[j - 1] == s[j + d - 1];
      }
    }
  }

  ghost predicate SameTag(a: int, word: map<int, SizeWord>, prevHdr: map<int, int>, word': map<int, SizeWord>, prevHdr': map<int, int>) {
    && (a in word ==> a in word' && word'[a] == word[a])
    && (a in prevHdr ==> a in prevHdr' && prevHdr'[a] == prevHdr[a])
  }

  /** Tags after free block `i` was granted, split or whole. */
  lemma TagsGranted(s: seq<Block>, i: nat, r: nat,
                    word: map<int, SizeWord>, prevHdr: map<int, int>, word': map<int, SizeWord>, prevHdr': map<int, int>)
    requires WellFormed(s) && 0 < i < |s| - 1 && s[i].free && r <= s[i].size && TagsOk(s, -1, word, prevHdr)
    requires var b, e := s[i], s[i + 1].addr;
             var g := Granted(b, r);
             && b.addr in word' && word'[b.addr] == SizeWord(g.size, false, false)
             && e in word' && e in word && e in prevHdr'
             && if b.size >= r + HEADER then
                  var q := Remainder(b, r);
                  && q.addr in word' && word'[q.addr] == SizeWord(q.size, true, false)
                  && word'[e] == word[e] && prevHdr'[e] == q.addr
                else
                  word'[e] == word[e].(prevFree := false)
    requires forall j :: 0 <= j < |s| && (j < i || i + 1 < j) ==> SameTag(s[j].addr, word, prevHdr, word', prevHdr')
    ensures TagsOk(Splice(s, i, i, Grant(s[i], r)), -1, word', prevHdr')
  {
    var g := Grant(s[i], r);
    var t := Splice(s, i, i, g);
    var d := |g| - 1;
    Neighbours(s, i);
    assert TagOk(s, i + 1, -1, word, prevHdr);
    forall j | 0 <= j < |t|
      ensures TagOk(t, j, -1, word', prevHdr')
    {
      if j < i {
        assert TagOk(s, j, -1, word, prevHdr);
      } else if j > i + d + 1 {
        assert TagOk(s, j - d, -1, word, prevHdr);
        assert t[j - 1] == s[j - d - 1];
      } else if j == i + d + 1 {
        assert t[j] == s[i + 1] && t[j - 1] == g[d];
      } else {
        assert t[j] == g[j - i];
      }
    }
  }

  // ---------------------------------------------------------------------------------------------------
  // The allocator
  // ---------------------------------------------------------------------------------------------------

  /** Second-level word `w` of row `f` has a digit for each non-empty list of the row, and no other digit. */
  ghost predicate SecondLevelOk(f: nat, w: nat, lists: seq<seq<int>>)
    requires f < REAL_FLI && |lists| == CLASSES
  {
    w < Pow2(WORD) && forall s: nat :: Bit(w, s) <==> s < MAX_SLI && lists[f * 32 + s] != []
  }

  /** The first-level word has a digit for each non-zero second-level word, and no other digit. */
  ghost predicate FirstLevelOk(w: nat, words: seq<nat>) {
    |words| == REAL_FLI && w < Pow2(WORD) && forall f: nat :: Bit(w, f) <==> f < REAL_FLI && words[f] != 0
  }

  lemma FirstLevelCleared(w: nat, words: seq<nat>, fl: nat, w': nat, words': seq<nat>)
    requires FirstLevelOk(w, words) && fl < REAL_FLI && words[fl] != 0
    requires |words'| == REAL_FLI && words' == words[fl := words'[fl]]
    requires w' == if words'[fl] == 0 then ClearBit(w, fl, WORD) else w
    ensures FirstLevelOk(w', words')
  {
    ClearBitDigits(w, fl, WORD);
    forall f: nat
      ensures Bit(w', f) <==> f < REAL_FLI && words'[f] != 0
    {
      assert Bit(w, f) <==> f < REAL_FLI && words[f] != 0;
    }
  }

  lemma FirstLevelRaised(w: nat, words: seq<nat>, fl: nat, sl: nat, w': nat, words': seq<nat>)
    requires FirstLevelOk(w, words) && fl < REAL_FLI
    requires |words'| == REAL_FLI && words' == words[fl := words'[fl]] && words'[fl] == SetBit(words[fl], sl)
    requires words[fl] < Pow2(WORD) && sl < WORD && w' == SetBit(w, fl)
    ensures FirstLevelOk(w', words')
  {
    SetBitDigits(w, fl, WORD);
    SetBitDigits(words[fl], sl, WORD);
    assert words'[fl] != 0 by { ZeroBit(sl); }
    forall f: nat
      ensures Bit(w', f) <==> f < REAL_FLI && words'[f] != 0
    {
      assert Bit(w, f) <==> f < REAL_FLI && words[f] != 0;
    }
  }

  /** The bitmaps are determined by the lists: when an operation gives the lists back as they were, it gives
      back every bitmap word as it was. */
  lemma BitmapsDetermined(lists: seq<seq<int>>, w: nat, words: seq<nat>, w': nat, words': seq<nat>)
    requires |lists| == CLASSES && FirstLevelOk(w, words) && FirstLevelOk(w', words')
    requires forall f :: 0 <= f < REAL_FLI ==> SecondLevelOk(f, words[f], lists) && SecondLevelOk(f, words'[f], lists)
    ensures words == words' && w == w'
  {
    forall f | 0 <= f < REAL_FLI
      ensures words[f] == words'[f]
    {
      assert SecondLevelOk(f, words[f], lists) && SecondLevelOk(f, words'[f], lists);
      SameBits(words[f], words'[f], WORD);
    }
    SameBits(w, w', WORD);
  }

  lemma NonZeroRow(f: nat, w: nat, s: nat, lists: seq<seq<int>>)
    requires f < REAL_FLI && |lists| == CLASSES && SecondLevelOk(f, w, lists) && s < MAX_SLI && lists[f * 32 + s] != []
    ensures w != 0
  {
    ZeroBit(s);
  }

  class Pool {
    const matrix: array2<int>        // heads of the free lists
    const slBitmap: array<nat>       // second-level words
    var flBitmap: nat                // first-level word
    var usedSize: int
    var maxSize: int

    var signature: bool              // tlsf_signature has been written

    // The headers in the pool, by block address, and the links stored in free payloads.
    var word: map<int, SizeWord>
    var prevHdr: map<int, int>
    var next: map<int, int>
    var prev: map<int, int>

    ghost var chain: seq<Block>
    ghost var lists: seq<seq<int>>

    ghost function View(): Heap
      reads this
    {
      Heap(chain, lists, usedSize)
    }

    ghost predicate MatrixOk()
      reads this`lists, matrix
    {
      && matrix.Length0 == REAL_FLI && matrix.Length1 == MAX_SLI && |lists| == CLASSES
      && (forall f, s :: 0 <= f < REAL_FLI && 0 <= s < MAX_SLI ==> matrix[f, s] == Head(lists[f * 32 + s]))
    }

    /** A second-level bit is set exactly when its list is non-empty, a first-level bit exactly when its
        second-level word is non-zero. */
    ghost predicate BitsOk()
      reads this`lists, this`flBitmap, slBitmap
    {
      && slBitmap.Length == REAL_FLI && |lists| == CLASSES && FirstLevelOk(flBitmap, slBitmap[..])
      && (forall f :: 0 <= f < REAL_FLI ==> SecondLevelOk(f, slBitmap[f], lists))
    }

    ghost predicate IndexOk()
      reads this, matrix, slBitmap
    {
      LinksOk(lists, next, prev) && MatrixOk() && BitsOk()
    }

    ghost predicate Valid()
      reads this, matrix, slBitmap
    {
      Good(View()) && TagsOk(chain, -1, word, prevHdr) && IndexOk()
    }

    /** tlsf_clear_bit on both levels once list (fl, sl) is empty. */
    method ClearBits(fl: nat, sl: nat)
      requires fl < REAL_FLI && sl < MAX_SLI && slBitmap.Length == REAL_FLI
      requires FirstLevelOk(flBitmap, slBitmap[..]) && slBitmap[fl] < Pow2(WORD) && slBitmap[fl] != 0
      modifies this`flBitmap, slBitmap
      ensures FirstLevelOk(flBitmap, slBitmap[..])
      ensures forall f :: 0 <= f < REAL_FLI && f != fl ==> slBitmap[f] == old(slBitmap[f])
      ensures slBitmap[fl] == ClearBit(old(slBitmap[fl]), sl, WORD)
    {
      ghost var w0, words0 := flBitmap, slBitmap[..];
      slBitmap[fl] := ClearBit(slBitmap[fl], sl, WORD);
      if slBitmap[fl] == 0 {
        flBitmap := ClearBit(flBitmap, fl, WORD);
      }
      FirstLevelCleared(w0, words0, fl, flBitmap, slBitmap[..]);
    }

    /** Writes the head of list (fl, sl). */
    method SetHead(fl: nat, sl: nat, v: int, ghost l: seq<int>)
      requires MatrixOk() && fl < REAL_FLI && sl < MAX_SLI && v == Head(l)
      modifies this`lists, matrix
      ensures MatrixOk() && lists == old(lists)[fl * 32 + sl := l] && matrix[fl, sl] == v
    {
      matrix[fl, sl] := v;
      lists := lists[fl * 32 + sl := l];
    }

    /** Moves the head of list (fl, sl) on to `v`, the head of `l`, clearing bits when the list runs empty. */
    method DropHead(fl: nat, sl: nat, v: int, ghost l: seq<int>)
      requires MatrixOk() && BitsOk() && fl < REAL_FLI && sl < MAX_SLI
      requires v == Head(l) && NULL !in l && lists[fl * 32 + sl] != []
      modifies this`flBitmap, this`lists, matrix, slBitmap
      ensures MatrixOk() && BitsOk() && lists == old(lists)[fl * 32 + sl := l] && matrix[fl, sl] == v
    {
      assert SecondLevelOk(fl, slBitmap[fl], lists);
      SetHead(fl, sl, v, l);
      if v == NULL {
        ClearBitDigits(slBitmap[fl], sl, WORD);
        NonZeroRow(fl, slBitmap[fl], sl, old(lists));
        ClearBits(fl, sl);
      }
      assert l == [] <==> v == NULL;
      RowsOk(old(lists), fl, sl, old(slBitmap[..]));
    }

    /** tlsf_set_bit on both levels. */
    method SetBits(fl: nat, sl: nat)
      requires fl < REAL_FLI && sl < MAX_SLI && slBitmap.Length == REAL_FLI
      requires FirstLevelOk(flBitmap, slBitmap[..]) && slBitmap[fl] < Pow2(WORD)
      modifies this`flBitmap, slBitmap
      ensures FirstLevelOk(flBitmap, slBitmap[..])
      ensures forall f :: 0 <= f < REAL_FLI && f != fl ==> slBitmap[f] == old(slBitmap[f])
      ensures slBitmap[fl] == SetBit(old(slBitmap[fl]), sl)
    {
      ghost var w0, words0 := flBitmap, slBitmap[..];
      slBitmap[fl] := SetBit(slBitmap[fl], sl);
      flBitmap := SetBit(flBitmap, fl);
      FirstLevelRaised(w0, words0, fl, sl, flBitmap, slBitmap[..]);
    }

    /** Makes `b` the head of list (fl, sl) and sets both bits. */
    method RaiseHead(fl: nat, sl: nat, b: int)
      requires MatrixOk() && BitsOk() && fl < REAL_FLI && sl < MAX_SLI && b != NULL
      modifies this`flBitmap, this`lists, matrix, slBitmap
      ensures MatrixOk() && BitsOk() && lists == old(lists)[fl * 32 + sl := [b] + old(lists)[fl * 32 + sl]]
    {
      assert SecondLevelOk(fl, slBitmap[fl], lists);
      SetHead(fl, sl, b, [b] + lists[fl * 32 + sl]);
      SetBitDigits(slBitmap[fl], sl, WORD);
      SetBits(fl, sl);
      RowsOk(old(lists), fl, sl, old(slBitmap[..]));
    }

    /** Only row `fl` is affected by a change of list (fl, sl). */
    lemma RowsOk(lists0: seq<seq<int>>, fl: nat, sl: nat, words0: seq<nat>)
      requires |lists| == CLASSES == |lists0| && fl < REAL_FLI && sl < MAX_SLI
      requires slBitmap.Length == REAL_FLI == |words0|
      requires forall c :: 0 <= c < CLASSES && c != fl * 32 + sl ==> lists[c] == lists0[c]
      requires forall f :: 0 <= f < REAL_FLI ==> SecondLevelOk(f, words0[f], lists0)
      requires forall f :: 0 <= f < REAL_FLI && f != fl ==> slBitmap[f] == words0[f]
      requires slBitmap[fl] < Pow2(WORD)
      requires forall j: nat :: Bit(slBitmap[fl], j) <==> (if j == sl then lists[fl * 32 + sl] != [] else Bit(words0[fl], j))
      ensures forall f :: 0 <= f < REAL_FLI ==> SecondLevelOk(f, slBitmap[f], lists)
    {
      forall f | 0 <= f < REAL_FLI
        ensures SecondLevelOk(f, slBitmap[f], lists)
      {
        assert SecondLevelOk(f, words0[f], lists0);
      }
    }

    /** EXTRACT_BLOCK_HDR: takes the head of list (fl, sl). */
    method ExtractBlockHdr(b: int, fl: nat, sl: nat)
      requires IndexOk() && fl < REAL_FLI && sl < MAX_SLI && lists[fl * 32 + sl] != [] && b == matrix[fl, sl]
      modifies this`flBitmap, this`next, this`prev, this`lists, matrix, slBitmap
      ensures IndexOk() && lists == old(lists)[fl * 32 + sl := old(lists)[fl * 32 + sl][1..]]
    {
      ghost var c := fl * 32 + sl;
      ghost var l := lists[c];
      assert Linked(l, next, prev);
      assert NodeOk(l, 0, next, prev);
      LinkedNotNull(l, next, prev);
      DropHead(fl, sl, next[b], l[1..]);
      if matrix[fl, sl] != NULL {
        prev := prev[matrix[fl, sl] := NULL];
      }
      next, prev := next[b := NULL], prev[b := NULL];
      assert Remove(l, b) == l[1..];
      LinksExtracted(old(lists), c, 0, old(next), old(prev), next, prev);
    }

    /** Leads the neighbours of `b` past it. */
    method Bypass(b: int)
      requires b in next && b in prev && next[b] != b && prev[b] != b
      modifies this`next, this`prev
      ensures prev == if old(next)[b] != NULL then old(prev)[old(next)[b] := old(prev)[b]] else old(prev)
      ensures next == if old(prev)[b] != NULL then old(next)[old(prev)[b] := old(next)[b]] else old(next)
    {
      if next[b] != NULL {
        prev := prev[next[b] := prev[b]];
      }
      if prev[b] != NULL {
        next := next[prev[b] := next[b]];
      }
    }

    /** A list loses a block that is not its head. */
    ghost method DropInner(fl: nat, sl: nat, l: seq<int>)
      requires MatrixOk() && BitsOk() && fl < REAL_FLI && sl < MAX_SLI && l != []
      requires lists[fl * 32 + sl] != [] && Head(l) == Head(lists[fl * 32 + sl])
      modifies this`lists
      ensures MatrixOk() && BitsOk() && lists == old(lists)[fl * 32 + sl := l]
    {
      assert SecondLevelOk(fl, slBitmap[fl], lists);
      lists := lists[fl * 32 + sl := l];
      RowsOk(old(lists), fl, sl, slBitmap[..]);
    }

    /** EXTRACT_BLOCK: takes block `b` out of list (fl, sl), wherever it stands. */
    method ExtractBlock(b: int, fl: nat, sl: nat)
      requires IndexOk() && fl < REAL_FLI && sl < MAX_SLI && b in lists[fl * 32 + sl]
      modifies this`flBitmap, this`next, this`prev, this`lists, matrix, slBitmap
      ensures IndexOk() && lists == old(lists)[fl * 32 + sl := Remove(old(lists)[fl * 32 + sl], b)]
    {
      ghost var c := fl * 32 + sl;
      ghost var l := lists[c];
      ghost var k: nat :| k < |l| && l[k] == b;
      assert Linked(l, next, prev) && NoDup(l);
      assert NodeOk(l, k, next, prev);
      assert k + 1 < |l| ==> l[k + 1] != b && NodeOk(l, k + 1, next, prev);
      assert k > 0 ==> l[k - 1] != b && NodeOk(l, k - 1, next, prev);
      LinkedNotNull(l, next, prev);
      RemoveIs(l, k);
      Bypass(b);
      if matrix[fl, sl] == b {
        assert k == 0;
        DropHead(fl, sl, next[b], l[1..]);
      } else {
        DropInner(fl, sl, Remove(l, b));
      }
      next, prev := next[b := NULL], prev[b := NULL];
      LinksExtracted(old(lists), c, k, old(next), old(prev), next, prev);
    }

    /** INSERT_BLOCK: puts block `b` at the head of list (fl, sl). */
    method InsertBlock(b: int, fl: nat, sl: nat)
      requires IndexOk() && fl < REAL_FLI && sl < MAX_SLI && b != NULL
      requires OnNone(b, lists)
      modifies this`flBitmap, this`next, this`prev, this`lists, matrix, slBitmap
      ensures IndexOk() && lists == old(lists)[fl * 32 + sl := [b] + old(lists)[fl * 32 + sl]]
    {
      ghost var l := lists[fl * 32 + sl];
      assert Linked(l, next, prev);
      LinkedNotNull(l, next, prev);
      next, prev := next[b := matrix[fl, sl]], prev[b := NULL];
      if matrix[fl, sl] != NULL {
        prev := prev[matrix[fl, sl] := b];
      }
      RaiseHead(fl, sl, b);
      LinksInserted(old(lists), fl * 32 + sl, b, old(next), old(prev), next, prev);
    }

    /** FIND_SUITABLE_BLOCK: the first non-empty list at or after (fl, sl), through the two bitmap levels. */
    method FindSuitableBlock(fl: nat, sl: nat) returns (b: int, f: int, s: int)
      requires MatrixOk() && BitsOk() && fl < REAL_FLI && sl < MAX_SLI
      requires forall c :: 0 <= c < CLASSES ==> NULL !in lists[c]
      ensures Found(fl * 32 + sl, b, f, s)
    {
      var tmp := And(slBitmap[fl], OnesFrom(sl, WORD));
      RowSearch(fl, slBitmap[fl], sl, lists);
      if tmp != 0 {
        f, s := fl, LsBit(tmp);
        b := matrix[f, s];
        HeadIs(lists, fl * 32 + sl, f * 32 + s);
      } else {
        b, f, s := FindAbove(fl);
        SkipEmpty(lists, fl * 32 + sl, fl * 32 + 32);
      }
    }

    /** Block `b` heads the first non-empty list at or after class `c`, which is list (f, s); NULL if there is none. */
    ghost predicate Found(c: nat, b: int, f: int, s: int)
      requires c <= CLASSES && |lists| == CLASSES && matrix.Length0 == REAL_FLI && matrix.Length1 == MAX_SLI
      reads this`lists, matrix
    {
      var d := FirstList(lists, c);
      && (b == NULL <==> d == CLASSES)
      && (b != NULL ==> 0 <= f < REAL_FLI && 0 <= s < MAX_SLI && f * 32 + s == d && b == matrix[f, s])
    }

    /** The rows above row `fl`, when that row has nothing suitable. */
    method FindAbove(fl: nat) returns (b: int, f: int, s: int)
      requires MatrixOk() && BitsOk() && fl < REAL_FLI
      requires forall c :: 0 <= c < CLASSES ==> NULL !in lists[c]
      ensures Found(fl * 32 + 32, b, f, s)
    {
      s, b := 0, NULL;
      ColumnSearch(fl, flBitmap, slBitmap[..], lists);
      f := LsBit(And(flBitmap, OnesFrom(fl + 1, WORD)));
      if f > 0 {
        RowSearch(f, slBitmap[f], 0, lists);
        s := LsBit(slBitmap[f]);
        b := matrix[f, s];
        HeadIs(lists, fl * 32 + 32, f * 32 + s);
      } else {
        FirstIs(lists, fl * 32 + 32, CLASSES);
      }
    }

    /** TLSF_ADD_SIZE */
    method AddSize(b: int)
      requires b in word
      modifies this`usedSize, this`maxSize
      ensures usedSize == old(usedSize) + word[b].bytes + OVERHEAD
      ensures maxSize == if old(maxSize) < usedSize then usedSize else old(maxSize)
    {
      usedSize := usedSize + (word[b].bytes + OVERHEAD);
      if usedSize > maxSize {
        maxSize := usedSize;
      }
    }

    /** The first part of malloc_ex: rounds the request and searches the index. */
    method SearchBlock(n: nat) returns (b: int, size: nat, fl: int, sl: int)
      requires Valid() && n <= MAX_REQUEST
      ensures size == Request(n).0
      ensures b == NULL <==> StartList(View(), n) == CLASSES
      ensures b != NULL ==>
                && 0 <= fl < REAL_FLI && 0 <= sl < MAX_SLI && fl * 32 + sl == StartList(View(), n)
                && b == matrix[fl, sl] == lists[fl * 32 + sl][0]
    {
      SearchComputesRequest(n);
      var (r, fl0, sl0) := MappingSearch(AdjustRequest(n));
      size := r;
      ListsNotNull();
      b, fl, sl := FindSuitableBlock(fl0, sl0);
    }

    constructor ()
      ensures !signature && matrix.Length0 == REAL_FLI && matrix.Length1 == MAX_SLI && slBitmap.Length == REAL_FLI
      ensures fresh(matrix) && fresh(slBitmap)
    {
      matrix := new int[REAL_FLI, MAX_SLI];
      slBitmap := new nat[REAL_FLI];
      signature := false;
      word, prevHdr, next, prev := map[], map[], map[], map[];
      flBitmap, usedSize, maxSize := 0, 0, 0;
      chain, lists := [], [];
    }

    /** process_area: the area header block, one block over the rest, and the sentinel of size zero, whose tag
        already says that the block before it is free. */
    method ProcessArea(area: nat, size: nat)
      requires area > 0 && size % 16 == 0 && 128 <= size <= LIMIT
      modifies this`word, this`prevHdr, this`next, this`prev, this`chain
      ensures chain == InitialChain(area, size) && WellFormed(chain)
      ensures TagsOk(chain, 2, word, prevHdr)
    {
      var b := area + OVERHEAD + MIN_BLOCK;
      var lb := b + OVERHEAD + (size - 3 * OVERHEAD - MIN_BLOCK);
      word := word[area := SizeWord(MIN_BLOCK, false, false)];
      word := word[b := SizeWord(size - 3 * OVERHEAD - MIN_BLOCK, false, false)];
      next, prev := next[b := NULL], prev[b := NULL];
      prevHdr := prevHdr[lb := b];
      word := word[lb := SizeWord(0, false, true)];
      chain := InitialChain(area, size);
    }

    /** init_memory_pool: None stands for the -1 of a rejected pool. */
    method InitMemoryPool(memPoolSize: nat, memPool: nat) returns (r: Option<nat>)
      requires memPoolSize <= LIMIT
      requires matrix.Length0 == REAL_FLI && matrix.Length1 == MAX_SLI && slBitmap.Length == REAL_FLI
      requires signature ==> Valid() && chain[0].addr == memPool + AREA_OFFSET
      modifies this, matrix, slBitmap
      ensures r.None? <==> memPool == NULL || memPoolSize < TLSF_SIZE + OVERHEAD * 8 || memPool % 8 != 0
      ensures r.None? || old(signature) ==> View() == old(View())
      ensures r.Some? ==> signature && Valid()
      ensures r.Some? && old(signature) ==> r.value == MIN_BLOCK
      ensures r.Some? && !old(signature) ==>
                && Fresh(View()) && r.value == chain[1].size
                && chain[0].addr == memPool + AREA_OFFSET
                && chain[2].End() == memPool + AREA_OFFSET + RoundDownSize(memPoolSize - TLSF_SIZE)
                && usedSize + FreeBytes(chain) == memPoolSize + OVERHEAD && maxSize == usedSize
    {
      if memPool == NULL || memPoolSize == 0 || memPoolSize < TLSF_SIZE + OVERHEAD * 8 {
        return None;
      }
      if memPool % 8 != 0 {
        return None;
      }
      if signature {
        var bytes := FirstBlockSize(memPool + AREA_OFFSET);
        return Some(bytes);
      }
      AreaSize(memPoolSize);
      r := FirstInit(memPoolSize, memPool, RoundDownSize(memPoolSize - TLSF_SIZE));
    }

    method FirstBlockSize(ib: int) returns (bytes: nat)
      requires Valid() && chain[0].addr == ib
      ensures bytes == MIN_BLOCK
    {
      assert TagOk(chain, 0, -1, word, prevHdr);
      bytes := word[ib].bytes;
    }

    method FirstInit(memPoolSize: nat, memPool: nat, size: nat) returns (r: Option<nat>)
      requires matrix.Length0 == REAL_FLI && matrix.Length1 == MAX_SLI && slBitmap.Length == REAL_FLI
      requires memPool > 0 && size % 16 == 0 && 128 <= size <= LIMIT
      modifies this, matrix, slBitmap
      ensures signature && Valid() && Fresh(View()) && r == Some(chain[1].size)
      ensures chain[0].addr == memPool + AREA_OFFSET && chain[2].End() == memPool + AREA_OFFSET + size
      ensures usedSize + FreeBytes(chain) == memPoolSize + OVERHEAD && maxSize == usedSize
    {
      PrepareArea(memPool, size);
      var b := memPool + AREA_OFFSET + OVERHEAD + MIN_BLOCK;
      FreeInitial(b);
      r := StartStatistic(memPoolSize, b);
    }

    /** The one block of the area is released. */
    method FreeInitial(b: int)
      requires WellFormed(chain) && |chain| == 3 && !chain[1].free && chain[1].addr == b
      requires IndexOk() && NoneFiled(lists) && TagsOk(chain, 2, word, prevHdr)
      modifies this`word, this`prevHdr, this`usedSize, this`flBitmap, this`next, this`prev, this`lists, this`chain, matrix, slBitmap
      ensures Valid() && Fresh(View()) && chain == old(chain)[1 := old(chain)[1].(free := true)]
      ensures FreeBytes(chain) == chain[1].size + OVERHEAD
    {
      InitialHeap(View());
      FreeBlock(b, 1);
    }

    /** The statistic starts from what the initial block does not take; it plays no part in validity. */
    method StartStatistic(memPoolSize: nat, b: int) returns (r: Option<nat>)
      requires Valid() && Fresh(View()) && b == chain[1].addr
      modifies this`usedSize, this`maxSize
      ensures Valid() && Fresh(View()) && View() == old(View()).(used := memPoolSize - chain[1].size)
      ensures maxSize == usedSize && r == Some(chain[1].size)
    {
      assert TagOk(chain, 1, -1, word, prevHdr);
      usedSize := memPoolSize - word[b].bytes;
      maxSize := usedSize;
      r := Some(word[b].bytes);
    }

    /** Everything before the initial block is released. */
    method PrepareArea(memPool: nat, size: nat)
      requires matrix.Length0 == REAL_FLI && matrix.Length1 == MAX_SLI && slBitmap.Length == REAL_FLI
      requires memPool > 0 && size % 16 == 0 && 128 <= size <= LIMIT
      modifies this, matrix, slBitmap
      ensures signature && IndexOk() && NoneFiled(lists) && TagsOk(chain, 2, word, prevHdr)
      ensures chain == InitialChain(memPool + AREA_OFFSET, size) && WellFormed(chain)
    {
      Zero();
      signature := true;
      ProcessArea(memPool + AREA_OFFSET, size);
    }

    /** memset over the control structure. */
    method Zero()
      requires matrix.Length0 == REAL_FLI && matrix.Length1 == MAX_SLI && slBitmap.Length == REAL_FLI
      modifies this`flBitmap, this`usedSize, this`maxSize, this`lists, matrix, slBitmap
      ensures IndexOk() && NoneFiled(lists)
    {
      forall f, s | 0 <= f < REAL_FLI && 0 <= s < MAX_SLI {
        matrix[f, s] := NULL;
      }
      forall f | 0 <= f < REAL_FLI {
        slBitmap[f] := 0;
      }
      flBitmap, usedSize, maxSize := 0, 0, 0;
      lists := seq(CLASSES, _ => []);
      forall j: nat
        ensures !Bit(0, j)
      {
        ZeroBit(j);
      }
    }

    /** malloc_ex: NULL, or the payload address of the granted block. */
    method MallocEx(n: nat) returns (p: int)
      requires Valid() && n <= MAX_REQUEST
      modifies this, matrix, slBitmap
      ensures Valid()
      ensures (View(), if p == NULL then None else Some(p)) == Malloc(old(View()), n)
      ensures maxSize == if p != NULL && old(maxSize) < usedSize then usedSize else old(maxSize)
    {
      var b, size, fl, sl := SearchBlock(n);
      if b == NULL {
        return NULL;
      }
      GrantBlock(b, size, fl, sl, n);
      p := b + OVERHEAD;
    }

    /** The block that the search found leaves its list and is granted. */
    method GrantBlock(b: int, size: nat, fl: nat, sl: nat, ghost n: nat)
      requires Valid() && n <= MAX_REQUEST && StartList(View(), n) < CLASSES && size == Request(n).0
      requires fl < REAL_FLI && sl < MAX_SLI && fl * 32 + sl == StartList(View(), n)
      requires b == matrix[fl, sl] == lists[fl * 32 + sl][0]
      modifies this, matrix, slBitmap
      ensures Valid() && b > 0
      ensures (View(), Some(b + OVERHEAD)) == Malloc(old(View()), n)
      ensures maxSize == if old(maxSize) < usedSize then usedSize else old(maxSize)
    {
      ghost var h := View();
      ghost var i := FoundAt(h, n);
      ghost var popped := h.lists[fl * 32 + sl := h.lists[fl * 32 + sl][1..]];
      ReadyToGrant(h, n, i, b, size, popped);
      ExtractBlockHdr(b, fl, sl);
      var tmpSize := TakeBlock(b, size, i);
      MallocResult(h, n, popped, View());
    }

    /** The rest of malloc_ex: block `b`, already off its list, is granted split or whole. */
    method TakeBlock(b: int, size: nat, ghost i: nat) returns (tmpSize: int)
      requires WellFormed(chain) && TagsOk(chain, -1, word, prevHdr) && IndexOk()
      requires 0 < i < |chain| - 1 && chain[i].free && chain[i].addr == b && size <= chain[i].size < LIMIT
      requires chain[i].size >= size + HEADER ==>
                 Remainder(chain[i], size).addr > 0 && OnNone(Remainder(chain[i], size).addr, lists)
      modifies this, matrix, slBitmap
      ensures chain == Splice(old(chain), i, i, Grant(old(chain)[i], size))
      ensures lists == if old(chain)[i].size >= size + HEADER then Push(old(lists), Remainder(old(chain)[i], size)) else old(lists)
      ensures usedSize == old(usedSize) + Granted(old(chain)[i], size).size + OVERHEAD
      ensures maxSize == if old(maxSize) < usedSize then usedSize else old(maxSize)
      ensures TagsOk(chain, -1, word, prevHdr) && IndexOk()
    {
      ghost var w0, p0 := word, prevHdr;
      assert TagOk(chain, i, -1, word, prevHdr) && TagOk(chain, i + 1, -1, word, prevHdr);
      Neighbours(chain, i);
      var nextB := b + OVERHEAD + word[b].bytes;
      tmpSize := word[b].bytes - size;
      SplitOrTake(b, nextB, size, tmpSize);
      AddSize(b);
      GrantedTags(chain, i, size, w0, p0);
      chain := Splice(chain, i, i, Grant(chain[i], size));
    }

    method SplitOrTake(b: int, nextB: int, size: nat, tmpSize: int)
      requires IndexOk() && b in word && nextB in word && b != nextB && !word[b].prevFree && tmpSize < LIMIT
      requires tmpSize >= HEADER ==> b + OVERHEAD + size > 0 && OnNone(b + OVERHEAD + size, lists)
      modifies this`word, this`prevHdr, this`flBitmap, this`next, this`prev, this`lists, matrix, slBitmap
      ensures IndexOk()
      ensures tmpSize >= HEADER ==>
                var q := Block(b + OVERHEAD + size, tmpSize - OVERHEAD, true);
                && lists == Push(old(lists), q)
                && word == old(word)[q.addr := SizeWord(q.size, true, false)][b := SizeWord(size, false, false)]
                && prevHdr == old(prevHdr)[nextB := q.addr]
      ensures tmpSize < HEADER ==>
                && lists == old(lists) && prevHdr == old(prevHdr)
                && word == old(word)[nextB := old(word)[nextB].(prevFree := false)][b := old(word)[b].(free := false)]
    {
      if tmpSize >= HEADER {
        SplitBlock(b, nextB, size, tmpSize);
      } else {
        word := word[nextB := word[nextB].(prevFree := false)];
        word := word[b := word[b].(free := false)];
      }
    }

    method SplitBlock(b: int, nextB: int, size: nat, tmpSize: nat)
      requires IndexOk() && b in word && !word[b].prevFree && HEADER <= tmpSize < LIMIT
      requires b + OVERHEAD + size > 0 && OnNone(b + OVERHEAD + size, lists)
      modifies this`word, this`prevHdr, this`flBitmap, this`next, this`prev, this`lists, matrix, slBitmap
      ensures var q := Block(b + OVERHEAD + size, tmpSize - OVERHEAD, true);
              && IndexOk() && lists == Push(old(lists), q)
              && word == old(word)[q.addr := SizeWord(q.size, true, false)][b := SizeWord(size, false, false)]
              && prevHdr == old(prevHdr)[nextB := q.addr]
    {
      var b2 := b + OVERHEAD + size;
      word := word[b2 := SizeWord(tmpSize - OVERHEAD, true, false)];
      prevHdr := prevHdr[nextB := b2];
      FileUnderClass(b2, tmpSize - OVERHEAD);
      word := word[b := SizeWord(size, false, word[b].prevFree)];
    }

    lemma ListsNotNull()
      requires IndexOk()
      ensures forall c :: 0 <= c < CLASSES ==> NULL !in lists[c]
    {
      forall c | 0 <= c < CLASSES
        ensures NULL !in lists[c]
      {
        LinkedNotNull(lists[c], next, prev);
      }
    }

    lemma GrantedTags(s: seq<Block>, i: nat, r: nat, w0: map<int, SizeWord>, p0: map<int, int>)
      requires WellFormed(s) && 0 < i < |s| - 1 && s[i].free && r <= s[i].size && TagsOk(s, -1, w0, p0)
      requires var b, e := s[i].addr, s[i + 1].addr;
               if s[i].size >= r + HEADER then
                 var q := Remainder(s[i], r);
                 && word == w0[q.addr := SizeWord(q.size, true, false)][b := SizeWord(r, false, false)]
                 && prevHdr == p0[e := q.addr]
               else
                 && b in w0 && e in w0
                 && word == w0[e := w0[e].(prevFree := false)][b := w0[b].(free := false)]
                 && prevHdr == p0
      ensures TagsOk(Splice(s, i, i, Grant(s[i], r)), -1, word, prevHdr)
    {
      Neighbours(s, i);
      assert TagOk(s, i, -1, w0, p0) && TagOk(s, i + 1, -1, w0, p0);
      forall j | 0 <= j < |s| && (j < i || i + 1 < j)
        ensures SameTag(s[j].addr, w0, p0, word, prevHdr)
      {
        if j < i { Ordered(s, j, i); } else { Ordered(s, i + 1, j); }
      }
      TagsGranted(s, i, r, w0, p0, word, prevHdr);
    }

    /** A grant and its release leave lists, statistic, heads and both bitmap levels as they were. */
    method MallocThenFree(n: nat)
      requires Valid() && n <= MAX_REQUEST
      modifies this, matrix, slBitmap
      ensures Valid() && View() == old(View())
      ensures flBitmap == old(flBitmap) && slBitmap[..] == old(slBitmap[..])
      ensures forall f, s :: 0 <= f < REAL_FLI && 0 <= s < MAX_SLI ==> matrix[f, s] == old(matrix[f, s])
    {
      ghost var h, w, words := View(), flBitmap, slBitmap[..];
      IndexShows();
      GrantAndRelease(n);
      IndexShows();
      BitmapsDetermined(lists, w, words, flBitmap, slBitmap[..]);
    }

    method GrantAndRelease(n: nat)
      requires Valid() && n <= MAX_REQUEST
      modifies this, matrix, slBitmap
      ensures Valid() && View() == old(View())
    {
      ghost var h := View();
      if Malloc(h, n).1.Some? { FreeUndoesMalloc(h, n); }
      var p := MallocEx(n);
      FreeEx(p);
    }

    /** What the index shows of the lists. */
    lemma IndexShows()
      requires Valid()
      ensures matrix.Length0 == REAL_FLI && matrix.Length1 == MAX_SLI && |lists| == CLASSES
      ensures forall f, s :: 0 <= f < REAL_FLI && 0 <= s < MAX_SLI ==> matrix[f, s] == Head(lists[f * 32 + s])
      ensures FirstLevelOk(flBitmap, slBitmap[..])
      ensures forall f :: 0 <= f < REAL_FLI ==> SecondLevelOk(f, slBitmap[..][f], lists)
    {
    }

    /** free_ex: releases the block with payload `p`; NULL is ignored. */
    method FreeEx(p: int)
      requires Valid() && (p == NULL || Live(View(), p))
      modifies this, matrix, slBitmap
      ensures Valid() && View() == if p == NULL then old(View()) else Free(old(View()), p)
      ensures maxSize == old(maxSize)
    {
      if p == NULL {
        return;
      }
      ghost var i := Held(View(), p);
      ghost var x := i + 1;
      TagsWeaker(chain, x, word, prevHdr);
      FreeBlock(p - OVERHEAD, i);
    }

    /** The body of free_ex.  The tag behind the block is rewritten, so what it said of the block's state
        beforehand does not matter; initialisation relies on that. */
    method FreeBlock(b0: int, ghost i: nat)
      requires Good(View()) && TagsOk(chain, i + 1, word, prevHdr) && IndexOk()
      requires LiveAt(View(), i, b0 + OVERHEAD)
      modifies this`word, this`prevHdr, this`usedSize, this`flBitmap, this`next, this`prev, this`lists, this`chain, matrix, slBitmap
      ensures Valid() && View() == Free(old(View()), b0 + OVERHEAD)
    {
      ghost var h := View();
      ghost var w0, p0 := word, prevHdr;
      ReadyToFree(h, i, word, prevHdr);
      ghost var wm := MergeAndFile(b0, chain[i - 1], chain[i], chain[i + 1], Merged(chain, i));
      FreedTags(chain, i, w0, p0, wm, word, prevHdr);
      FreeResult(h, i, View());
      chain := Splice(chain, First(chain, i), Last(chain, i), [Merged(chain, i)]);
    }

    /** Merges the held block `blk` with its free neighbours into `m`, and files the result. */
    method MergeAndFile(b0: int, ghost pb: Block, ghost blk: Block, ghost e: Block, ghost m: Block) returns (ghost wm: map<int, SizeWord>)
      requires IndexOk() && Mergeable(lists, word, prevHdr, pb, blk, e) && blk.addr == b0
      requires MergesInto(pb, blk, e, m) && m.addr > 0 && m.size < LIMIT && m.free
      requires OnNone(m.addr, Without(lists, pb, e)) && m.End() in word
      modifies this`word, this`prevHdr, this`usedSize, this`flBitmap, this`next, this`prev, this`lists, matrix, slBitmap
      ensures IndexOk() && lists == Push(Without(old(lists), pb, e), m)
      ensures usedSize == old(usedSize) - (blk.size + OVERHEAD)
      ensures MergedWord(pb, blk, e, old(word), wm) && m.End() in wm
      ensures word == wm[m.End() := wm[m.End()].(prevFree := true)] && prevHdr == old(prevHdr)[m.End() := m.addr]
    {
      var b := MergeBlock(b0, pb, blk, e);
      wm := word;
      MergedReads(pb, blk, e, m, old(word), wm);
      FileBlock(b);
    }

    /** Marks the held block `blk` free and merges it with its neighbours `pb` and `e` where they are free. */
    method MergeBlock(b0: int, ghost pb: Block, ghost blk: Block, ghost e: Block) returns (b: int)
      requires IndexOk() && Mergeable(lists, word, prevHdr, pb, blk, e) && blk.addr == b0
      modifies this`word, this`usedSize, this`flBitmap, this`next, this`prev, this`lists, matrix, slBitmap
      ensures b == if pb.free then pb.addr else b0
      ensures IndexOk() && lists == Without(old(lists), pb, e)
      ensures usedSize == old(usedSize) - (blk.size + OVERHEAD)
      ensures MergedWord(pb, blk, e, old(word), word)
    {
      MarkFree(b0);
      AbsorbNext(b0, e);
      b := AbsorbPrev(b0, pb);
    }

    /** The released block itself, before it merges. */
    method MarkFree(b: int)
      requires IndexOk() && OnNone(b, lists) && b in word
      modifies this`word, this`usedSize, this`next, this`prev
      ensures IndexOk() && word == old(word)[b := old(word)[b].(free := true)]
      ensures usedSize == old(usedSize) - (old(word)[b].bytes + OVERHEAD)
    {
      word := word[b := word[b].(free := true)];
      usedSize := usedSize - (word[b].bytes + OVERHEAD);
      ClearLinks(b);
    }

    /** Puts free block `b` at the head of the list of its class. */
    method FileUnderClass(b: int, size: nat)
      requires IndexOk() && b > 0 && OnNone(b, lists) && size < LIMIT
      modifies this`flBitmap, this`next, this`prev, this`lists, matrix, slBitmap
      ensures IndexOk() && lists == Push(old(lists), Block(b, size, true))
    {
      InsertComputesClass(size);
      var (fl, sl) := MappingInsert(size);
      InsertBlock(b, fl, sl);
    }

    /** Files the free block `b` under its class and marks the block behind it. */
    method FileBlock(b: int)
      requires IndexOk() && b > 0 && OnNone(b, lists) && b in word && word[b].bytes < LIMIT
      requires b + OVERHEAD + word[b].bytes in word
      modifies this`word, this`prevHdr, this`flBitmap, this`next, this`prev, this`lists, matrix, slBitmap
      ensures IndexOk() && lists == Push(old(lists), Block(b, old(word)[b].bytes, true))
      ensures var tmp := b + OVERHEAD + old(word)[b].bytes;
              && word == old(word)[tmp := old(word)[tmp].(prevFree := true)]
              && prevHdr == old(prevHdr)[tmp := b]
    {
      FileUnderClass(b, word[b].bytes);
      var tmp := b + OVERHEAD + word[b].bytes;
      word := word[tmp := word[tmp].(prevFree := true)];
      prevHdr := prevHdr[tmp := b];
    }

    /** The released block's link fields are cleared; it is on no list. */
    method ClearLinks(b: int)
      requires LinksOk(lists, next, prev) && OnNone(b, lists)
      modifies this`next, this`prev
      ensures LinksOk(lists, next, prev)
    {
      ghost var next0, prev0 := next, prev;
      next, prev := next[b := NULL], prev[b := NULL];
      forall d | 0 <= d < CLASSES
        ensures Linked(lists[d], next, prev)
      {
        LinkedFrame(lists[d], next0, prev0, next, prev);
      }
    }

    /** Merges block `b` with the block behind it when that one is free. */
    method AbsorbNext(b: int, ghost e: Block)
      requires IndexOk() && b in word && e.addr == b + OVERHEAD + word[b].bytes && e.size < LIMIT
      requires e.addr in word && word[e.addr].bytes == e.size && word[e.addr].free == e.free
      requires e.free ==> e.addr in lists[Class(e.size)]
      modifies this`word, this`flBitmap, this`next, this`prev, this`lists, matrix, slBitmap
      ensures IndexOk() && lists == if e.free then Unlink(old(lists), e) else old(lists)
      ensures word == if e.free then old(word)[b := old(word)[b].(bytes := old(word)[b].bytes + (e.size + OVERHEAD))] else old(word)
    {
      var tmp := b + OVERHEAD + word[b].bytes;
      if word[tmp].free {
        InsertComputesClass(word[tmp].bytes);
        var (fl, sl) := MappingInsert(word[tmp].bytes);
        ExtractBlock(tmp, fl, sl);
        word := word[b := word[b].(bytes := word[b].bytes + (word[tmp].bytes + OVERHEAD))];
      }
    }

    /** Merges block `b` into its predecessor when the tag says that one is free. */
    method AbsorbPrev(b: int, ghost e: Block) returns (b': int)
      requires IndexOk() && b in word && word[b].prevFree == e.free && e.size < LIMIT
      requires e.free ==> b in prevHdr && prevHdr[b] == e.addr && e.addr in word && word[e.addr].bytes == e.size
      requires e.free ==> e.addr in lists[Class(e.size)] && e.addr != b
      modifies this`word, this`flBitmap, this`next, this`prev, this`lists, matrix, slBitmap
      ensures b' == if e.free then e.addr else b
      ensures IndexOk() && lists == if e.free then Unlink(old(lists), e) else old(lists)
      ensures word == if e.free then old(word)[e.addr := old(word)[e.addr].(bytes := e.size + (old(word)[b].bytes + OVERHEAD))] else old(word)
    {
      b' := b;
      if word[b].prevFree {
        var tmp := prevHdr[b];
        InsertComputesClass(word[tmp].bytes);
        var (fl, sl) := MappingInsert(word[tmp].bytes);
        ExtractBlock(tmp, fl, sl);
        word := word[tmp := word[tmp].(bytes := word[tmp].bytes + (word[b].bytes + OVERHEAD))];
        b' := tmp;
      }
    }
  }

  lemma AreaSize(memPoolSize: nat)
    requires TLSF_SIZE + OVERHEAD * 8 <= memPoolSize <= LIMIT
    ensures var size := RoundDownSize(memPoolSize - TLSF_SIZE); size % 16 == 0 && 128 <= size <= LIMIT
  {
    RoundSizes(memPoolSize - TLSF_SIZE);
    MultipleBelow(memPoolSize - TLSF_SIZE, RoundDownSize(memPoolSize - TLSF_SIZE));
  }

  lemma MultipleBelow(x: nat, d: nat)
    requires d % 16 == 0 && d <= x < d + 16 && 128 <= x
    ensures 128 <= d
  {
  }

  function InitialChain(area: nat, size: nat): seq<Block>
    requires size >= 128
  {
    [Block(area, MIN_BLOCK, false),
     Block(area + OVERHEAD + MIN_BLOCK, size - 3 * OVERHEAD - MIN_BLOCK, false),
     Block(area + size - OVERHEAD, 0, false)]
  }

  ghost predicate NoneFiled(lists: seq<seq<int>>) {
    |lists| == CLASSES && forall c :: 0 <= c < CLASSES ==> lists[c] == []
  }

  /** Releasing the one block of the initial chain gives the fresh heap. */
  lemma InitialHeap(h: Heap)
    requires WellFormed(h.chain) && |h.chain| == 3 && !h.chain[1].free && NoneFiled(h.lists)
    ensures Good(h) && LiveAt(h, 1, h.chain[1].addr + OVERHEAD)
    ensures var h' := Free(h, h.chain[1].addr + OVERHEAD);
            && Fresh(h') && h'.chain == h.chain[1 := h.chain[1].(free := true)]
            && FreeBytes(h'.chain) == h.chain[1].size + OVERHEAD
  {
    forall c: nat, a: int | c < CLASSES
      ensures !IsFree(h.chain, a, c)
    {
    }
    assert Good(h);
    var p := h.chain[1].addr + OVERHEAD;
    assert LiveAt(h, 1, p);
    FindAt(h.chain, 1);
    FreeGood(h, p);
    var h' := Free(h, p);
    var m := Merged(h.chain, 1);
    Fits(h.chain, 1);
    assert First(h.chain, 1) == 1 && Last(h.chain, 1) == 1;
    assert m == h.chain[1].(free := true);
    assert h'.chain == h.chain[1 := m];
    assert h'.chain == [h.chain[0]] + ([m] + [h.chain[2]]);
    FreeBytesConcat([h.chain[0]], [m] + [h.chain[2]]);
    FreeBytesConcat([m], [h.chain[2]]);
  }

  /** The area that initialisation lays out ends inside the pool exactly when the pool size modulo 16 is below
      8; other sizes leave the sentinel's header partly outside. */
  lemma AreaInsidePool(memPoolSize: nat)
    requires memPoolSize >= TLSF_SIZE
    ensures AREA_OFFSET + RoundDownSize(memPoolSize - TLSF_SIZE) <= memPoolSize <==> memPoolSize % 16 < 8
  {
    RoundSizes(memPoolSize - TLSF_SIZE);
    Straddles(memPoolSize, RoundDownSize(memPoolSize - TLSF_SIZE));
  }

  /** The smallest pool that is accepted is laid out 8 bytes too long. */
  lemma SmallestPoolOverruns()
    ensures var m := TLSF_SIZE + OVERHEAD * 8; AREA_OFFSET + RoundDownSize(m - TLSF_SIZE) == m + 8
  {
    RoundSizes(OVERHEAD * 8);
  }

  lemma Straddles(m: nat, d: nat)
    requires d % 16 == 0 && d <= m - TLSF_SIZE < d + 16
    ensures AREA_OFFSET + d <= m <==> m % 16 < 8
  {
  }

  lemma HeadIs(lists: seq<seq<int>>, c: nat, d: nat)
    requires |lists| == CLASSES && c <= d < CLASSES && lists[d] != [] && NULL !in lists[d]
    requires forall e :: c <= e < d ==> lists[e] == []
    ensures FirstList(lists, c) == d && Head(lists[d]) != NULL
  {
    FirstIs(lists, c, d);
    assert lists[d][0] in lists[d];
  }

  lemma SkipEmpty(lists: seq<seq<int>>, c: nat, d: nat)
    requires |lists| == CLASSES && c <= d <= CLASSES && forall e :: c <= e < d ==> lists[e] == []
    ensures FirstList(lists, c) == FirstList(lists, d)
  {
    FirstIs(lists, c, FirstList(lists, d));
  }

  lemma FoundFits(h: Heap, n: nat)
    requires Good(h) && n <= MAX_REQUEST && StartList(h, n) < CLASSES
    ensures h.chain[FoundAt(h, n)].size < LIMIT && h.chain[FoundAt(h, n)].addr > 0
  {
    Fits(h.chain, FoundAt(h, n));
  }

  /** The block found may be granted once it is off its list. */
  lemma ReadyToGrant(h: Heap, n: nat, i: nat, b: int, size: nat, popped: seq<seq<int>>)
    requires Good(h) && n <= MAX_REQUEST && StartList(h, n) < CLASSES && i == FoundAt(h, n) && size == Request(n).0
    requires b == h.lists[StartList(h, n)][0]
    requires popped == h.lists[StartList(h, n) := h.lists[StartList(h, n)][1..]]
    ensures WellFormed(h.chain) && 0 < i < |h.chain| - 1 && |popped| == CLASSES
    ensures h.chain[i].free && h.chain[i].addr == b > 0 && size <= h.chain[i].size < LIMIT
    ensures h.chain[i].size >= size + HEADER ==>
              Remainder(h.chain[i], size).addr > 0 && OnNone(Remainder(h.chain[i], size).addr, popped)
  {
    FoundFits(h, n);
    PoppedIsNew(h, i, size, StartList(h, n), popped);
  }

  lemma MallocResult(h: Heap, n: nat, popped: seq<seq<int>>, h': Heap)
    requires Good(h) && n <= MAX_REQUEST && StartList(h, n) < CLASSES
    requires popped == h.lists[StartList(h, n) := h.lists[StartList(h, n)][1..]]
    requires var b := h.chain[FoundAt(h, n)];
             var r := Request(n).0;
             && h'.chain == Splice(h.chain, FoundAt(h, n), FoundAt(h, n), Grant(b, r))
             && h'.lists == (if b.size >= r + HEADER then Push(popped, Remainder(b, r)) else popped)
             && h'.used == h.used + Granted(b, r).size + OVERHEAD
    ensures Good(h') && Malloc(h, n) == (h', Some(h.chain[FoundAt(h, n)].addr + OVERHEAD))
  {
    MallocGood(h, n);
  }

  /** The free neighbours of a held block are on their lists, also once the one behind it has left; the block
      itself is on none. */
  lemma NeighboursListed(h: Heap, i: nat)
    requires Good(h) && 0 < i < |h.chain| - 1 && !h.chain[i].free
    ensures h.chain[i - 1].size < LIMIT && h.chain[i].size < LIMIT && h.chain[i + 1].size < LIMIT
    ensures h.chain[i].addr > 0 && h.chain[i].End() == h.chain[i + 1].addr && h.chain[i - 1].addr < h.chain[i].addr
    ensures var prev, next := h.chain[i - 1], h.chain[i + 1];
            && (next.free ==> next.addr in h.lists[Class(next.size)])
            && (prev.free ==> prev.addr in (if next.free then Unlink(h.lists, next) else h.lists)[Class(prev.size)])
    ensures forall d :: 0 <= d < CLASSES ==> h.chain[i].addr !in h.lists[d]
  {
    Fits(h.chain, i - 1);
    Fits(h.chain, i);
    Fits(h.chain, i + 1);
    Neighbours(h.chain, i);
    if h.chain[i + 1].free { UnlinkMembers(h.chain, h.lists, i + 1); }
    if h.chain[i - 1].free { UnlinkMembers(h.chain, h.lists, i - 1); }
    forall d | 0 <= d < CLASSES
      ensures h.chain[i].addr !in h.lists[d]
    {
      if h.chain[i].addr in h.lists[d] {
        assert IsFree(h.chain, h.chain[i].addr, d);
        var j :| FreeIn(h.chain, j, h.chain[i].addr, d);
        Distinct(h.chain, i, j);
      }
    }
  }

  lemma MergedIsUnlisted(h: Heap, i: nat)
    requires Good(h) && 0 < i < |h.chain| - 1 && !h.chain[i].free
    ensures Merged(h.chain, i).addr > 0
    ensures forall c :: 0 <= c < CLASSES ==> Merged(h.chain, i).addr !in WithoutNeighbours(h, i)[c]
  {
    Fits(h.chain, First(h.chain, i));
    forall c | 0 <= c < CLASSES
      ensures Merged(h.chain, i).addr !in WithoutNeighbours(h, i)[c]
    {
      MergedIsNew(h, i, c);
    }
  }

  /** What MergeBlock needs to know of the released block and its neighbours. */
  ghost predicate Mergeable(lists: seq<seq<int>>, word: map<int, SizeWord>, prevHdr: map<int, int>, pb: Block, blk: Block, e: Block) {
    && |lists| == CLASSES && pb.size < LIMIT && e.size < LIMIT
    && pb.addr < blk.addr && blk.End() == e.addr
    && blk.addr in word && word[blk.addr].bytes == blk.size && word[blk.addr].prevFree == pb.free
    && e.addr in word && word[e.addr].bytes == e.size && word[e.addr].free == e.free
    && pb.addr in word && word[pb.addr].bytes == pb.size && word[pb.addr].free == pb.free
    && (pb.free ==> blk.addr in prevHdr && prevHdr[blk.addr] == pb.addr)
    && (e.free ==> e.addr in lists[Class(e.size)])
    && (pb.free ==> pb.addr in (if e.free then Unlink(lists, e) else lists)[Class(pb.size)])
    && OnNone(blk.addr, lists)
  }

  function Without(lists: seq<seq<int>>, pb: Block, e: Block): seq<seq<int>>
    requires |lists| == CLASSES
  {
    var mid := if e.free then Unlink(lists, e) else lists;
    if pb.free then Unlink(mid, pb) else mid
  }

  /** `m` covers `blk` and those of its neighbours that are free. */
  ghost predicate MergesInto(pb: Block, blk: Block, e: Block, m: Block) {
    && m.addr == (if pb.free then pb.addr else blk.addr)
    && m.size == blk.size + (if pb.free then pb.size + OVERHEAD else 0) + (if e.free then e.size + OVERHEAD else 0)
    && blk.addr < m.End()
  }

  /** The header of the merged block is written; other headers, except the released block's, are not. */
  ghost predicate MergedWord(pb: Block, blk: Block, e: Block, w0: map<int, SizeWord>, w1: map<int, SizeWord>) {
    var a := if pb.free then pb.addr else blk.addr;
    var size := blk.size + (if pb.free then pb.size + OVERHEAD else 0) + (if e.free then e.size + OVERHEAD else 0);
    && a in w0 && a in w1 && w1[a] == SizeWord(size, true, w0[a].prevFree)
    && (forall x :: x in w0 && x != a && x != blk.addr ==> x in w1 && w1[x] == w0[x])
  }

  lemma MergedReads(pb: Block, blk: Block, e: Block, m: Block, w0: map<int, SizeWord>, w1: map<int, SizeWord>)
    requires MergesInto(pb, blk, e, m) && MergedWord(pb, blk, e, w0, w1) && m.End() in w0
    ensures m.addr in w1 && w1[m.addr].bytes == m.size && m.End() in w1
  {
  }

  lemma ReadyToFree(h: Heap, i: nat, word: map<int, SizeWord>, prevHdr: map<int, int>)
    requires Good(h) && TagsOk(h.chain, i + 1, word, prevHdr) && 0 < i < |h.chain| - 1 && !h.chain[i].free
    ensures Mergeable(h.lists, word, prevHdr, h.chain[i - 1], h.chain[i], h.chain[i + 1])
    ensures Without(h.lists, h.chain[i - 1], h.chain[i + 1]) == WithoutNeighbours(h, i)
    ensures OnNone(Merged(h.chain, i).addr, WithoutNeighbours(h, i))
    ensures 0 < Merged(h.chain, i).addr && Merged(h.chain, i).size < LIMIT
    ensures MergesInto(h.chain[i - 1], h.chain[i], h.chain[i + 1], Merged(h.chain, i)) && Merged(h.chain, i).free
    ensures Merged(h.chain, i).End() in word
  {
    NeighboursListed(h, i);
    MergedIsUnlisted(h, i);
    MergedFits(h.chain, i);
    MergedSize(h.chain, i);
    FreeTagsNear(h.chain, i, word, prevHdr);
  }

  lemma FreeResult(h: Heap, i: nat, h1: Heap)
    requires Good(h) && 0 < i < |h.chain| - 1 && !h.chain[i].free
    requires h1.used == h.used - (h.chain[i].size + OVERHEAD) && h1.lists == Push(WithoutNeighbours(h, i), Merged(h.chain, i))
    ensures var t := Splice(h.chain, First(h.chain, i), Last(h.chain, i), [Merged(h.chain, i)]);
            && LiveAt(h, i, h.chain[i].addr + OVERHEAD)
            && Free(h, h.chain[i].addr + OVERHEAD) == Heap(t, h1.lists, h1.used)
            && Good(Heap(t, h1.lists, h1.used))
  {
    assert LiveAt(h, i, h.chain[i].addr + OVERHEAD);
    FindAt(h.chain, i);
    FreeGood(h, h.chain[i].addr + OVERHEAD);
  }

  lemma FreeTagsNear(s: seq<Block>, i: nat, word: map<int, SizeWord>, prevHdr: map<int, int>)
    requires WellFormed(s) && 0 < i < |s| - 1 && TagsOk(s, i + 1, word, prevHdr)
    ensures TagOk(s, i - 1, i + 1, word, prevHdr) && TagOk(s, i, i + 1, word, prevHdr) && TagOk(s, i + 1, i + 1, word, prevHdr)
    ensures Last(s, i) + 1 < |s| && TagOk(s, Last(s, i) + 1, i + 1, word, prevHdr)
    ensures s[Last(s, i)].addr < s[Last(s, i) + 1].addr && s[i].addr <= s[Last(s, i)].addr
    ensures Merged(s, i).End() == s[Last(s, i) + 1].addr
  {
    MergedCovers(s, i);
    Neighbours(s, i);
    Neighbours(s, Last(s, i));
  }

  /** What a release writes to the tags is right for the merged chain. */
  lemma FreedTags(s: seq<Block>, i: nat, w0: map<int, SizeWord>, p0: map<int, int>, w: map<int, SizeWord>, w1: map<int, SizeWord>, p1: map<int, int>)
    requires WellFormed(s) && 0 < i < |s| - 1 && !s[i].free && TagsOk(s, i + 1, w0, p0)
    requires MergedWord(s[i - 1], s[i], s[i + 1], w0, w)
    requires var m := Merged(s, i);
             m.End() in w && w1 == w[m.End() := w[m.End()].(prevFree := true)] && p1 == p0[m.End() := m.addr]
    ensures TagsOk(Splice(s, First(s, i), Last(s, i), [Merged(s, i)]), -1, w1, p1)
  {
    var lo, hi := First(s, i), Last(s, i);
    MergedCovers(s, i);
    MergedSize(s, i);
    FreeTagsNear(s, i, w0, p0);
    forall j | 0 <= j < |s| && (j < lo || hi + 1 < j)
      ensures SameTag(s[j].addr, w0, p0, w1, p1)
    {
      Outside(s, i, j);
    }
    TagsMerged(s, lo, hi, Merged(s, i), i + 1, w0, p0, w1, p1);
  }

  lemma Outside(s: seq<Block>, i: nat, j: nat)
    requires WellFormed(s) && 0 < i < |s| - 1 && !s[i].free && j < |s| && Last(s, i) + 1 < |s|
    requires j < First(s, i) || Last(s, i) + 1 < j
    ensures s[j].addr != s[First(s, i)].addr && s[j].addr != s[i].addr && s[j].addr != s[Last(s, i) + 1].addr
  {
    if s[j].addr == s[First(s, i)].addr { Distinct(s, j, First(s, i)); }
    if s[j].addr == s[i].addr { Distinct(s, j, i); }
    if s[j].addr == s[Last(s, i) + 1].addr { Distinct(s, j, Last(s, i) + 1); }
  }

  /** The remainder's address is on no list, before or after the granted block has left its own. */
  lemma PoppedIsNew(h: Heap, i: nat, r: nat, d: nat, popped: seq<seq<int>>)
    requires Good(h) && i < |h.chain| && d < CLASSES && h.lists[d] != []
    requires popped == h.lists[d := h.lists[d][1..]]
    ensures h.chain[i].size >= r + HEADER ==>
              Remainder(h.chain[i], r).addr > 0 &&
              forall c :: 0 <= c < CLASSES ==> Remainder(h.chain[i], r).addr !in popped[c]
  {
    Fits(h.chain, i);
    if h.chain[i].size >= r + HEADER {
      forall c | 0 <= c < CLASSES
        ensures Remainder(h.chain[i], r).addr !in popped[c]
      {
        RemainderIsNew(h, i, r, c);
      }
    }
  }

  /** Masking the first-level word finds the first later row that is not empty. */
  lemma ColumnSearch(fl: nat, w: nat, words: seq<nat>, lists: seq<seq<int>>)
    requires fl < REAL_FLI && FirstLevelOk(w, words) && |lists| == CLASSES
    requires forall f :: 0 <= f < REAL_FLI ==> SecondLevelOk(f, words[f], lists)
    ensures var t := And(w, OnesFrom(fl + 1, WORD));
            && t < 0x1_0000_0000
            && (LsBit(t) > 0 ==> fl < LsBit(t) < REAL_FLI && words[LsBit(t)] != 0 && EmptyRows(lists, fl + 1, LsBit(t)))
            && (LsBit(t) <= 0 ==> EmptyRows(lists, fl + 1, REAL_FLI))
  {
    var t := And(w, OnesFrom(fl + 1, WORD));
    AndBelow(w, OnesFrom(fl + 1, WORD), WORD);
    assert Pow2(WORD) == 0x1_0000_0000 by { Pow2Values(); }
    LsBitFirst(t);
    forall j: nat
      ensures Bit(t, j) <==> fl < j < REAL_FLI && words[j] != 0
    {
      BitAnd(w, OnesFrom(fl + 1, WORD), j);
      BitOnesFrom(fl + 1, WORD, j);
    }
    ZeroHasNoBit(t, WORD);
    var top := if LsBit(t) > 0 then LsBit(t) else REAL_FLI;
    forall g | fl < g < top
      ensures words[g] == 0
    {
      assert !Bit(t, g);
    }
    EmptyBelow(fl, top, words, lists);
  }

  ghost predicate EmptyRows(lists: seq<seq<int>>, lo: nat, hi: nat)
    requires |lists| == CLASSES && hi <= REAL_FLI
  {
    forall c :: lo * 32 <= c < hi * 32 ==> lists[c] == []
  }

  lemma EmptyBelow(fl: nat, top: nat, words: seq<nat>, lists: seq<seq<int>>)
    requires fl < top <= REAL_FLI && |words| == REAL_FLI && |lists| == CLASSES
    requires forall f :: 0 <= f < REAL_FLI ==> SecondLevelOk(f, words[f], lists)
    requires forall g :: fl < g < top ==> words[g] == 0
    ensures EmptyRows(lists, fl + 1, top)
  {
    forall c | (fl + 1) * 32 <= c < top * 32
      ensures lists[c] == []
    {
      var g := c / 32;
      ZeroBit(c % 32);
      assert SecondLevelOk(g, words[g], lists);
      assert c == g * 32 + c % 32;
    }
  }

  /** Masking a second-level word finds the first non-empty list of the row at or after column `sl`. */
  lemma RowSearch(f: nat, w: nat, sl: nat, lists: seq<seq<int>>)
    requires f < REAL_FLI && sl < MAX_SLI && |lists| == CLASSES && SecondLevelOk(f, w, lists)
    ensures var t := And(w, OnesFrom(sl, WORD));
            && t < 0x1_0000_0000 && w < 0x1_0000_0000
            && (sl == 0 ==> t == w)
            && (t != 0 ==>
                  && sl <= LsBit(t) < MAX_SLI && lists[f * 32 + LsBit(t)] != []
                  && (forall c :: f * 32 + sl <= c < f * 32 + LsBit(t) ==> lists[c] == []))
            && (t == 0 ==> forall c :: f * 32 + sl <= c < f * 32 + 32 ==> lists[c] == [])
  {
    var t := And(w, OnesFrom(sl, WORD));
    MaskedRow(f, w, sl, lists);
    LsBitFirst(t);
    ZeroHasNoBit(t, WORD);
    FirstOfRow(f, t, LsBit(t), sl, lists);
  }

  /** The lowest digit `d` of a word that shows a row from column `sl` on. */
  lemma FirstOfRow(f: nat, t: nat, d: int, sl: nat, lists: seq<seq<int>>)
    requires f < REAL_FLI && sl < MAX_SLI && |lists| == CLASSES
    requires forall j: nat :: Bit(t, j) <==> sl <= j < MAX_SLI && lists[f * 32 + j] != []
    requires t != 0 ==> d >= 0 && Bit(t, d) && forall j: nat :: j < d ==> !Bit(t, j)
    requires t == 0 ==> forall j: nat :: !Bit(t, j)
    ensures t != 0 ==>
              && sl <= d < MAX_SLI && lists[f * 32 + d] != []
              && (forall c :: f * 32 + sl <= c < f * 32 + d ==> lists[c] == [])
    ensures t == 0 ==> forall c :: f * 32 + sl <= c < f * 32 + 32 ==> lists[c] == []
  {
    var top := if t != 0 then d else 32;
    forall c | f * 32 + sl <= c < f * 32 + top
      ensures lists[c] == []
    {
      assert !Bit(t, c - f * 32);
    }
  }

  lemma MaskedRow(f: nat, w: nat, sl: nat, lists: seq<seq<int>>)
    requires f < REAL_FLI && sl < MAX_SLI && |lists| == CLASSES && SecondLevelOk(f, w, lists)
    ensures var t := And(w, OnesFrom(sl, WORD));
            && t < 0x1_0000_0000 && w < 0x1_0000_0000 && t < Pow2(WORD) && (sl == 0 ==> t == w)
            && forall j: nat :: Bit(t, j) <==> sl <= j < MAX_SLI && lists[f * 32 + j] != []
  {
    var t := And(w, OnesFrom(sl, WORD));
    AndBelow(w, OnesFrom(sl, WORD), WORD);
    assert Pow2(WORD) == 0x1_0000_0000 by { Pow2Values(); }
    forall j: nat
      ensures Bit(t, j) <==> sl <= j < MAX_SLI && lists[f * 32 + j] != []
    {
      BitAnd(w, OnesFrom(sl, WORD), j);
      BitOnesFrom(sl, WORD, j);
    }
    if sl == 0 {
      forall k | 0 <= k < WORD
        ensures Bit(t, k) <==> Bit(w, k)
      {
      }
      SameBits(t, w, WORD);
    }
  }

  lemma {:induction false} FirstIs(lists: seq<seq<int>>, c: nat, d: nat)
    requires |lists| == CLASSES && c <= d <= CLASSES && (d < CLASSES ==> lists[d] != [])
    requires forall e :: c <= e < d ==> lists[e] == []
    ensures FirstList(lists, c) == d
  {
  }
}
