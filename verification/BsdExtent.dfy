/** One extent of the page allocator: a page map and a free list threaded through the free pages in address order. */
module BsdExtent {

  const PFREE: nat := 0
  const PCONT: nat := 1
  const PLIST: nat := 2

  /** `n` free pages in a row from page `p` on. */
  ghost predicate FreeRun(m: seq<nat>, p: nat, n: nat) {
    p + n <= |m| && forall q {:trigger m[q]} :: p <= q < p + n ==> m[q] == PFREE
  }

  /** The page map after `n` pages from `p` on became one block whose first page carries `code`. */
  function Carve(m: seq<nat>, p: nat, n: nat, code: nat): (r: seq<nat>)
    requires n >= 1 && p + n <= |m|
    ensures |r| == |m|
    ensures forall q {:trigger r[q]} :: 0 <= q < |m| ==> r[q] == if q == p then code else if p < q < p + n then PCONT else m[q]
  {
    seq(|m|, (q: int) requires 0 <= q < |m| => if q == p then code else if p < q < p + n then PCONT else m[q])
  }

  function Uncarve(m: seq<nat>, p: nat, n: nat): (r: seq<nat>)
    requires p + n <= |m|
    ensures |r| == |m|
    ensures forall q {:trigger r[q]} :: 0 <= q < |m| ==> r[q] == if p <= q < p + n then PFREE else m[q]
  {
    seq(|m|, (q: int) requires 0 <= q < |m| => if p <= q < p + n then PFREE else m[q])
  }

  function ElemAt(s: seq<nat>, i: nat): int {
    if i < |s| then s[i] else -1
  }

  ghost predicate Increasing(s: seq<nat>) {
    forall i, j :: 0 <= i < j < |s| ==> s[i] < s[j]
  }

  /** The link in the `i`th page of the list leads to the next. */
  ghost predicate Follows(link: seq<int>, free: seq<nat>, i: nat) {
    i < |free| && free[i] < |link| && link[free[i]] == ElemAt(free, i + 1)
  }

  /** The links lead through the pages of `free`, in that order. */
  ghost predicate Threads(link: seq<int>, first: int, free: seq<nat>) {
    first == ElemAt(free, 0) && forall i {:trigger Follows(link, free, i)} :: 0 <= i < |free| ==> Follows(link, free, i)
  }

  /** The pages of the list from place `i` to place `j` lie one after the other. */
  ghost predicate Contiguous(free: seq<nat>, i: nat, j: nat) {
    forall k :: i <= k < j && k < |free| ==> free[k] == free[i] + (k - i)
  }

  /** A free page is on the list, and only free pages are. */
  ghost predicate Listed(m: seq<nat>, free: seq<nat>) {
    && (forall k :: 0 <= k < |free| ==> free[k] < |m| && m[free[k]] == PFREE)
    && (forall p :: 0 <= p < |m| && m[p] == PFREE ==> p in free)
  }

  /** No run of `n` pages begins at a listed page before place `i`. */
  ghost predicate NoRunBefore(m: seq<nat>, free: seq<nat>, i: nat, n: nat) {
    forall k :: 0 <= k < i && k < |free| ==> !FreeRun(m, free[k], n)
  }

  /** A stretch that is too short and not continued rules out its pages as beginnings. */
  lemma ShortStretch(m: seq<nat>, free: seq<nat>, h: nat, i: nat, n: nat)
    requires Listed(m, free) && Increasing(free) && h < i <= |free| && i - h < n && Contiguous(free, h, i)
    requires i < |free| ==> free[i] != free[i - 1] + 1
    requires NoRunBefore(m, free, h, n)
    ensures NoRunBefore(m, free, i, n)
  {
    forall k | 0 <= k < i && k < |free|
      ensures !FreeRun(m, free[k], n)
    {
      if k >= h && FreeRun(m, free[k], n) {
        var q := free[i - 1] + 1;
        assert free[i - 1] == free[h] + (i - 1 - h) && free[k] == free[h] + (k - h);
        assert free[k] < q < free[k] + n;
        assert m[q] == PFREE;
        var j :| 0 <= j < |free| && free[j] == q;
        assert false;
      }
    }
  }

  /** The search goes on behind a short stretch. */
  lemma NextPlace(m: seq<nat>, free: seq<nat>, h: nat, c: nat, n: nat) returns (i: nat)
    requires Listed(m, free) && Increasing(free) && 1 <= c < n && h + c <= |free| && Contiguous(free, h, h + c)
    requires ElemAt(free, h + c) != free[h + c - 1] + 1 && NoRunBefore(m, free, h, n)
    ensures i == h + c && NoRunBefore(m, free, i, n)
  {
    i := h + c;
    ShortStretch(m, free, h, i, n);
  }

  /** A long enough contiguous stretch of the list is a run. */
  lemma StretchIsRun(m: seq<nat>, free: seq<nat>, h: nat, i: nat)
    requires Listed(m, free) && h < i <= |free| && Contiguous(free, h, i)
    ensures FreeRun(m, free[h], i - h)
  {
    forall q | free[h] <= q < free[h] + (i - h)
      ensures q < |m| && m[q] == PFREE
    {
      var k := h + (q - free[h]);
      assert free[k] == q;
    }
    assert free[i - 1] == free[h] + (i - 1 - h);
  }

  /** Taking a stretch out of the list. */
  function Without(free: seq<nat>, h: nat, i: nat): seq<nat>
    requires h <= i <= |free|
  {
    free[..h] + free[i..]
  }

  lemma WithoutAt(free: seq<nat>, h: nat, i: nat, k: nat)
    requires h <= i <= |free| && k < |Without(free, h, i)|
    ensures Without(free, h, i)[k] == free[if k < h then k else k + (i - h)]
  {
  }

  lemma TakenIncreasing(free: seq<nat>, h: nat, i: nat)
    requires Increasing(free) && h <= i <= |free|
    ensures Increasing(Without(free, h, i))
  {
    var w := Without(free, h, i);
    forall k, j | 0 <= k < j < |w|
      ensures w[k] < w[j]
    {
      WithoutAt(free, h, i, k);
      WithoutAt(free, h, i, j);
    }
  }

  /** Which listed pages a contiguous stretch covers. */
  lemma StretchCovers(free: seq<nat>, h: nat, i: nat, k: nat)
    requires Increasing(free) && h < i <= |free| && Contiguous(free, h, i) && k < |free|
    ensures free[h] <= free[k] < free[h] + (i - h) <==> h <= k < i
  {
    assert free[i - 1] == free[h] + (i - 1 - h);
    assert h <= k < i ==> free[k] == free[h] + (k - h);
    assert k < h ==> free[k] < free[h];
    assert k >= i ==> free[i - 1] < free[k];
  }

  lemma TakenListed(m: seq<nat>, m': seq<nat>, free: seq<nat>, rest: seq<nat>, h: nat, n: nat, p: nat, code: nat)
    requires Listed(m, free) && Increasing(free) && n >= 1 && h + n <= |free| && Contiguous(free, h, h + n) && code > PCONT
    requires p == free[h] && p + n <= |m| && m' == Carve(m, p, n, code) && rest == Without(free, h, h + n)
    ensures Listed(m', rest)
  {
    forall k | 0 <= k < |rest|
      ensures rest[k] < |m'| && m'[rest[k]] == PFREE
    {
      WithoutAt(free, h, h + n, k);
      StretchCovers(free, h, h + n, if k < h then k else k + n);
    }
    forall q | 0 <= q < |m'| && m'[q] == PFREE
      ensures q in rest
    {
      assert m[q] == PFREE;
      var j :| 0 <= j < |free| && free[j] == q;
      StretchCovers(free, h, h + n, j);
      WithoutAt(free, h, h + n, if j < h then j else j - n);
    }
  }

  /** Putting the pages from `p` to `p + n` back into the list at place `at`. */
  function With(free: seq<nat>, at: nat, p: nat, n: nat): (r: seq<nat>)
    requires at <= |free|
    ensures |r| == |free| + n
    ensures forall k {:trigger r[k]} :: 0 <= k < |r| ==> r[k] == if k < at then free[k] else if k < at + n then p + (k - at) else free[k - n]
  {
    free[..at] + seq(n, (k: int) requires 0 <= k => (p + k) as nat) + free[at..]
  }

  lemma GivenIncreasing(m: seq<nat>, free: seq<nat>, at: nat, p: nat, n: nat)
    requires Listed(m, free) && Increasing(free) && at <= |free| && p + n <= |m| && n >= 1
    requires forall q :: p <= q < p + n ==> m[q] != PFREE
    requires (at > 0 ==> free[at - 1] < p) && (at < |free| ==> p < free[at])
    ensures at < |free| ==> p + n <= free[at]
    ensures Increasing(With(free, at, p, n))
  {
    var w := With(free, at, p, n);
    assert at < |free| ==> p + n <= free[at];
    forall i, j | 0 <= i < j < |w|
      ensures w[i] < w[j]
    {
      if i < at && j >= at { assert i < at - 1 ==> free[i] < free[at - 1]; }
      assert j >= at + n && j - n > at ==> free[at] < free[j - n];
    }
  }

  lemma GivenListed(m: seq<nat>, free: seq<nat>, at: nat, p: nat, n: nat)
    requires Listed(m, free) && Increasing(free) && at <= |free| && p + n <= |m| && n >= 1
    requires forall q :: p <= q < p + n ==> m[q] != PFREE
    requires (at > 0 ==> free[at - 1] < p) && (at < |free| ==> p < free[at])
    ensures Listed(Uncarve(m, p, n), With(free, at, p, n)) && Increasing(With(free, at, p, n))
  {
    var w, m' := With(free, at, p, n), Uncarve(m, p, n);
    GivenIncreasing(m, free, at, p, n);
    forall q | 0 <= q < |m'| && m'[q] == PFREE
      ensures q in w
    {
      if p <= q < p + n {
        assert w[at + (q - p)] == q;
      } else {
        assert m[q] == PFREE;
        var j :| 0 <= j < |free| && free[j] == q;
        assert w[if j < at then j else j + n] == q;
      }
    }
  }

  /** The first run found in the list is the first run of the extent. */
  lemma FirstRun(m: seq<nat>, free: seq<nat>, h: nat, n: nat)
    requires Listed(m, free) && Increasing(free) && h <= |free| && NoRunBefore(m, free, h, n) && n >= 1
    ensures forall p {:trigger FreeRun(m, p, n)} :: 0 <= p < |m| && (h < |free| ==> p < free[h]) ==> !FreeRun(m, p, n)
  {
    forall p: nat | p < |m| && (h < |free| ==> p < free[h])
      ensures !FreeRun(m, p, n)
    {
      assert m[p] == PFREE ==> p in free;
    }
  }

  lemma Unlinked(link: seq<int>, link': seq<int>, first: int, first': int, free: seq<nat>, h: nat, i: nat)
    requires Threads(link, first, free) && Increasing(free) && h < i <= |free| && |link'| == |link|
    requires forall q :: 0 <= q < |link| && !(h > 0 && q == free[h - 1]) ==> link'[q] == link[q]
    requires h == 0 ==> first' == ElemAt(free, i)
    requires h > 0 ==> first' == first && Follows(link, free, h - 1) && link'[free[h - 1]] == ElemAt(free, i)
    ensures Threads(link', first', Without(free, h, i))
  {
    var w := Without(free, h, i);
    forall k | 0 <= k < |w|
      ensures Follows(link', w, k)
    {
      var o := if k < h then k else k + (i - h);
      assert Follows(link, free, o);
      assert h > 0 && o != h - 1 ==> free[o] != free[h - 1];
    }
  }

  /** Pages off the list can be relinked without disturbing it. */
  lemma ThreadsFrame(link: seq<int>, link': seq<int>, first: int, free: seq<nat>, p: nat, n: nat)
    requires Threads(link, first, free) && |link'| == |link|
    requires forall k :: 0 <= k < |free| ==> !(p <= free[k] < p + n)
    requires forall q :: 0 <= q < |link| && !(p <= q < p + n) ==> link'[q] == link[q]
    ensures Threads(link', first, free)
  {
    forall k | 0 <= k < |free|
      ensures Follows(link', free, k)
    {
      assert Follows(link, free, k);
    }
  }

  lemma Relinked(link: seq<int>, link': seq<int>, first: int, first': int, free: seq<nat>, at: nat, p: nat, n: nat)
    requires Threads(link, first, free) && Increasing(free) && at <= |free| && p + n <= |link| && n >= 1
    requires forall q {:trigger link[q]} :: p <= q < p + n - 1 ==> link[q] == q + 1
    requires forall k :: 0 <= k < |free| ==> !(p <= free[k] < p + n)
    requires |link'| == |link| && link'[p + n - 1] == ElemAt(free, at)
    requires forall q :: 0 <= q < |link| && q != p + n - 1 && !(at > 0 && q == free[at - 1]) ==> link'[q] == link[q]
    requires at == 0 ==> first' == p
    requires at > 0 ==> first' == first && Follows(link, free, at - 1) && link'[free[at - 1]] == p
    ensures Threads(link', first', With(free, at, p, n))
  {
    var w := With(free, at, p, n);
    forall k | 0 <= k < |w|
      ensures Follows(link', w, k)
    {
      if k < at {
        assert Follows(link, free, k);
      } else if k < at + n {
        assert w[k] == p + (k - at);
        assert k < at + n - 1 ==> link[w[k]] == w[k] + 1;
      } else {
        assert Follows(link, free, k - n);
      }
    }
  }

  class Extent {
    const pagemap: array<nat>   // one entry a page, and a free one behind them
    const link: array<int>      // the word in each free page
    var freelist: int
    ghost var free: seq<nat>

    ghost predicate Valid()
      reads this, pagemap, link
    {
      && pagemap.Length == link.Length + 1 && pagemap[link.Length] == PFREE
      && Listed(Map(), free) && Increasing(free) && Threads(link[..], freelist, free)
    }

    ghost function Map(): (m: seq<nat>)
      requires pagemap.Length == link.Length + 1
      reads pagemap
      ensures |m| == link.Length
    {
      pagemap[..link.Length]
    }

    /** Every page is free and leads to the next. */
    constructor (npages: nat)
      requires npages >= 1
      ensures Valid() && link.Length == npages && fresh(pagemap) && fresh(link)
      ensures forall p :: 0 <= p < npages ==> Map()[p] == PFREE
    {
      pagemap := new nat[npages + 1](_ => PFREE);
      link := new int[npages](i => if i + 1 < npages then i + 1 else -1);
      freelist := 0;
      free := seq(npages, i => i);
      new;
      forall p | 0 <= p < npages
        ensures p in free
      {
        assert free[p] == p;
      }
      forall i | 0 <= i < npages
        ensures Follows(link[..], free, i)
      {
      }
    }

    /** Follows the list from `headpage` while pages are contiguous and fewer than `n`. */
    method FollowStretch(headpage: nat, n: nat, ghost h: nat) returns (lastpage: nat, freepage: int, freecont: nat)
      requires Threads(link[..], freelist, free) && h < |free| && headpage == free[h] && n >= 1
      ensures 1 <= freecont <= n && h + freecont <= |free| && Contiguous(free, h, h + freecont)
      ensures lastpage == free[h + freecont - 1] && freepage == ElemAt(free, h + freecont)
      ensures freecont < n ==> freepage != lastpage + 1
    {
      lastpage, freepage, freecont := headpage, headpage, 0;
      var more := true;
      while more
        invariant freecont <= n && h + freecont <= |free| && Contiguous(free, h, h + freecont)
        invariant freepage == ElemAt(free, h + freecont)
        invariant freecont > 0 ==> lastpage == free[h + freecont - 1]
        invariant more ==> freecont < n && freepage >= 0 && freepage == free[h] + freecont
        invariant !more ==> freecont > 0 && (freecont < n ==> freepage != lastpage + 1)
        decreases n - freecont, more
      {
        lastpage := freepage;
        assert Follows(link[..], free, h + freecont);
        freepage := link[freepage];
        freecont := freecont + 1;
        more := freepage == lastpage + 1 && freecont < n;
      }
    }

    /** Searches the free list for `n` contiguous pages, first fit, and takes them for a block marked `code`. */
    method TakeRange(n: nat, code: nat) returns (head: int)
      requires Valid() && n >= 1 && code > PCONT
      modifies this, pagemap, link
      ensures Valid()
      ensures head < 0 ==> Map() == old(Map()) && forall p: nat :: p < link.Length ==> !FreeRun(Map(), p, n)
      ensures head >= 0 ==>
                && FreeRun(old(Map()), head, n) && Map() == Carve(old(Map()), head, n, code)
                && forall p: nat :: p < head ==> !FreeRun(old(Map()), p, n)
    {
      ghost var m := Map();
      var found, headpage, lastpage, freehead, i := FindRange(n, m);
      FirstRun(m, free, i, n);
      if !found {
        return -1;
      }
      StretchIsRun(m, free, i, i + n);
      Take(headpage, lastpage, freehead, n, code, i);
      return headpage;
    }

    /** The search: `i` is the place of the run in the list, or the end of the list. */
    method FindRange(n: nat, ghost m: seq<nat>) returns (found: bool, headpage: nat, lastpage: nat, freehead: int, ghost i: nat)
      requires Threads(link[..], freelist, free) && Listed(m, free) && Increasing(free) && n >= 1
      ensures i <= |free| && NoRunBefore(m, free, i, n) && (!found ==> i == |free|)
      ensures found ==> i + n <= |free| && Contiguous(free, i, i + n) && headpage == free[i] && lastpage == free[i + n - 1]
      ensures found ==> freehead == if i == 0 then -1 else free[i - 1]
    {
      var freepage := freelist;
      found, headpage, lastpage, freehead := false, 0, 0, -1;
      i := 0;
      while freepage >= 0
        invariant i <= |free| && NoRunBefore(m, free, i, n)
        invariant freehead == if i == 0 then -1 else free[i - 1]
        invariant freepage == ElemAt(free, i)
        decreases |free| - i
      {
        headpage := freepage;
        var freecont;
        lastpage, freepage, freecont := FollowStretch(headpage, n, i);
        if freecont >= n {
          return true, headpage, lastpage, freehead, i;
        }
        freehead := lastpage;
        i := NextPlace(m, free, i, freecont, n);
      }
    }

    /** Unlinks the pages found and marks them. */
    method Take(headpage: nat, lastpage: nat, freehead: int, n: nat, code: nat, ghost h: nat)
      requires Valid() && n >= 1 && code > PCONT && h + n <= |free| && Contiguous(free, h, h + n)
      requires FreeRun(Map(), headpage, n)
      requires headpage == free[h] && lastpage == free[h + n - 1] && freehead == if h == 0 then -1 else free[h - 1]
      modifies this, pagemap, link
      ensures Valid() && Map() == Carve(old(Map()), headpage, n, code)
    {
      ghost var m' := Carve(Map(), headpage, n, code);
      ghost var rest := Without(free, h, h + n);
      TakenListed(Map(), m', free, rest, h, n, headpage, code);
      TakenIncreasing(free, h, h + n);
      Rewrite(headpage, lastpage, freehead, n, code, h, m', rest);
    }

    /** Changes links and map, given that list and map will agree afterwards. */
    method Rewrite(headpage: nat, lastpage: nat, freehead: int, n: nat, code: nat, ghost h: nat, ghost m': seq<nat>, ghost rest: seq<nat>)
      requires pagemap.Length == link.Length + 1 && pagemap[link.Length] == PFREE
      requires Increasing(free) && Threads(link[..], freelist, free) && n >= 1 && h + n <= |free|
      requires headpage == free[h] && lastpage == free[h + n - 1] && freehead == if h == 0 then -1 else free[h - 1]
      requires headpage + n <= link.Length && m' == Carve(Map(), headpage, n, code)
      requires rest == Without(free, h, h + n) && Listed(m', rest) && Increasing(rest)
      modifies this, pagemap, link
      ensures Valid() && Map() == m'
    {
      Unlink(headpage, lastpage, freehead, n, h);
      Mark(headpage, n, code);
      free := rest;
      assert Map() == m';
    }

    method Unlink(headpage: nat, lastpage: nat, freehead: int, n: nat, ghost h: nat)
      requires pagemap.Length == link.Length + 1 && Increasing(free) && Threads(link[..], freelist, free)
      requires n >= 1 && h + n <= |free|
      requires headpage == free[h] && lastpage == free[h + n - 1] && freehead == if h == 0 then -1 else free[h - 1]
      modifies this`freelist, link
      ensures Threads(link[..], freelist, Without(free, h, h + n))
    {
      ghost var l := link[..];
      assert Follows(l, free, h + n - 1) && (h > 0 ==> Follows(l, free, h - 1));
      assert h > 0 ==> free[0] < free[h];
      if headpage == freelist {
        freelist := link[lastpage];
      } else {
        link[freehead] := link[lastpage];
      }
      Unlinked(l, link[..], old(freelist), freelist, free, h, h + n);
    }

    method Mark(headpage: nat, n: nat, code: nat)
      requires pagemap.Length == link.Length + 1 && n >= 1 && headpage + n <= link.Length
      modifies pagemap
      ensures Map() == Carve(old(Map()), headpage, n, code) && pagemap[link.Length] == old(pagemap[link.Length])
    {
      ghost var m := Map();
      pagemap[headpage] := code;
      var pagecont := n;
      while pagecont > 1
        invariant 1 <= pagecont <= n && pagemap[headpage] == code && pagemap[link.Length] == old(pagemap[link.Length])
        invariant forall q :: 0 <= q < link.Length && !(headpage <= q < headpage + n) ==> pagemap[q] == m[q]
        invariant forall q :: headpage + pagecont <= q < headpage + n ==> pagemap[q] == PCONT
      {
        pagemap[headpage + pagecont - 1] := PCONT;
        pagecont := pagecont - 1;
      }
    }

    /** Gives `n` pages back: links them up, marks them free and puts them where they belong by address. */
    method GiveRange(block: nat, n: nat)
      requires Valid() && n >= 1 && block + n <= link.Length && forall q :: block <= q < block + n ==> Map()[q] != PFREE
      modifies this, pagemap, link
      ensures Valid() && Map() == Uncarve(old(Map()), block, n)
    {
      ghost var m := Map();
      assert forall k :: 0 <= k < |free| ==> m[free[k]] == PFREE;
      LinkUp(block, n);
      Unmark(block, n);
      var lastpage, nextpage, at := FindPlace(block);
      assert at < |free| ==> m[free[at]] == PFREE;
      Insert(block, n, lastpage, nextpage, at);
      GivenListed(m, free, at, block, n);
      free := With(free, at, block, n);
    }

    /** Links the pages in a single sub-list; the last page's link is still to be written. */
    method LinkUp(block: nat, n: nat)
      requires n >= 1 && block + n <= link.Length && Threads(link[..], freelist, free)
      requires forall k :: 0 <= k < |free| ==> !(block <= free[k] < block + n)
      modifies link
      ensures Threads(link[..], freelist, free)
      ensures forall q {:trigger link[q]} :: block <= q < block + n - 1 ==> link[q] == q + 1
    {
      ghost var l := link[..];
      var freepage := block;
      while freepage < block + n - 1
        invariant block <= freepage <= block + n - 1
        invariant forall q :: 0 <= q < link.Length ==> link[q] == if block <= q < freepage then q + 1 else l[q]
      {
        link[freepage] := freepage + 1;
        freepage := freepage + 1;
      }
      ThreadsFrame(l, link[..], freelist, free, block, n);
    }

    method Unmark(block: nat, n: nat)
      requires pagemap.Length == link.Length + 1 && block + n <= link.Length
      modifies pagemap
      ensures Map() == Uncarve(old(Map()), block, n) && pagemap[link.Length] == old(pagemap[link.Length])
    {
      ghost var m := Map();
      var pagecont := 0;
      while pagecont < n
        invariant pagecont <= n && pagemap[link.Length] == old(pagemap[link.Length])
        invariant forall q :: 0 <= q < link.Length ==> pagemap[q] == if block <= q < block + pagecont then PFREE else m[q]
      {
        pagemap[block + pagecont] := PFREE;
        pagecont := pagecont + 1;
      }
    }

    /** Walks to where `block` belongs by address: place `at` of the list. */
    method FindPlace(block: nat) returns (lastpage: int, nextpage: int, ghost at: nat)
      requires Threads(link[..], freelist, free)
      ensures at <= |free| && nextpage == ElemAt(free, at) && lastpage == (if at == 0 then -1 else free[at - 1])
      ensures (at > 0 ==> free[at - 1] < block) && (at < |free| ==> block <= free[at])
    {
      nextpage, lastpage := freelist, -1;
      at := 0;
      while nextpage >= 0 && nextpage < block
        invariant at <= |free| && nextpage == ElemAt(free, at) && lastpage == (if at == 0 then -1 else free[at - 1])
        invariant at > 0 ==> free[at - 1] < block
        decreases |free| - at
      {
        assert Follows(link[..], free, at);
        lastpage := nextpage;
        nextpage := link[nextpage];
        at := at + 1;
      }
    }

    /** Hangs the sub-list between `lastpage` and `nextpage`. */
    method Insert(block: nat, n: nat, lastpage: int, nextpage: int, ghost at: nat)
      requires n >= 1 && block + n <= link.Length && Threads(link[..], freelist, free) && Increasing(free)
      requires forall k :: 0 <= k < |free| ==> !(block <= free[k] < block + n)
      requires forall q {:trigger link[q]} :: block <= q < block + n - 1 ==> link[q] == q + 1
      requires at <= |free| && nextpage == ElemAt(free, at) && lastpage == if at == 0 then -1 else free[at - 1]
      modifies this`freelist, link
      ensures Threads(link[..], freelist, With(free, at, block, n))
    {
      ghost var l := link[..];
      assert at > 0 ==> Follows(l, free, at - 1);
      link[block + n - 1] := nextpage;
      if lastpage >= 0 {
        link[lastpage] := block;
      } else {
        freelist := block;
      }
      Relinked(l, link[..], old(freelist), freelist, free, at, block, n);
    }
  }
}
