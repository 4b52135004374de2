/** The ring buffer of a FIFO or mailbox: putting, getting, peeking, overwriting and resizing in chunks that stop at
    the end of the buffer, refined against a plain sequence of bytes. */
module Ring {

  const EINVAL: int := -22
  const EBUSY: int := -16

  newtype byte = x: int | 0 <= x < 256

  function Min(a: int, b: int): int {
    if a < b then a else b
  }

  function Max(a: int, b: int): int {
    if a < b then b else a
  }

  function ModSize(i: nat, size: nat): nat {
    if i < size then i else i - size
  }

  /** The `n` bytes from index `f` on, going round at the end of the buffer. */
  function Window(b: seq<byte>, f: nat, n: nat): (s: seq<byte>)
    requires f < |b| && n <= |b|
    ensures |s| == n
    ensures forall i :: 0 <= i < n ==> s[i] == b[ModSize(f + i, |b|)]
  {
    seq(n, (i: int) requires 0 <= i < n => b[ModSize(f + i, |b|)])
  }

  /** The last `n` elements, or all of them. */
  function Last(s: seq<byte>, n: nat): seq<byte> {
    s[Max(0, |s| - n)..]
  }

  /** `lbyte` may stand at the very end of the buffer until the next put, as it does after a resize to the exact size. */
  predicate Placed(size: nat, fbyte: nat, lbyte: nat, avbs: nat) {
    && fbyte < size && avbs <= size && lbyte <= size
    && (lbyte == fbyte + avbs || lbyte + size == fbyte + avbs || (lbyte == size && fbyte + avbs == 0))
  }

  lemma WriteBehind(b: seq<byte>, b': seq<byte>, f: nat, n: nat, l: nat, chunk: seq<byte>)
    requires Placed(|b|, f, l, n) && n + |chunk| <= |b| && l + |chunk| <= |b|
    requires b' == b[..l] + chunk + b[l + |chunk|..]
    ensures Window(b', f, n + |chunk|) == Window(b, f, n) + chunk
  {
    forall i | 0 <= i < n + |chunk|
      ensures Window(b', f, n + |chunk|)[i] == (Window(b, f, n) + chunk)[i]
    {
      var j := ModSize(f + i, |b|);
      if i < n {
        assert j < l || j >= l + |chunk|;
      } else {
        assert chunk != [] && j == l + (i - n);
      }
    }
  }

  lemma ReadAhead(b: seq<byte>, f: nat, n: nat, c: nat)
    requires f < |b| && c <= n <= |b| && f + c <= |b|
    ensures b[f..f + c] == Window(b, f, n)[..c]
    ensures Window(b, ModSize(f + c, |b|), n - c) == Window(b, f, n)[c..]
  {
  }

  lemma FromStart(b: seq<byte>, s: seq<byte>)
    requires 0 < |b| && |s| <= |b| && b[..|s|] == s
    ensures Window(b, 0, |s|) == s
  {
    forall i | 0 <= i < |s|
      ensures Window(b, 0, |s|)[i] == s[i]
    {
      assert b[..|s|][i] == b[i];
    }
  }

  lemma Advance(s: seq<byte>, k: nat, c: nat)
    requires k + c <= |s|
    ensures s[..k] + s[k..][..c] == s[..k + c] && s[k..][c..] == s[k + c..]
  {
  }

  class Ring {
    var bufadr: array<byte>
    var size: nat
    var fbyte: nat
    var lbyte: nat
    var avbs: nat
    var frbs: nat

    ghost predicate Valid()
      reads this, bufadr
    {
      bufadr.Length == size && avbs + frbs == size && Placed(size, fbyte, lbyte, avbs)
    }

    ghost function Contents(): (s: seq<byte>)
      requires Valid()
      reads this, bufadr
      ensures |s| == avbs
    {
      Window(bufadr[..], fbyte, avbs)
    }

    constructor (n: nat)
      requires n > 0
      ensures Valid() && size == n && Contents() == []
      ensures fresh(bufadr)
    {
      bufadr := new byte[n];
      size, frbs := n, n;
      fbyte, lbyte, avbs := 0, 0, 0;
    }

    /** Copies one chunk in at `lbyte` and accounts for it. */
    method CopyIn(chunk: seq<byte>)
      requires Valid() && |chunk| <= frbs && |chunk| <= size - lbyte
      modifies this`lbyte, this`avbs, this`frbs, bufadr
      ensures Valid() && frbs == old(frbs) - |chunk|
      ensures Contents() == old(Contents()) + chunk
      ensures lbyte == ModSize(old(lbyte) + |chunk|, size)
    {
      forall i | 0 <= i < |chunk| {
        bufadr[lbyte + i] := chunk[i];
      }
      assert bufadr[..] == old(bufadr[..])[..lbyte] + chunk + old(bufadr[..])[lbyte + |chunk|..];
      WriteBehind(old(bufadr[..]), bufadr[..], fbyte, avbs, lbyte, chunk);
      lbyte := ModSize(lbyte + |chunk|, size);
      frbs := frbs - |chunk|;
      avbs := avbs + |chunk|;
    }

    /** Copies one chunk out at `fbyte` and frees it. */
    method CopyOut(n: nat) returns (part: seq<byte>)
      requires Valid() && n <= avbs && n <= size - fbyte
      modifies this`fbyte, this`avbs, this`frbs
      ensures Valid() && avbs == old(avbs) - n
      ensures part == old(Contents())[..n] && Contents() == old(Contents())[n..]
    {
      ReadAhead(bufadr[..], fbyte, avbs, n);
      part := bufadr[fbyte..fbyte + n];
      Drop(n);
    }

    /** Frees one chunk at `fbyte`. */
    method Drop(n: nat)
      requires Valid() && n <= avbs && n <= size - fbyte
      modifies this`fbyte, this`avbs, this`frbs
      ensures Valid() && frbs == old(frbs) + n
      ensures Contents() == old(Contents())[n..]
      ensures fbyte == ModSize(old(fbyte) + n, size)
    {
      ReadAhead(bufadr[..], fbyte, avbs, n);
      frbs := frbs + n;
      avbs := avbs - n;
      fbyte := ModSize(fbyte + n, size);
    }

    /** Appends as much of the message as fits and returns how many bytes did not. */
    method Put(msg: seq<byte>) returns (left: nat)
      requires Valid()
      modifies this`lbyte, this`avbs, this`frbs, bufadr
      ensures Valid()
      ensures left == Max(0, |msg| - old(frbs))
      ensures Contents() == old(Contents()) + msg[..|msg| - left]
    {
      left := |msg|;
      ghost var room := frbs;
      while left > 0 && frbs > 0
        invariant Valid() && left <= |msg| && frbs == room - (|msg| - left)
        invariant Contents() == old(Contents()) + msg[..|msg| - left]
        decreases left, size - lbyte == 0
      {
        var at := |msg| - left;
        var tocpy := Min(Min(size - lbyte, left), frbs);
        CopyIn(msg[at..at + tocpy]);
        assert msg[..at] + msg[at..at + tocpy] == msg[..at + tocpy];
        left := left - tocpy;
      }
    }

    /** Removes up to `n` bytes from the front; `left` says how many fewer than `n` there were. */
    method Get(n: nat) returns (left: nat, msg: seq<byte>)
      requires Valid()
      modifies this`fbyte, this`avbs, this`frbs
      ensures Valid()
      ensures left == Max(0, n - old(avbs))
      ensures msg == old(Contents())[..n - left]
      ensures Contents() == old(Contents())[n - left..]
    {
      ghost var c0, k: nat := Contents(), 0;
      left, msg := n, [];
      while left > 0 && avbs > 0
        invariant Valid() && left == n - k && avbs == |c0| - k && k <= |c0|
        invariant msg == c0[..k] && Contents() == c0[k..]
        decreases left
      {
        var tocpy: nat := Min(Min(size - fbyte, left), avbs);
        var part := CopyOut(tocpy);
        Advance(c0, k, tocpy);
        msg := msg + part;
        left := left - tocpy;
        k := k + tocpy;
      }
    }

    /** Peeking returns what `Get` would and changes nothing. */
    method Evdrp(n: nat) returns (left: nat, msg: seq<byte>)
      requires Valid()
      ensures left == Max(0, n - avbs)
      ensures msg == Contents()[..n - left]
    {
      ghost var b, c := bufadr[..], Contents();
      var f: nat, a: nat := fbyte, avbs;
      left, msg := n, [];
      while left > 0 && a > 0
        invariant left <= n && a <= |b| == size && |c| == a + (n - left) && f < size
        invariant msg == c[..n - left]
        invariant Window(b, f, a) == c[n - left..]
      {
        var tocpy := Min(Min(size - f, left), a);
        ReadAhead(b, f, a, tocpy);
        Advance(c, n - left, tocpy);
        msg := msg + bufadr[f..f + tocpy];
        a := a - tocpy;
        left := left - tocpy;
        f := ModSize(f + tocpy, size);
      }
    }

    /** Always takes the whole message, at the price of the oldest bytes. */
    method OvrwrPut(msg: seq<byte>)
      requires Valid()
      modifies this`fbyte, this`lbyte, this`avbs, this`frbs, bufadr
      ensures Valid()
      ensures Contents() == Last(old(Contents()) + msg, size)
    {
      var rest := msg;
      if |rest| > size {
        rest := rest[|rest| - size..];
      }
      ghost var whole := Contents() + rest;
      LastOfTail(Contents(), msg, rest, size);
      while |rest| > 0
        invariant Valid() && |rest| <= size
        invariant Kept(whole, Contents(), rest, size)
        decreases |rest|, size - lbyte == 0, frbs == 0
      {
        if frbs > 0 {
          rest := PutChunk(whole, rest);
        }
        if |rest| > 0 {
          MakeRoom(whole, rest);
        }
      }
      KeptAll(whole, Contents(), rest, size);
    }

    /** Copies in as much of the rest as goes in one piece. */
    method PutChunk(ghost whole: seq<byte>, rest: seq<byte>) returns (rest': seq<byte>)
      requires Valid() && 0 < |rest| <= size && frbs > 0 && Kept(whole, Contents(), rest, size)
      modifies this`lbyte, this`avbs, this`frbs, bufadr
      ensures Valid() && Kept(whole, Contents(), rest', size)
      ensures |rest'| < |rest| || (rest' == rest && old(lbyte) == size && lbyte == 0 && frbs == old(frbs))
    {
      var tocpy := Min(Min(size - lbyte, |rest|), frbs);
      Moved(whole, Contents(), rest, tocpy, size);
      CopyIn(rest[..tocpy]);
      rest' := rest[tocpy..];
    }

    /** Drops the oldest bytes until the rest of the message fits. */
    method MakeRoom(ghost whole: seq<byte>, rest: seq<byte>)
      requires Valid() && |rest| <= size && Kept(whole, Contents(), rest, size)
      modifies this`fbyte, this`avbs, this`frbs
      ensures Valid() && |rest| <= frbs && Kept(whole, Contents(), rest, size)
    {
      while |rest| > frbs
        invariant Valid() && Kept(whole, Contents(), rest, size)
        decreases size - frbs
      {
        var tocpy := Min(Min(size - fbyte, |rest| - frbs), avbs);
        Shed(whole, Contents(), rest, tocpy, size);
        Drop(tocpy);
      }
    }

    /** Changes the size while no sender is inside; refused for size 0 and when the contents would not fit. */
    method Resize(n: nat) returns (r: int)
      requires Valid()
      modifies this
      ensures Valid() && Contents() == old(Contents())
      ensures r == if n == 0 then EINVAL else if n < old(avbs) then EBUSY else n
      ensures if r > 0 then size == n && fresh(bufadr) else size == old(size) && bufadr == old(bufadr)
    {
      if n == 0 {
        return EINVAL;
      }
      if n < avbs {
        return EBUSY;
      }
      var newbuf := new byte[n];
      var left, got := Get(n);
      forall i | 0 <= i < |got| {
        newbuf[i] := got[i];
      }
      assert newbuf[..][..|got|] == got == old(Contents());
      FromStart(newbuf[..], got);
      frbs := left;
      avbs := n - frbs;
      lbyte := n - frbs;
      fbyte := 0;
      bufadr := newbuf;
      size := n;
      return n;
    }
  }

  /** Contents and rest are the tail of the whole, and nothing was dropped that still fits. */
  predicate Kept(whole: seq<byte>, contents: seq<byte>, rest: seq<byte>, size: nat) {
    && contents + rest == Last(whole, |contents| + |rest|)
    && Min(|whole|, size) <= |contents| + |rest| <= |whole|
  }

  /** Only the last `size` bytes of a message count. */
  lemma LastOfTail(c: seq<byte>, msg: seq<byte>, rest: seq<byte>, size: nat)
    requires rest == if |msg| > size then msg[|msg| - size..] else msg
    ensures Last(c + rest, size) == Last(c + msg, size) && Kept(c + rest, c, rest, size)
  {
    assert (c + rest)[0..] == c + rest;
  }

  lemma KeptAll(whole: seq<byte>, contents: seq<byte>, rest: seq<byte>, size: nat)
    requires Kept(whole, contents, rest, size) && rest == [] && |contents| <= size
    ensures contents == Last(whole, size)
  {
    assert contents + rest == contents;
  }

  lemma Moved(whole: seq<byte>, contents: seq<byte>, rest: seq<byte>, c: nat, size: nat)
    requires Kept(whole, contents, rest, size) && c <= |rest|
    ensures Kept(whole, contents + rest[..c], rest[c..], size)
  {
    assert (contents + rest[..c]) + rest[c..] == contents + rest;
  }

  lemma Shed(whole: seq<byte>, contents: seq<byte>, rest: seq<byte>, c: nat, size: nat)
    requires Kept(whole, contents, rest, size) && c <= |contents| && size <= |contents| - c + |rest|
    ensures Kept(whole, contents[c..], rest, size)
  {
    assert contents[c..] + rest == (contents + rest)[c..];
  }
}
