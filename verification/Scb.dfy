/** The lock-free circular buffer of one writer and one reader.  A class gives its calls run alone; a state machine
    gives them interleaved byte by byte, each side deciding on a possibly outdated copy of the other's index. */
module Scb {
  import opened Ring

  /** How many bytes lie from `f` up to `l` in a buffer of `size` bytes, one of which is never used. */
  function Avbs(size: nat, f: nat, l: nat): nat
    requires f < size && l < size
  {
    if l >= f then l - f else size + l - f
  }

  /** The writer's test for room, on its copy `f` of the reader's index. */
  predicate PutFits(size: nat, f: nat, l: nat, n: nat)
    requires f < size && l < size
  {
    var d := f - l;
    n > 0 && (if d <= 0 then size + d else d) > n
  }

  /** The reader's test for bytes, on its copy `l` of the writer's index. */
  predicate GetFits(size: nat, f: nat, l: nat, n: nat)
    requires f < size && l < size
  {
    var d := l - f;
    n > 0 && (if d >= 0 then d else size + d) >= n
  }

  lemma FitsMeans(size: nat, f: nat, l: nat, n: nat)
    requires f < size && l < size
    ensures PutFits(size, f, l, n) <==> 0 < n <= size - 1 - Avbs(size, f, l)
    ensures GetFits(size, f, l, n) <==> 0 < n <= Avbs(size, f, l)
  {
  }

  /** The index that a call publishes after `n` bytes from `i`. */
  function Next(size: nat, i: nat, n: nat): nat
    requires i < size && n <= size
  {
    if size - i > n then i + n else n - (size - i)
  }

  lemma AfterGet(size: nat, f: nat, l: nat, n: nat)
    requires f < size && l < size && n <= Avbs(size, f, l)
    ensures Next(size, f, n) < size && Avbs(size, Next(size, f, n), l) == Avbs(size, f, l) - n
    ensures Next(size, f, n) == ModSize(f + n, size)
  {
  }

  lemma AfterPut(size: nat, f: nat, l: nat, n: nat)
    requires f < size && l < size && Avbs(size, f, l) + n < size
    ensures Next(size, l, n) < size && Avbs(size, f, Next(size, l, n)) == Avbs(size, f, l) + n
    ensures Next(size, l, n) == ModSize(l + n, size)
  {
  }

  // ---------------------------------------------------------------------------------------------------
  // The calls run alone
  // ---------------------------------------------------------------------------------------------------

  /** A message written in two parts, up to the end of the buffer and on from its beginning. */
  lemma WriteAround(b: seq<byte>, b1: seq<byte>, b2: seq<byte>, f: nat, n: nat, l: nat, msg: seq<byte>)
    requires f < |b| && l < |b| && n == Avbs(|b|, f, l) && n + |msg| < |b| && |b| - l <= |msg|
    requires var c := |b| - l;
             b1 == b[..l] + msg[..c] + b[l + c..] && b2 == b1[..0] + msg[c..] + b1[|msg| - c..]
    ensures Window(b2, f, n + |msg|) == Window(b, f, n) + msg
  {
    var c := |b| - l;
    WriteBehind(b, b1, f, n, l, msg[..c]);
    WriteBehind(b1, b2, f, n + c, 0, msg[c..]);
    assert msg[..c] + msg[c..] == msg;
  }

  class Scb {
    const bytes: array<byte>
    var fbyte: nat
    var lbyte: nat

    ghost predicate Valid()
      reads this
    {
      bytes.Length > 0 && fbyte < bytes.Length && lbyte < bytes.Length
    }

    ghost function Contents(): seq<byte>
      requires Valid()
      reads this, bytes
    {
      Window(bytes[..], fbyte, Avbs(bytes.Length, fbyte, lbyte))
    }

    /** A buffer for `n` bytes has one more, so that full and empty differ. */
    constructor (n: nat)
      ensures Valid() && Contents() == [] && bytes.Length == n + 1
    {
      bytes := new byte[n + 1];
      fbyte, lbyte := 0, 0;
    }

    method AvbsNow() returns (n: nat)
      requires Valid()
      ensures n == |Contents()|
    {
      n := if lbyte >= fbyte then lbyte - fbyte else bytes.Length + lbyte - fbyte;
    }

    /** All or nothing: the whole message is appended and 0 returned, or its size is returned. */
    method Put(msg: seq<byte>) returns (r: nat)
      requires Valid()
      modifies this`lbyte, bytes
      ensures Valid()
      ensures if 0 < |msg| <= bytes.Length - 1 - |old(Contents())|
              then r == 0 && Contents() == old(Contents()) + msg
              else r == |msg| && Contents() == old(Contents())
    {
      var size := bytes.Length;
      FitsMeans(size, fbyte, lbyte, |msg|);
      if !PutFits(size, fbyte, lbyte, |msg|) {
        return |msg|;
      }
      AfterPut(size, fbyte, lbyte, |msg|);
      CopyIn(msg);
      lbyte := Next(size, lbyte, |msg|);
      return 0;
    }

    /** Copies the message behind the contents, in one part or two; they are not published yet. */
    method CopyIn(msg: seq<byte>)
      requires Valid() && Avbs(bytes.Length, fbyte, lbyte) + |msg| < bytes.Length
      modifies bytes
      ensures var n := Avbs(bytes.Length, fbyte, lbyte);
              Window(bytes[..], fbyte, n + |msg|) == Window(old(bytes[..]), fbyte, n) + msg
    {
      ghost var b, n := bytes[..], Avbs(bytes.Length, fbyte, lbyte);
      var tocpy := bytes.Length - lbyte;
      if tocpy > |msg| {
        Write(lbyte, msg);
        WriteBehind(b, bytes[..], fbyte, n, lbyte, msg);
      } else {
        Write(lbyte, msg[..tocpy]);
        ghost var b1 := bytes[..];
        Write(0, msg[tocpy..]);
        WriteAround(b, b1, bytes[..], fbyte, n, lbyte, msg);
      }
    }

    /** Copies a part of a message into the buffer. */
    method Write(at: nat, part: seq<byte>)
      requires at + |part| <= bytes.Length
      modifies bytes
      ensures bytes[..] == old(bytes[..])[..at] + part + old(bytes[..])[at + |part|..]
    {
      forall i | 0 <= i < |part| { bytes[at + i] := part[i]; }
    }

    /** All or nothing: the first `n` bytes are taken and 0 returned, or `n` is returned. */
    method Get(n: nat) returns (r: nat, msg: seq<byte>)
      requires Valid()
      modifies this`fbyte
      ensures Valid()
      ensures if 0 < n <= |old(Contents())|
              then r == 0 && msg == old(Contents())[..n] && Contents() == old(Contents())[n..]
              else r == n && Contents() == old(Contents())
    {
      r, msg := Evdrp(n);
      if r == 0 && n > 0 {
        var size := bytes.Length;
        AfterGet(size, fbyte, lbyte, n);
        Skip(bytes[..], fbyte, Avbs(size, fbyte, lbyte), n);
        fbyte := if size - fbyte > n then fbyte + n else n - (size - fbyte);
      }
    }

    /** Looks at the first `n` bytes without taking them. */
    method Evdrp(n: nat) returns (r: nat, msg: seq<byte>)
      requires Valid()
      ensures if 0 < n <= |Contents()| then r == 0 && msg == Contents()[..n] else r == n
    {
      var size := bytes.Length;
      FitsMeans(size, fbyte, lbyte, n);
      if !GetFits(size, fbyte, lbyte, n) {
        return n, [];
      }
      var tocpy := size - fbyte;
      if tocpy > n {
        msg := bytes[fbyte..fbyte + n];
      } else {
        msg := bytes[fbyte..] + bytes[..n - tocpy];
      }
      assert msg == Contents()[..n];
      r := 0;
    }
  }

  lemma Skip(b: seq<byte>, f: nat, n: nat, c: nat)
    requires f < |b| && c <= n <= |b|
    ensures f + c < 2 * |b| ==> Window(b, ModSize(f + c, |b|), n - c) == Window(b, f, n)[c..]
  {
  }

  // ---------------------------------------------------------------------------------------------------
  // One writer and one reader, interleaved
  // ---------------------------------------------------------------------------------------------------

  datatype Writer =
    | WIdle
    | WSeen(msg: seq<byte>, f: nat)                     // has read the reader's index
    | WCopy(msg: seq<byte>, f: nat, written: set<nat>)  // which bytes of the message are in the buffer

  datatype Reader =
    | RIdle
    | RSeen(n: nat, l: nat)                             // has read the writer's index
    | RCopy(n: nat, l: nat, got: map<nat, byte>)        // which bytes have been copied out

  /** `puts` and `gets` list the messages of the successful calls. */
  datatype State = State(b: seq<byte>, fbyte: nat, lbyte: nat, w: Writer, r: Reader, puts: seq<seq<byte>>, gets: seq<seq<byte>>)

  datatype Action =
    | PutCall(msg: seq<byte>) | PutDecide | PutByte(i: nat) | PutDone
    | GetCall(n: nat) | GetDecide | GetByte(i: nat) | GetDone

  function Concat(ms: seq<seq<byte>>): seq<byte> {
    if ms == [] then [] else Concat(ms[..|ms| - 1]) + ms[|ms| - 1]
  }

  predicate Shape(s: State) {
    && s.fbyte < |s.b| && s.lbyte < |s.b|
    && (!s.w.WIdle? ==> s.w.f < |s.b|) && (!s.r.RIdle? ==> s.r.l < |s.b|)
    && (s.w.WCopy? ==> |s.w.msg| < |s.b|) && (s.r.RCopy? ==> s.r.n < |s.b|)
  }

  predicate Enabled(s: State, a: Action) {
    match a
    case PutCall(_) => s.w.WIdle?
    case PutDecide => s.w.WSeen?
    case PutByte(i) => s.w.WCopy? && i < |s.w.msg| && i !in s.w.written
    case PutDone => s.w.WCopy? && forall i :: 0 <= i < |s.w.msg| ==> i in s.w.written
    case GetCall(_) => s.r.RIdle?
    case GetDecide => s.r.RSeen?
    case GetByte(i) => s.r.RCopy? && i < s.r.n && i !in s.r.got
    case GetDone => s.r.RCopy? && forall i :: 0 <= i < s.r.n ==> i in s.r.got
  }

  /** The buffer byte that a side touches for the `i`th byte of its message. */
  function Slot(size: nat, from: nat, i: nat): (k: nat)
    requires from < size && i < size
    ensures k < size
  {
    if size - from > i then from + i else i - (size - from)
  }

  function Do(s: State, a: Action): State
    requires Shape(s) && Enabled(s, a)
  {
    var size := |s.b|;
    match a
    case PutCall(msg) => s.(w := WSeen(msg, s.fbyte))
    case PutDecide => s.(w := if PutFits(size, s.w.f, s.lbyte, |s.w.msg|) then WCopy(s.w.msg, s.w.f, {}) else WIdle)
    case PutByte(i) => s.(b := s.b[Slot(size, s.lbyte, i) := s.w.msg[i]], w := s.w.(written := s.w.written + {i}))
    case PutDone => s.(lbyte := Next(size, s.lbyte, |s.w.msg|), w := WIdle, puts := s.puts + [s.w.msg])
    case GetCall(n) => s.(r := RSeen(n, s.lbyte))
    case GetDecide => s.(r := if GetFits(size, s.fbyte, s.r.l, s.r.n) then RCopy(s.r.n, s.r.l, map[]) else RIdle)
    case GetByte(i) => s.(r := s.r.(got := s.r.got[i := s.b[Slot(size, s.fbyte, i)]]))
    case GetDone =>
      s.(fbyte := Next(size, s.fbyte, s.r.n), r := RIdle,
         gets := s.gets + [seq(s.r.n, (i: int) requires 0 <= i < s.r.n && i in s.r.got => s.r.got[i])])
  }

  function Avail(s: State): nat
    requires Shape(s)
  {
    Avbs(|s.b|, s.fbyte, s.lbyte)
  }

  ghost predicate WriterOk(s: State)
    requires Shape(s)
  {
    && (!s.w.WIdle? ==> Avail(s) <= Avbs(|s.b|, s.w.f, s.lbyte))
    && (s.w.WCopy? ==>
          && 0 < |s.w.msg| && Avbs(|s.b|, s.w.f, s.lbyte) + |s.w.msg| < |s.b|
          && forall i :: i in s.w.written ==> i < |s.w.msg| && s.b[Slot(|s.b|, s.lbyte, i)] == s.w.msg[i])
  }

  ghost predicate ReaderOk(s: State)
    requires Shape(s)
  {
    && (!s.r.RIdle? ==> Avbs(|s.b|, s.fbyte, s.r.l) <= Avail(s))
    && (s.r.RCopy? ==>
          && 0 < s.r.n <= Avbs(|s.b|, s.fbyte, s.r.l)
          && forall i :: i in s.r.got ==> i < s.r.n && s.r.got[i] == Window(s.b, s.fbyte, Avail(s))[i])
  }

  ghost predicate Inv(s: State) {
    && Shape(s) && WriterOk(s) && ReaderOk(s)
    && Concat(s.gets) + Window(s.b, s.fbyte, Avail(s)) == Concat(s.puts)
  }

  /** Whatever each side has seen of the other, they never touch the same byte. */
  lemma NeverTheSameByte(s: State, i: nat, j: nat)
    requires Inv(s) && s.w.WCopy? && s.r.RCopy? && i < |s.w.msg| && j < s.r.n
    ensures Slot(|s.b|, s.lbyte, i) != Slot(|s.b|, s.fbyte, j)
  {
  }

  /** A byte written at `lbyte` or behind leaves the published bytes alone. */
  lemma WriteOutside(b: seq<byte>, f: nat, l: nat, i: nat, v: byte)
    requires f < |b| && l < |b| && Avbs(|b|, f, l) + i < |b|
    ensures Window(b[Slot(|b|, l, i) := v], f, Avbs(|b|, f, l)) == Window(b, f, Avbs(|b|, f, l))
  {
  }

  lemma SlotsDiffer(size: nat, l: nat, i: nat, j: nat)
    requires l < size && i < size && j < size && i != j
    ensures Slot(size, l, i) != Slot(size, l, j)
  {
  }

  lemma PutByteKeeps(s: State, i: nat)
    requires Inv(s) && Enabled(s, PutByte(i))
    ensures Inv(Do(s, PutByte(i)))
  {
    var s' := Do(s, PutByte(i));
    WriteOutside(s.b, s.fbyte, s.lbyte, i, s.w.msg[i]);
    forall j | j in s'.w.written
      ensures j < |s.w.msg| && s'.b[Slot(|s.b|, s.lbyte, j)] == s.w.msg[j]
    {
      if j != i { SlotsDiffer(|s.b|, s.lbyte, i, j); }
    }
  }

  /** What lies behind the published bytes becomes part of them. */
  lemma Publish(b: seq<byte>, f: nat, l: nat, msg: seq<byte>)
    requires f < |b| && l < |b| && Avbs(|b|, f, l) + |msg| < |b|
    requires forall i :: 0 <= i < |msg| ==> b[Slot(|b|, l, i)] == msg[i]
    ensures Window(b, f, Avbs(|b|, f, l) + |msg|) == Window(b, f, Avbs(|b|, f, l)) + msg
  {
    var n := Avbs(|b|, f, l);
    forall k | 0 <= k < n + |msg|
      ensures Window(b, f, n + |msg|)[k] == (Window(b, f, n) + msg)[k]
    {
      if k >= n { assert b[Slot(|b|, l, k - n)] == msg[k - n]; }
    }
  }

  lemma ConcatSnoc(ms: seq<seq<byte>>, m: seq<byte>)
    ensures Concat(ms + [m]) == Concat(ms) + m
  {
    assert (ms + [m])[..|ms|] == ms;
  }

  lemma PutDoneKeeps(s: State)
    requires Inv(s) && Enabled(s, PutDone)
    ensures Inv(Do(s, PutDone))
  {
    var s' := Do(s, PutDone);
    AfterPut(|s.b|, s.fbyte, s.lbyte, |s.w.msg|);
    Publish(s.b, s.fbyte, s.lbyte, s.w.msg);
    ConcatSnoc(s.puts, s.w.msg);
    var all := Window(s.b, s.fbyte, Avail(s));
    Regroup(Concat(s.gets), all, s.w.msg, all + s.w.msg);
  }

  lemma GetByteKeeps(s: State, i: nat)
    requires Inv(s) && Enabled(s, GetByte(i))
    ensures Inv(Do(s, GetByte(i)))
  {
    assert s.b[Slot(|s.b|, s.fbyte, i)] == Window(s.b, s.fbyte, Avail(s))[i];
  }

  /** What a finished get returns is the front of the published bytes. */
  lemma GotFront(s: State, m: seq<byte>)
    requires Inv(s) && Enabled(s, GetDone) && m == Do(s, GetDone).gets[|s.gets|]
    ensures s.r.n <= Avail(s) && m == Window(s.b, s.fbyte, Avail(s))[..s.r.n]
  {
  }

  lemma GetDoneIndex(s: State)
    requires Inv(s) && Enabled(s, GetDone)
    ensures var s' := Do(s, GetDone);
            && Shape(s') && WriterOk(s') && ReaderOk(s') && s.r.n <= Avail(s) && Avail(s') == Avail(s) - s.r.n
            && s'.fbyte == ModSize(s.fbyte + s.r.n, |s.b|)
  {
    AfterGet(|s.b|, s.fbyte, s.lbyte, s.r.n);
  }

  lemma Regroup(a: seq<byte>, m: seq<byte>, rest: seq<byte>, all: seq<byte>)
    requires all == m + rest
    ensures (a + m) + rest == a + all
  {
  }

  lemma GetDoneFlow(s: State, s': State, n: nat, m: seq<byte>, all: seq<byte>)
    requires Shape(s) && Shape(s') && s'.gets == s.gets + [m] && s'.puts == s.puts && n <= Avail(s)
    requires all == Window(s.b, s.fbyte, Avail(s)) && m == all[..n] && Concat(s.gets) + all == Concat(s.puts)
    requires s'.b == s.b && s'.fbyte == ModSize(s.fbyte + n, |s.b|) && Avail(s') == Avail(s) - n
    ensures Concat(s'.gets) + Window(s'.b, s'.fbyte, Avail(s')) == Concat(s'.puts)
  {
    Skip(s.b, s.fbyte, Avail(s), n);
    ConcatSnoc(s.gets, m);
    Regroup(Concat(s.gets), m, all[n..], all);
  }

  lemma GetDoneKeeps(s: State)
    requires Inv(s) && Enabled(s, GetDone)
    ensures Inv(Do(s, GetDone))
  {
    var s' := Do(s, GetDone);
    var m := s'.gets[|s.gets|];
    GetDoneIndex(s);
    GotFront(s, m);
    GetDoneFlow(s, s', s.r.n, m, Window(s.b, s.fbyte, Avail(s)));
  }

  lemma StepKeeps(s: State, a: Action)
    requires Inv(s) && Enabled(s, a)
    ensures Inv(Do(s, a))
  {
    match a
    case PutCall(msg) =>
    case PutDecide => FitsMeans(|s.b|, s.w.f, s.lbyte, |s.w.msg|);
    case PutByte(i) => PutByteKeeps(s, i);
    case PutDone => PutDoneKeeps(s);
    case GetCall(n) =>
    case GetDecide => FitsMeans(|s.b|, s.fbyte, s.r.l, s.r.n);
    case GetByte(i) => GetByteKeeps(s, i);
    case GetDone => GetDoneKeeps(s);
  }

  /** A run takes the buffer through its states, one enabled step after the other. */
  ghost predicate IsRun(ss: seq<State>, run: seq<Action>) {
    && |ss| == |run| + 1
    && forall k :: 0 <= k < |run| ==> Steps(ss[k], run[k], ss[k + 1])
  }

  ghost predicate Steps(s: State, a: Action, s': State) {
    Shape(s) && Enabled(s, a) && s' == Do(s, a)
  }

  predicate Starts(s: State, n: nat) {
    |s.b| == n + 1 && s.fbyte == 0 && s.lbyte == 0 && s.w.WIdle? && s.r.RIdle? && s.puts == [] && s.gets == []
  }

  /** In every run the gets return, one after the other, exactly the bytes of the puts: what is missing is still in the
      buffer, and that is at most `n` bytes. */
  lemma {:induction false} GetsReturnPuts(ss: seq<State>, run: seq<Action>, n: nat)
    requires IsRun(ss, run) && Starts(ss[0], n)
    ensures var s := ss[|run|];
            && Inv(s) && |s.b| == n + 1
            && Concat(s.gets) <= Concat(s.puts)
            && |Concat(s.puts)| - |Concat(s.gets)| == Avail(s) <= n
    decreases |run|
  {
    if run != [] {
      var k := |run| - 1;
      GetsReturnPuts(ss[..k + 1], run[..k], n);
      assert Steps(ss[k], run[k], ss[k + 1]);
      StepKeeps(ss[k], run[k]);
    }
  }

  // --- What the calls decide

  predicate OfWriter(a: Action) {
    a.PutCall? || a.PutDecide? || a.PutByte? || a.PutDone?
  }

  lemma {:induction false} WriterWaits(ss: seq<State>, run: seq<Action>, j: nat, k: nat)
    requires IsRun(ss, run) && j <= k <= |run| && forall i :: j <= i < k ==> !OfWriter(run[i])
    ensures ss[k].w == ss[j].w && ss[k].lbyte == ss[j].lbyte && |ss[k].b| == |ss[j].b| && ss[k].puts == ss[j].puts
    decreases k - j
  {
    if j < k {
      WriterWaits(ss, run, j, k - 1);
      assert Steps(ss[k - 1], run[k - 1], ss[k]);
    }
  }

  lemma {:induction false} ReaderWaits(ss: seq<State>, run: seq<Action>, j: nat, k: nat)
    requires IsRun(ss, run) && j <= k <= |run| && forall i :: j <= i < k ==> OfWriter(run[i])
    ensures ss[k].r == ss[j].r && ss[k].fbyte == ss[j].fbyte && |ss[k].b| == |ss[j].b| && ss[k].gets == ss[j].gets
    decreases k - j
  {
    if j < k {
      ReaderWaits(ss, run, j, k - 1);
      assert Steps(ss[k - 1], run[k - 1], ss[k]);
    }
  }

  /** The bytes that are put and not yet got at moment `j` of a run. */
  lemma Outstanding(ss: seq<State>, run: seq<Action>, n: nat, j: nat)
    requires IsRun(ss, run) && Starts(ss[0], n) && j < |run|
    ensures Inv(ss[j]) && |ss[j].b| == n + 1 && Avail(ss[j]) == |Concat(ss[j].puts)| - |Concat(ss[j].gets)|
  {
    forall k | 0 <= k < j
      ensures Steps(ss[..j + 1][k], run[..j][k], ss[..j + 1][k + 1])
    {
      assert Steps(ss[k], run[k], ss[k + 1]);
    }
    GetsReturnPuts(ss[..j + 1], run[..j], n);
  }

  /** In every run, a put goes on if and only if its message, which is not empty, fits beside what is outstanding when it is
      called; a refused one changes nothing. */
  lemma PutDecides(ss: seq<State>, run: seq<Action>, n: nat, j: nat, k: nat)
    requires IsRun(ss, run) && Starts(ss[0], n) && j < k < |run| && run[j].PutCall? && run[k].PutDecide?
    requires forall i :: j < i < k ==> !OfWriter(run[i])
    ensures var s := ss[j];
            ss[k + 1].w.WCopy? <==> 0 < |run[j].msg| <= n - (|Concat(s.puts)| - |Concat(s.gets)|)
    ensures ss[k + 1].w.WCopy? ==> ss[k + 1].w.msg == run[j].msg
    ensures ss[k + 1] == ss[k].(w := ss[k + 1].w) && (ss[k + 1].w.WCopy? || ss[k + 1].w.WIdle?)
  {
    Outstanding(ss, run, n, j);
    assert Steps(ss[j], run[j], ss[j + 1]) && Steps(ss[k], run[k], ss[k + 1]);
    WriterWaits(ss, run, j + 1, k);
    FitsMeans(n + 1, ss[j].fbyte, ss[j].lbyte, |run[j].msg|);
  }

  /** Likewise a get goes on if and only if as many bytes as it asks for, not none, are outstanding when it is called. */
  lemma GetDecides(ss: seq<State>, run: seq<Action>, n: nat, j: nat, k: nat)
    requires IsRun(ss, run) && Starts(ss[0], n) && j < k < |run| && run[j].GetCall? && run[k].GetDecide?
    requires forall i :: j < i < k ==> OfWriter(run[i])
    ensures var s := ss[j];
            ss[k + 1].r.RCopy? <==> 0 < run[j].n <= |Concat(s.puts)| - |Concat(s.gets)|
    ensures ss[k + 1].r.RCopy? ==> ss[k + 1].r.n == run[j].n
    ensures ss[k + 1] == ss[k].(r := ss[k + 1].r) && (ss[k + 1].r.RCopy? || ss[k + 1].r.RIdle?)
  {
    Outstanding(ss, run, n, j);
    assert Steps(ss[j], run[j], ss[j + 1]) && Steps(ss[k], run[k], ss[k + 1]);
    ReaderWaits(ss, run, j + 1, k);
    FitsMeans(n + 1, ss[j].fbyte, ss[j].lbyte, run[j].n);
  }
}
