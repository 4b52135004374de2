/** Runs of a FIFO without new calls come to an end: every step brings a byte nearer to its place, or a task nearer to
    its next byte, its sleep or its end. */
module FifoProgress {
  import opened Ring
  import opened Wrappers
  import opened FifoProtocol
  import Sums

  // ---------------------------------------------------------------------------------------------------
  // The measure
  // ---------------------------------------------------------------------------------------------------

  /** Of a task with nothing left to move.  Its signal pays for a round of the sleeper that it wakes. */
  function RankDone(pc: Pc, slot: bool): nat {
    match pc
    case Queued => 22
    case SemSleep => 21
    case SemWoken => 20
    case WaitSleep => if slot then 18 else 17
    case WaitWoken => 16
    case Xfer => 15
    case Signal => 14
    case Loop => 3
    case Release => 2
    case Copied(_) => 0
  }

  /** Of a task that can move bytes: once it is about to copy it does.  Its signal pays likewise. */
  function RankMoving(pc: Pc, slot: bool): nat {
    match pc
    case Queued => 20
    case SemSleep => 19
    case SemWoken => 18
    case Signal => 17
    case Loop => 6
    case WaitSleep => if slot then 5 else 4
    case WaitWoken => 3
    case Release => 2
    case Xfer => 1
    case Copied(_) => 0
  }

  /** Of a task that cannot move any: it goes round once for each wake-up and ends in the slot. */
  function RankBlocked(pc: Pc, slot: bool): nat {
    match pc
    case Queued => 13
    case SemSleep => 12
    case SemWoken => 11
    case WaitSleep => if slot then 1 else 9
    case WaitWoken => 8
    case Xfer => 7
    case Signal => 6
    case Loop => 3
    case Release => 2
    case Copied(_) => 0
  }

  function Rank(x: Task, room: nat, slot: bool): (n: nat)
    ensures n <= 22
  {
    if x.pos >= Total(x.op) then RankDone(x.pc, slot)
    else if room > 0 then RankMoving(x.pc, slot)
    else RankBlocked(x.pc, slot)
  }

  function RankOf(s: State, t: nat): (n: nat)
    requires t in s.tasks
    ensures n <= 22
  {
    Rank(s.tasks[t], Fravbs(s.buf, s.tasks[t].op.dir), s.waiting == Some(t))
  }

  ghost function Ranks(s: State): map<nat, nat> {
    map t | t in s.tasks :: RankOf(s, t)
  }

  function Rest(x: Task): nat {
    if x.pos < Total(x.op) then Total(x.op) - x.pos else 0
  }

  ghost function Rests(tasks: map<nat, Task>): map<nat, nat> {
    map t | t in tasks :: Rest(tasks[t])
  }

  /** A write index at the very end takes an empty chunk to go round. */
  function Wrap(r: Buf): nat {
    if r.lbyte == |r.b| then 1 else 0
  }

  ghost function Bytes(s: State): nat {
    Sums.Total(Rests(s.tasks)) + Wrap(s.buf)
  }

  ghost function Steps(s: State): nat {
    Sums.Total(Ranks(s)) + |s.taskq|
  }

  /** Each byte may cost every task all of its steps. */
  function Price(bytes: nat, tasks: nat, steps: nat): nat {
    bytes * (22 * tasks + 3) + steps
  }

  /** How many steps are left at most. */
  ghost function Budget(s: State): nat {
    Price(Bytes(s), |s.tasks|, Steps(s))
  }

  /** Nothing moves, but the tasks get nearer to where they come to rest. */
  ghost predicate Calmer(s: State, s': State) {
    Bytes(s') <= Bytes(s) && |s'.tasks| <= |s.tasks| && Steps(s') < Steps(s)
  }

  ghost predicate Nearer(s: State, s': State) {
    Bytes(s') < Bytes(s) && |s'.tasks| == |s.tasks|
  }

  // ---------------------------------------------------------------------------------------------------
  // Each step
  // ---------------------------------------------------------------------------------------------------

  ghost predicate SameRoom(r: Buf, r': Buf) {
    r'.avbs == r.avbs && r'.frbs == r.frbs && r'.lbyte == r.lbyte && |r'.b| == |r.b|
  }

  lemma RestsMove(tasks: map<nat, Task>, t: nat, y: Task)
    requires t in tasks
    ensures Sums.Total(Rests(tasks[t := y])) == Sums.Total(Rests(tasks)) - Rest(tasks[t]) + Rest(y)
    ensures |tasks[t := y]| == |tasks|
  {
    assert Rests(tasks[t := y]) == Rests(tasks)[t := Rest(y)];
    Sums.TotalSet(Rests(tasks), t, Rest(y));
    assert tasks[t := y].Keys == tasks.Keys;
  }

  lemma RanksMove(s: State, s': State, t: nat)
    requires t in s.tasks && t in s'.tasks && s'.tasks == s.tasks[t := s'.tasks[t]]
    requires SameRoom(s.buf, s'.buf) && forall u :: u != t ==> (s'.waiting == Some(u) <==> s.waiting == Some(u))
    ensures Sums.Total(Ranks(s')) == Sums.Total(Ranks(s)) - RankOf(s, t) + RankOf(s', t)
  {
    assert Ranks(s') == Ranks(s)[t := RankOf(s', t)];
    Sums.TotalSet(Ranks(s), t, RankOf(s', t));
  }

  /** One task goes elsewhere, and nobody else gets into the slot or out of it. */
  lemma OneMoves(s: State, s': State, t: nat, y: Task)
    requires t in s.tasks && s'.tasks == s.tasks[t := y] && Rest(y) == Rest(s.tasks[t])
    requires SameRoom(s.buf, s'.buf) && forall u :: u != t ==> (s'.waiting == Some(u) <==> s.waiting == Some(u))
    ensures Bytes(s') == Bytes(s) && |s'.tasks| == |s.tasks|
    ensures Sums.Total(Ranks(s')) == Sums.Total(Ranks(s)) - RankOf(s, t) + RankOf(s', t)
  {
    RestsMove(s.tasks, t, y);
    RanksMove(s, s', t);
  }

  lemma PcCalms(s: State, s': State, t: nat, pc: Pc)
    requires t in s.tasks && s'.tasks == s.tasks[t := s.tasks[t].(pc := pc)] && s'.buf == s.buf
    requires forall u :: u != t ==> (s'.waiting == Some(u) <==> s.waiting == Some(u))
    requires |s'.taskq| <= |s.taskq| && RankOf(s', t) < RankOf(s, t)
    ensures Calmer(s, s')
  {
    OneMoves(s, s', t, s.tasks[t].(pc := pc));
  }

  lemma WakeCalms(s: State)
    requires ControlOk(s) && Enabled(s, Wake)
    ensures Calmer(s, DoWake(s))
  {
    var t := s.taskq[0];
    assert PlaceOk(s, t);
    if s.tasks[t].pc.SemSleep? {
      PcCalms(s, DoWake(s), t, SemWoken);
    } else if s.tasks[t].pc.WaitSleep? {
      PcCalms(s, DoWake(s), t, WaitWoken);
    } else {
      assert Ranks(DoWake(s)) == Ranks(s);
    }
  }

  lemma TestCalms(s: State, t: nat)
    requires ControlOk(s) && At(s, t, Loop)
    ensures Calmer(s, DoTest(s, t))
  {
    var x := s.tasks[t];
    if x.pos >= Total(x.op) {
      PcCalms(s, DoTest(s, t), t, Release);
    } else if Fravbs(s.buf, x.op.dir) == 0 {
      SlotNeverOverwritten(s, t);
      PcCalms(s, DoTest(s, t), t, WaitSleep);
    } else {
      PcCalms(s, DoTest(s, t), t, Xfer);
    }
  }

  ghost predicate OnlyCopied(s: State, s': State, t: nat, y: Task)
    requires t in s.tasks
  {
    && s'.tasks == s.tasks[t := y] && y.op == s.tasks[t].op && y.pos == s.tasks[t].pos && y.pc.Copied?
    && SameRoom(s.buf, s'.buf) && s'.waiting == s.waiting && s'.taskq == s.taskq
  }

  lemma CopyShape(s: State, t: nat)
    requires BufOk(s.buf) && At(s, t, Xfer) && s.tasks[t].pos < Total(s.tasks[t].op) && Fravbs(s.buf, s.tasks[t].op.dir) > 0
    requires |DoCopy(s, t).buf.b| == |s.buf.b|
    ensures t in DoCopy(s, t).tasks && OnlyCopied(s, DoCopy(s, t), t, DoCopy(s, t).tasks[t])
  {
  }

  lemma CopiedCalms(s: State, s': State, t: nat, y: Task)
    requires At(s, t, Xfer) && s.tasks[t].pos < Total(s.tasks[t].op) && Fravbs(s.buf, s.tasks[t].op.dir) > 0
    requires OnlyCopied(s, s', t, y)
    ensures Calmer(s, s')
  {
    OneMoves(s, s', t, y);
  }

  lemma CopyMoves(s: State, t: nat)
    requires BufOk(s.buf) && At(s, t, Xfer) && s.tasks[t].pos < Total(s.tasks[t].op) && Fravbs(s.buf, s.tasks[t].op.dir) > 0
    requires BufOk(DoCopy(s, t).buf)
    ensures Calmer(s, DoCopy(s, t))
  {
    SameLength(s.buf, DoCopy(s, t).buf);
    CopyShape(s, t);
    CopiedCalms(s, DoCopy(s, t), t, DoCopy(s, t).tasks[t]);
  }

  lemma CopyEnds(s: State, t: nat)
    requires ControlOk(s) && At(s, t, Xfer) && (s.tasks[t].pos >= Total(s.tasks[t].op) || Fravbs(s.buf, s.tasks[t].op.dir) == 0)
    ensures Calmer(s, DoCopy(s, t))
  {
    PcCalms(s, DoCopy(s, t), t, Signal);
  }

  lemma CopyCalms(s: State, t: nat)
    requires ControlOk(s) && At(s, t, Xfer)
    ensures Calmer(s, DoCopy(s, t))
  {
    if s.tasks[t].pos >= Total(s.tasks[t].op) || Fravbs(s.buf, s.tasks[t].op.dir) == 0 {
      CopyEnds(s, t);
    } else {
      CopyControl(s, t);
      CopyMoves(s, t);
    }
  }

  lemma SameLength(r: Buf, r': Buf)
    requires BufOk(r) && BufOk(r') && r'.avbs == r.avbs && r'.frbs == r.frbs
    ensures |r'.b| == |r.b|
  {
  }

  /** The sleeper leaves the slot; until it is woken it counts as pending. */
  lemma SleeperLeaves(s: State, s': State, w: nat)
    requires w in s.tasks && s.waiting == Some(w) && s' == s.(waiting := None, taskq := s.taskq + [w])
    ensures Bytes(s') == Bytes(s)
    ensures Steps(s') == Steps(s) - RankOf(s, w) + RankOf(s', w) + 1
  {
    OneMoves(s, s', w, s.tasks[w]);
  }

  /** A signal pays for the sleeper that it wakes: at most one of two sides is blocked. */
  lemma SignalPays(x: Task, y: Task, w: Task, roomX: nat, roomW: nat)
    requires x.pc.Signal? && y == x.(pc := if x.op.once then Release else Loop) && w.pc.WaitSleep? && roomX + roomW > 0
    ensures Rank(y, roomX, false) + Rank(w, roomW, false) + 1 < Rank(x, roomX, false) + Rank(w, roomW, true)
  {
  }

  lemma SignalWakes(s: State, t: nat, w: nat)
    requires ControlOk(s) && At(s, t, Signal) && s.waiting == Some(w) && w in s.tasks
    ensures Calmer(s, DoSignal(s, t))
  {
    var x := s.tasks[t];
    var y := x.(pc := if x.op.once then Release else Loop);
    var s1 := Put(s, t, y);
    assert PlaceOk(s, t) && PlaceOk(s, w);
    OneMoves(s, s1, t, y);
    SleeperLeaves(s1, DoSignal(s, t), w);
    SignalPays(x, y, s.tasks[w], Fravbs(s.buf, x.op.dir), Fravbs(s.buf, s.tasks[w].op.dir));
  }

  lemma SignalCalms(s: State, t: nat)
    requires ControlOk(s) && At(s, t, Signal)
    ensures Calmer(s, DoSignal(s, t))
  {
    if s.waiting.Some? {
      SignalWakes(s, t, s.waiting.value);
    } else {
      PcCalms(s, DoSignal(s, t), t, if s.tasks[t].op.once then Release else Loop);
    }
  }

  lemma OneLeaves(s: State, s': State, t: nat)
    requires t in s.tasks && s'.tasks == s.tasks - {t} && s'.buf == s.buf && s'.waiting == s.waiting
    requires |s'.taskq| < |s.taskq| + RankOf(s, t)
    ensures Calmer(s, s')
  {
    assert Rests(s'.tasks) == Rests(s.tasks) - {t};
    assert Ranks(s') == Ranks(s) - {t};
    Sums.TotalWithout(Rests(s.tasks), t);
    Sums.TotalWithout(Ranks(s), t);
    assert s'.tasks.Keys == s.tasks.Keys - {t};
    assert |s'.tasks| == |s'.tasks.Keys|;
  }

  lemma LeaveCalms(s: State, t: nat)
    requires ControlOk(s) && At(s, t, Release)
    ensures Calmer(s, DoLeave(s, t))
  {
    LeaveShape(s, t);
    OneLeaves(s, DoLeave(s, t), t);
  }

  lemma CommitShape(s: State, t: nat)
    requires ControlOk(s) && t in s.tasks && s.tasks[t].pc.Copied? && BytesOk(s.buf, s.tasks[t])
    ensures var s', x := DoCommit(s, t), s.tasks[t];
            && s'.tasks == s.tasks[t := x.(pos := x.pos + x.pc.c, pc := Xfer)]
            && Wrap(s'.buf) <= Wrap(s.buf) && (x.pc.c == 0 ==> Wrap(s'.buf) < Wrap(s.buf))
  {
  }

  lemma CommitNears(s: State, t: nat)
    requires ControlOk(s) && t in s.tasks && s.tasks[t].pc.Copied? && BytesOk(s.buf, s.tasks[t])
    ensures Nearer(s, DoCommit(s, t))
  {
    var x := s.tasks[t];
    CommitShape(s, t);
    RestsMove(s.tasks, t, x.(pos := x.pos + x.pc.c, pc := Xfer));
  }

  lemma ResumeCalms(s: State, t: nat)
    requires ControlOk(s) && At(s, t, SemWoken)
    ensures Calmer(s, DoResume(s, t))
  {
    ResumeControl(s, t);
    PcCalms(s, DoResume(s, t), t, Loop);
  }

  lemma RecheckCalms(s: State, t: nat)
    requires ControlOk(s) && At(s, t, WaitWoken)
    ensures Calmer(s, DoRecheck(s, t))
  {
    RecheckControl(s, t);
    PcCalms(s, DoRecheck(s, t), t, Xfer);
  }

  lemma StepCalms(s: State, a: Action)
    requires Inv(s) && Enabled(s, a) && !a.Call? && !a.Commit?
    ensures Calmer(s, Do(s, a))
  {
    match a
    case Mark(t) => PcCalms(s, Do(s, a), t, SemSleep);
    case Wake => WakeCalms(s);
    case Resume(t) => ResumeCalms(s, t);
    case Test(t) => TestCalms(s, t);
    case Recheck(t) => RecheckCalms(s, t);
    case Copy(t) => CopyCalms(s, t);
    case SignalOther(t) => SignalCalms(s, t);
    case Leave(t) => LeaveCalms(s, t);
  }

  // ---------------------------------------------------------------------------------------------------
  // Whole runs
  // ---------------------------------------------------------------------------------------------------

  lemma StepsBound(s: State)
    requires Inv(s)
    ensures Steps(s) < 22 * |s.tasks| + 3
  {
    Sums.TotalBound(Ranks(s), 22);
    RequestsFit(s);
    assert Ranks(s).Keys == s.tasks.Keys;
    assert |Ranks(s)| == |Ranks(s).Keys| && |s.tasks| == |s.tasks.Keys|;
  }

  lemma Times(a: nat, b: nat, c: nat)
    requires a <= b
    ensures a * c <= b * c && c * a <= c * b
  {
  }

  lemma PriceFalls(b: nat, b': nat, n: nat, n': nat, k: nat, k': nat)
    requires n' <= n && ((b' <= b && k' < k) || (b' < b && k' < 22 * n + 3))
    ensures Price(b', n', k') < Price(b, n, k)
  {
    var m, m' := 22 * n + 3, 22 * n' + 3;
    Times(m', m, b');
    if b' < b {
      Times(b' + 1, b, m);
      assert (b' + 1) * m == b' * m + m;
    }
  }

  lemma InvStep(s: State, a: Action)
    requires Inv(s) && Enabled(s, a)
    ensures Inv(Do(s, a))
  {
    StepControl(s, a);
    StepData(s, a);
  }

  lemma CommitCosts(s: State, t: nat)
    requires Inv(s) && t in s.tasks && s.tasks[t].pc.Copied? && Inv(DoCommit(s, t))
    ensures Budget(DoCommit(s, t)) < Budget(s)
  {
    var s' := DoCommit(s, t);
    assert BytesOk(s.buf, s.tasks[t]);
    CommitNears(s, t);
    StepsBound(s');
    PriceFalls(Bytes(s), Bytes(s'), |s.tasks|, |s'.tasks|, Steps(s), Steps(s'));
  }

  /** Every step but a call uses up some of the budget. */
  lemma StepCosts(s: State, a: Action)
    requires Inv(s) && Enabled(s, a) && !a.Call?
    ensures Inv(Do(s, a)) && Budget(Do(s, a)) < Budget(s)
  {
    InvStep(s, a);
    if a.Commit? {
      CommitCosts(s, a.t);
    } else {
      var s' := Do(s, a);
      StepCalms(s, a);
      PriceFalls(Bytes(s), Bytes(s'), |s.tasks|, |s'.tasks|, Steps(s), Steps(s'));
    }
  }

  predicate CallFree(run: seq<Action>) {
    forall i :: 0 <= i < |run| ==> !IsCall(run[i])
  }

  /** Without new calls no run is longer than the budget of the state it begins in. */
  lemma {:induction false} CallFreeBounded(s: State, run: seq<Action>)
    requires Inv(s) && Runs(s, run) && CallFree(run)
    ensures |run| + Budget(After(s, run)) <= Budget(s)
    decreases |run|
  {
    if run != [] {
      assert !IsCall(run[0]);
      StepCosts(s, run[0]);
      CallFreeBounded(Do(s, run[0]), run[1..]);
    }
  }

  /** Whatever the schedule, the calls that are there all come through: a run without new calls that is as long as it can
      be and dropped no wake-up has moved every message, save that callers of one direction may be left, with the FIFO
      full if they are senders and empty if they are receivers. */
  lemma AllComeThrough(s: State, run: seq<Action>)
    requires Inv(s) && Runs(s, run) && CallFree(run) && Stuck(After(s, run)) && After(s, run).dropped == {}
    ensures |run| <= Budget(s)
    ensures var s' := After(s, run);
            s'.tasks == map[] || exists d :: Fravbs(s'.buf, d) == 0 && forall t :: t in s'.tasks ==> s'.tasks[t].op.dir == d
  {
    var s' := After(s, run);
    CallFreeBounded(s, run);
    RunKeeps(s, run);
    if s'.tasks != map[] {
      var t :| t in s'.tasks;
      NoDeadlock(s', t);
      assert Fravbs(s'.buf, s'.tasks[t].op.dir) == 0;
    }
  }

  /** A step other than a call that drops no wake-up, where there is any step but calls. */
  lemma NextStep(s: State) returns (a: Action)
    requires Inv(s) && !Stuck(s) && s.dropped == {}
    ensures Enabled(s, a) && !IsCall(a) && Do(s, a).dropped == {}
  {
    a :| Enabled(s, a) && !IsCall(a);
    if a.Wake? && s.tasks[s.taskq[0]].pc.Queued? { a := Mark(s.taskq[0]); }
    DroppedChange(s, a);
  }

  lemma OneMoreStep(s: State, a: Action, rest: seq<Action>)
    requires Enabled(s, a) && !IsCall(a) && Runs(Do(s, a), rest) && CallFree(rest)
    ensures Runs(s, [a] + rest) && CallFree([a] + rest) && After(s, [a] + rest) == After(Do(s, a), rest)
  {
    RunCons(s, a, rest);
  }

  /** There always is such a run. */
  lemma {:induction false} ComesToRest(s: State) returns (run: seq<Action>)
    requires Inv(s) && s.dropped == {}
    ensures Runs(s, run) && CallFree(run) && Stuck(After(s, run)) && After(s, run).dropped == {}
    decreases Budget(s)
  {
    run := [];
    if !Stuck(s) {
      var a := NextStep(s);
      StepCosts(s, a);
      var rest := ComesToRest(Do(s, a));
      OneMoreStep(s, a, rest);
      run := [a] + rest;
    }
  }
}
