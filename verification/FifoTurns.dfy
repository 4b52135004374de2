/** What a caller of a FIFO can rely on: conditional calls move all or nothing, calls that move what they can move no less
    than could move when their turn began, and a semaphore goes to a waiter of the highest priority. */
module FifoTurns {
  import opened Ring
  import opened Wrappers
  import opened FifoProtocol

  // ---------------------------------------------------------------------------------------------------
  // What a turn moves
  // ---------------------------------------------------------------------------------------------------

  /** A conditional turn begins only when some or all bytes can move. */
  predicate Admitted(x: Session) {
    && (x.op.entry.IfSome? ==> x.room > 0)
    && (x.op.entry.IfAll? ==> x.room >= Total(x.op))
  }

  /** A finished turn moved at least what could move when it began, or all of its bytes. */
  predicate Served(x: Session) {
    |x.bytes| >= Min(Total(x.op), x.room)
  }

  /** The holder has moved, or still can, as much as that; it has when it is done copying. */
  predicate Serving(r: Buf, x: Task, room: nat) {
    && x.pos + Fravbs(r, x.op.dir) >= Min(Total(x.op), room)
    && (x.pc.Signal? || x.pc.Release? ==> x.pos >= Min(Total(x.op), room))
  }

  ghost predicate SideServed(x: Side, r: Buf, tasks: map<nat, Task>) {
    && (forall i {:trigger x.log[i]} :: 0 <= i < |x.log| ==> Admitted(x.log[i]))
    && (forall i {:trigger x.log[i]} :: 0 <= i < |x.log| && (x.holder.None? || i < |x.log| - 1) ==> Served(x.log[i]))
    && (x.holder.Some? ==> x.log != [] && x.holder.value in tasks && Serving(r, tasks[x.holder.value], x.log[|x.log| - 1].room))
  }

  /** Only calls that wait for their semaphore are ever queued. */
  ghost predicate WaitersBlock(tasks: map<nat, Task>) {
    forall t {:trigger tasks[t]} :: t in tasks && (Waiter(tasks[t].pc) || tasks[t].pc.SemWoken?) ==> tasks[t].op.entry.Blocking?
  }

  /** A call that moves only what it can is before its loop or in the slot only if it waits for its semaphore, and has
      moved nothing yet. */
  ghost predicate OnceWaits(tasks: map<nat, Task>) {
    forall t {:trigger tasks[t]} :: t in tasks && tasks[t].op.once && BeforeXfer(tasks[t].pc) ==>
      tasks[t].op.entry.Blocking? && tasks[t].pos == 0
  }

  predicate BeforeXfer(pc: Pc) {
    Waiter(pc) || pc.SemWoken? || pc.Loop? || pc.WaitSleep? || pc.WaitWoken?
  }

  ghost predicate TurnsServed(s: State) {
    SideServed(s.snd, s.buf, s.tasks) && SideServed(s.rcv, s.buf, s.tasks) && WaitersBlock(s.tasks) && OnceWaits(s.tasks)
  }

  lemma ServedFrame(x: Side, x': Side, r: Buf, r': Buf, tasks: map<nat, Task>, tasks': map<nat, Task>)
    requires SideServed(x, r, tasks) && x'.log == x.log && x'.holder == x.holder
    requires x.holder.Some? ==> x.holder.value in tasks' && Serving(r', tasks'[x.holder.value], x.log[|x.log| - 1].room)
    ensures SideServed(x', r', tasks')
  {
  }

  /** A task goes on; the room of both sides is the same. */
  lemma MoveServed(x: Side, r: Buf, r': Buf, tasks: map<nat, Task>, t: nat, y: Task)
    requires SideServed(x, r, tasks) && t in tasks && r'.avbs == r.avbs && r'.frbs == r.frbs
    requires y.op == tasks[t].op && y.pos == tasks[t].pos
    requires y.pc.Signal? || y.pc.Release? ==>
               y.pos >= Total(y.op) || Fravbs(r, y.op.dir) == 0 || tasks[t].pc.Signal?
    ensures SideServed(x, r', tasks[t := y])
  {
    ServedFrame(x, x, r, r', tasks, tasks[t := y]);
  }

  lemma PcServed(s: State, s': State, t: nat, y: Task)
    requires TurnsServed(s) && t in s.tasks && s'.tasks == s.tasks[t := y] && s'.buf.avbs == s.buf.avbs && s'.buf.frbs == s.buf.frbs
    requires s'.snd == s.snd && s'.rcv == s.rcv && y.op == s.tasks[t].op && y.pos == s.tasks[t].pos
    requires y.pc.Signal? || y.pc.Release? ==>
               y.pos >= Total(y.op) || Fravbs(s.buf, y.op.dir) == 0 || s.tasks[t].pc.Signal?
    requires Waiter(y.pc) || y.pc.SemWoken? ==> Waiter(s.tasks[t].pc)
    requires y.op.once && BeforeXfer(y.pc) ==> BeforeXfer(s.tasks[t].pc)
    ensures TurnsServed(s')
  {
    MoveServed(s.snd, s.buf, s'.buf, s.tasks, t, y);
    MoveServed(s.rcv, s.buf, s'.buf, s.tasks, t, y);
  }

  // --- Calls

  lemma NewcomerServed(x: Side, r: Buf, tasks: map<nat, Task>, t: nat, y: Task)
    requires SideServed(x, r, tasks) && t !in tasks
    ensures SideServed(x, r, tasks[t := y])
  {
    ServedFrame(x, x, r, r, tasks, tasks[t := y]);
  }

  lemma BeginServed(x: Side, x': Side, r: Buf, tasks: map<nat, Task>, t: nat, turn: Session)
    requires SideServed(x, r, tasks) && x.holder.None? && t in tasks && tasks[t].pos == 0 && !tasks[t].pc.Signal? && !tasks[t].pc.Release?
    requires turn.room == Fravbs(r, tasks[t].op.dir) && Admitted(turn)
    requires x'.log == x.log + [turn] && x'.holder == Some(t)
    ensures SideServed(x', r, tasks)
  {
    forall i | 0 <= i < |x'.log|
      ensures Admitted(x'.log[i]) && (i < |x'.log| - 1 ==> Served(x'.log[i]))
    {
      if i < |x.log| { assert x'.log[i] == x.log[i]; }
    }
  }

  lemma AcquireServed(s: State, s': State, t: nat, op: Op, pc: Pc)
    requires TurnsServed(s) && t !in s.tasks && SideOf(s, op.dir).holder.None? && (pc.Loop? || pc.Xfer?)
    requires pc.Loop? ==> op.entry.Blocking?
    requires s' == Acquire(s, t, op, pc) && Admitted(Session(t, op, [], Fravbs(s.buf, op.dir)))
    ensures TurnsServed(s')
  {
    var y := Task(op, 0, [], pc);
    NewcomerServed(s.snd, s.buf, s.tasks, t, y);
    NewcomerServed(s.rcv, s.buf, s.tasks, t, y);
    BeginServed(SideOf(s, op.dir), SideOf(s', op.dir), s.buf, s.tasks[t := y], t, Session(t, op, [], Fravbs(s.buf, op.dir)));
  }

  lemma QueueServed(s: State, s': State, t: nat, op: Op)
    requires TurnsServed(s) && t !in s.tasks && op.entry.Blocking? && !SideOf(s, op.dir).free && s' == DoCall(s, t, op)
    ensures TurnsServed(s')
  {
    var y := Task(op, 0, [], Queued);
    NewcomerServed(s.snd, s.buf, s.tasks, t, y);
    NewcomerServed(s.rcv, s.buf, s.tasks, t, y);
  }

  lemma CallServed(s: State, t: nat, op: Op)
    requires ControlOk(s) && TurnsServed(s) && t !in s.tasks
    ensures TurnsServed(DoCall(s, t, op))
  {
    if DoCall(s, t, op) != s {
      if SideOf(s, op.dir).free {
        AcquireServed(s, DoCall(s, t, op), t, op, if op.entry.Blocking? then Loop else Xfer);
      } else {
        QueueServed(s, DoCall(s, t, op), t, op);
      }
    }
  }

  /** Conditional calls are refused exactly when the semaphore is taken or the room or bytes that they need are missing, and
      then leave everything as it was; other calls never are. */
  lemma RefusedIff(s: State, t: nat, op: Op)
    requires ControlOk(s) && t !in s.tasks
    ensures DoCall(s, t, op) == s || t in DoCall(s, t, op).tasks
    ensures DoCall(s, t, op) == s <==>
              && !op.entry.Blocking?
              && (SideOf(s, op.dir).holder.Some? || Fravbs(s.buf, op.dir) < if op.entry.IfSome? then 1 else Total(op))
  {
  }

  // --- Copies and commits

  lemma CopyServed(s: State, t: nat)
    requires ControlOk(s) && TurnsServed(s) && At(s, t, Xfer)
    ensures TurnsServed(DoCopy(s, t))
  {
    PcServed(s, DoCopy(s, t), t, DoCopy(s, t).tasks[t]);
  }

  lemma GrowServed(x: Side, r: Buf, r': Buf, tasks: map<nat, Task>, t: nat, y: Task, more: seq<byte>)
    requires SideServed(x, r, tasks) && x.holder == Some(t) && t in tasks && y.op == tasks[t].op && y.pc.Xfer?
    requires y.pos + Fravbs(r', y.op.dir) == tasks[t].pos + Fravbs(r, y.op.dir)
    ensures SideServed(Logged(x, more), r', tasks[t := y])
  {
    var x' := Logged(x, more);
    forall i | 0 <= i < |x'.log|
      ensures Admitted(x'.log[i]) && (i < |x'.log| - 1 ==> Served(x'.log[i]))
    {
      assert i < |x.log| - 1 ==> x'.log[i] == x.log[i];
      assert Admitted(x.log[i]);
    }
  }

  lemma OtherServed(x: Side, r: Buf, r': Buf, tasks: map<nat, Task>, t: nat, y: Task)
    requires SideServed(x, r, tasks) && t in tasks && x.holder != Some(t)
    requires x.holder.Some? && x.holder.value in tasks ==>
               var d := tasks[x.holder.value].op.dir; Fravbs(r', d) >= Fravbs(r, d)
    ensures SideServed(x, r', tasks[t := y])
  {
    ServedFrame(x, x, r, r', tasks, tasks[t := y]);
  }

  lemma SendCommitServed(s: State, t: nat)
    requires ControlOk(s) && TurnsServed(s) && t in s.tasks && s.tasks[t].pc.Copied? && BytesOk(s.buf, s.tasks[t])
    requires s.tasks[t].op.dir.Snd?
    ensures TurnsServed(DoCommit(s, t))
  {
    var s', x := DoCommit(s, t), s.tasks[t];
    var y := x.(pos := x.pos + x.pc.c, pc := Xfer);
    assert PlaceOk(s, t);
    SendCommitShape(s, s', t);
    SendCommitRoom(s, s', t);
    GrowServed(s.snd, s.buf, s'.buf, s.tasks, t, y, x.op.msg[x.pos..x.pos + x.pc.c]);
    OtherServed(s.rcv, s.buf, s'.buf, s.tasks, t, y);
  }

  lemma SendCommitRoom(s: State, s': State, t: nat)
    requires BufOk(s.buf) && t in s.tasks && s.tasks[t].pc.Copied? && BytesOk(s.buf, s.tasks[t]) && s.tasks[t].op.dir.Snd?
    requires s' == DoCommit(s, t)
    ensures s.tasks[t].pc.c + s'.buf.frbs == s.buf.frbs && s'.buf.avbs >= s.buf.avbs
  {
  }

  lemma ReceiveCommitServed(s: State, t: nat)
    requires ControlOk(s) && TurnsServed(s) && t in s.tasks && s.tasks[t].pc.Copied? && BytesOk(s.buf, s.tasks[t])
    requires s.tasks[t].op.dir.Rcv?
    ensures TurnsServed(DoCommit(s, t))
  {
    var s', x := DoCommit(s, t), s.tasks[t];
    var y := x.(pos := x.pos + x.pc.c, pc := Xfer);
    assert PlaceOk(s, t);
    ReceiveCommitShape(s, s', t);
    ReceiveCommitRoom(s, s', t);
    GrowServed(s.rcv, s.buf, s'.buf, s.tasks, t, y, x.got[x.pos..x.pos + x.pc.c]);
    OtherServed(s.snd, s.buf, s'.buf, s.tasks, t, y);
  }

  lemma ReceiveCommitRoom(s: State, s': State, t: nat)
    requires BufOk(s.buf) && t in s.tasks && s.tasks[t].pc.Copied? && BytesOk(s.buf, s.tasks[t]) && s.tasks[t].op.dir.Rcv?
    requires s' == DoCommit(s, t)
    ensures s.tasks[t].pc.c + s'.buf.avbs == s.buf.avbs && s'.buf.frbs >= s.buf.frbs
  {
  }

  // --- The end of a turn

  lemma EndServed(x: Side, d: Dir, r: Buf, tasks: map<nat, Task>, t: nat)
    requires SideServed(x, r, tasks) && x.holder == Some(t) && t in tasks && tasks[t].pc.Release? && TurnsOk(x, d, tasks)
    ensures SideServed(x.(holder := None), r, tasks - {t})
  {
    assert OpenTurn(x.log[|x.log| - 1], t, tasks[t]);
  }

  lemma GoneServed(x: Side, r: Buf, tasks: map<nat, Task>, t: nat)
    requires SideServed(x, r, tasks) && x.holder != Some(t)
    ensures SideServed(x, r, tasks - {t})
  {
    ServedFrame(x, x, r, r, tasks, tasks - {t});
  }

  lemma LeaveSide(s: State, t: nat, d: Dir)
    requires Inv(s) && TurnsServed(s) && At(s, t, Release) && d == s.tasks[t].op.dir
    ensures SideServed(SideOf(DoLeave(s, t), d), s.buf, s.tasks - {t})
  {
    var x, x', tasks' := SideOf(s, d), SideOf(DoLeave(s, t), d), s.tasks - {t};
    assert PlaceOk(s, t);
    EndServed(x, d, s.buf, s.tasks, t);
    if x.queue != [] {
      var w := x.queue[0];
      assert w in x.queue;
      assert PlaceOk(s, w) && BytesOk(s.buf, s.tasks[w]);
      BeginServed(x.(holder := None), x', s.buf, tasks', w, Session(w, s.tasks[w].op, [], Fravbs(s.buf, d)));
    }
  }

  lemma LeaveServed(s: State, t: nat)
    requires Inv(s) && TurnsServed(s) && At(s, t, Release)
    ensures TurnsServed(DoLeave(s, t))
  {
    var d := s.tasks[t].op.dir;
    assert PlaceOk(s, t);
    LeaveShape(s, t);
    LeaveSide(s, t, d);
    GoneServed(SideOf(s, Other(d)), s.buf, s.tasks, t);
  }

  lemma WakeServed(s: State)
    requires ControlOk(s) && TurnsServed(s) && Enabled(s, Wake)
    ensures TurnsServed(DoWake(s))
  {
    var t := s.taskq[0];
    if s.tasks[t].pc.SemSleep? {
      PcServed(s, DoWake(s), t, s.tasks[t].(pc := SemWoken));
    } else if s.tasks[t].pc.WaitSleep? {
      PcServed(s, DoWake(s), t, s.tasks[t].(pc := WaitWoken));
    }
  }

  lemma TestServed(s: State, t: nat)
    requires ControlOk(s) && TurnsServed(s) && At(s, t, Loop)
    ensures TurnsServed(DoTest(s, t))
  {
    PcServed(s, DoTest(s, t), t, DoTest(s, t).tasks[t]);
  }

  lemma ResumeServed(s: State, t: nat)
    requires ControlOk(s) && TurnsServed(s) && At(s, t, SemWoken)
    ensures TurnsServed(DoResume(s, t))
  {
    ResumeControl(s, t);
    PcServed(s, DoResume(s, t), t, s.tasks[t].(pc := Loop));
  }

  lemma RecheckServed(s: State, t: nat)
    requires ControlOk(s) && TurnsServed(s) && At(s, t, WaitWoken)
    ensures TurnsServed(DoRecheck(s, t))
  {
    RecheckControl(s, t);
    PcServed(s, DoRecheck(s, t), t, s.tasks[t].(pc := Xfer));
  }

  lemma SignalServed(s: State, t: nat)
    requires ControlOk(s) && TurnsServed(s) && At(s, t, Signal)
    ensures TurnsServed(DoSignal(s, t))
  {
    PcServed(s, DoSignal(s, t), t, DoSignal(s, t).tasks[t]);
  }

  lemma StepServed(s: State, a: Action)
    requires Inv(s) && TurnsServed(s) && Enabled(s, a)
    ensures TurnsServed(Do(s, a))
  {
    match a
    case Call(t, op) => CallServed(s, t, op);
    case Mark(t) => PcServed(s, Do(s, a), t, s.tasks[t].(pc := SemSleep));
    case Wake => WakeServed(s);
    case Resume(t) => ResumeServed(s, t);
    case Test(t) => TestServed(s, t);
    case Recheck(t) => RecheckServed(s, t);
    case Copy(t) => CopyServed(s, t);
    case Commit(t) =>
      assert BytesOk(s.buf, s.tasks[t]);
      if s.tasks[t].op.dir.Snd? { SendCommitServed(s, t); } else { ReceiveCommitServed(s, t); }
    case SignalOther(t) => SignalServed(s, t);
    case Leave(t) => LeaveServed(s, t);
  }

  lemma {:induction false} RunServed(s: State, run: seq<Action>)
    requires Inv(s) && TurnsServed(s) && Runs(s, run)
    ensures Inv(After(s, run)) && TurnsServed(After(s, run))
    decreases |run|
  {
    if run != [] {
      StepControl(s, run[0]);
      StepData(s, run[0]);
      StepServed(s, run[0]);
      RunServed(Do(s, run[0]), run[1..]);
    }
  }

  /** In every run, each finished turn of either direction: a call for all or nothing moved all, a call for some moved some,
      and every call moved all of its bytes or at least as many as could move when its turn began. */
  lemma AllOrNothing(b: seq<byte>, run: seq<Action>, d: Dir, i: nat)
    requires |b| > 0 && Runs(Fresh(b), run)
    requires var x := SideOf(After(Fresh(b), run), d); i < |x.log| && (x.holder.None? || i < |x.log| - 1)
    ensures var turn := SideOf(After(Fresh(b), run), d).log[i];
            && (turn.op.entry.IfAll? ==> |turn.bytes| == Total(turn.op))
            && (turn.op.entry.IfSome? && Total(turn.op) > 0 ==> |turn.bytes| > 0)
            && Min(Total(turn.op), turn.room) <= |turn.bytes| <= Total(turn.op)
  {
    FreshOk(b);
    RunServed(Fresh(b), run);
    var x := SideOf(After(Fresh(b), run), d);
    assert Complete(x.log[i], d) && Admitted(x.log[i]) && Served(x.log[i]);
  }

  /** In every run, a call that moves only what it can never sleeps if it is conditional, and otherwise only before it has
      moved anything. */
  lemma OnceNeverSleepsAgain(b: seq<byte>, run: seq<Action>, t: nat)
    requires |b| > 0 && Runs(Fresh(b), run) && t in After(Fresh(b), run).tasks && After(Fresh(b), run).tasks[t].op.once
    ensures var x := After(Fresh(b), run).tasks[t];
            x.pc.Queued? || x.pc.SemSleep? || x.pc.WaitSleep? ==> x.op.entry.Blocking? && x.pos == 0
  {
    FreshOk(b);
    RunServed(Fresh(b), run);
  }

  /** A copy moves as much as possible: up to the end of the call, of what can move, or of the buffer. */
  lemma ChunkIsMost(s: State, t: nat)
    requires ControlOk(s) && At(s, t, Xfer) && t in DoCopy(s, t).tasks
    ensures var x, y := s.tasks[t], DoCopy(s, t).tasks[t];
            if x.pos >= Total(x.op) || Fravbs(s.buf, x.op.dir) == 0 then y.pc.Signal?
            else
              && y.pc.Copied?
              && (y.pc.c == Total(x.op) - x.pos || y.pc.c == Fravbs(s.buf, x.op.dir)
                  || y.pc.c == |s.buf.b| - if x.op.dir.Snd? then s.buf.lbyte else s.buf.fbyte)
  {
  }

  // ---------------------------------------------------------------------------------------------------
  // Who is next
  // ---------------------------------------------------------------------------------------------------

  ghost predicate QueuesByPriority(s: State) {
    ByPriority(s.snd.queue, s.tasks) && ByPriority(s.rcv.queue, s.tasks)
  }

  /** Tasks change but keep their priorities. */
  lemma SamePriorities(q: seq<nat>, tasks: map<nat, Task>, tasks': map<nat, Task>)
    requires ByPriority(q, tasks) && forall u :: u in q ==> u in tasks' && tasks'[u].op == tasks[u].op
    ensures ByPriority(q, tasks')
  {
    assert forall i :: 0 <= i < |q| ==> q[i] in q;
  }

  lemma TailByPriority(q: seq<nat>, tasks: map<nat, Task>)
    requires ByPriority(q, tasks) && q != []
    ensures ByPriority(q[1..], tasks)
  {
    assert forall i :: 0 <= i < |q| - 1 ==> q[1..][i] == q[i + 1];
  }

  lemma InsertByPriority(q: seq<nat>, t: nat, tasks: map<nat, Task>, y: Task)
    requires ByPriority(q, tasks) && t !in tasks
    ensures ByPriority(Insert(q, t, y.op.prio, tasks), tasks[t := y])
  {
    var i := InsertPlace(q, t, y.op.prio, tasks);
    SplicedByPriority(q, t, tasks[t := y], i, q[..i] + [t] + q[i..]);
  }

  lemma SplicedByPriority(q: seq<nat>, t: nat, tasks: map<nat, Task>, i: nat, r: seq<nat>)
    requires ByPriority(q, tasks) && t in tasks && i <= |q| && r == q[..i] + [t] + q[i..]
    requires forall j :: 0 <= j < |q| ==> (j < i <==> tasks[q[j]].op.prio >= tasks[t].op.prio)
    ensures ByPriority(r, tasks)
  {
    assert forall k :: 0 <= k < |r| ==> r[k] == if k < i then q[k] else if k == i then t else q[k - 1];
  }

  /** Steps other than a call or a hand-over leave both queues alone. */
  lemma QueuesStay(s: State, s': State)
    requires QueuesByPriority(s) && s'.snd.queue == s.snd.queue && s'.rcv.queue == s.rcv.queue
    requires forall u :: u in s.tasks ==> u in s'.tasks && s'.tasks[u].op == s.tasks[u].op
    ensures QueuesByPriority(s')
  {
    SamePriorities(s.snd.queue, s.tasks, s'.tasks);
    SamePriorities(s.rcv.queue, s.tasks, s'.tasks);
  }

  lemma CallByPriority(s: State, t: nat, op: Op)
    requires ControlOk(s) && QueuesByPriority(s) && t !in s.tasks
    ensures QueuesByPriority(DoCall(s, t, op))
  {
    var s', x := DoCall(s, t, op), SideOf(s, op.dir);
    if op.entry.Blocking? && !x.free {
      InsertByPriority(x.queue, t, s.tasks, Task(op, 0, [], Queued));
      SamePriorities(SideOf(s, Other(op.dir)).queue, s.tasks, s'.tasks);
    } else {
      QueuesStay(s, s');
    }
  }

  lemma NotQueued(s: State, t: nat, d: Dir)
    requires ControlOk(s) && At(s, t, Release)
    ensures t !in SideOf(s, d).queue
  {
    assert PlaceOk(s, t);
  }

  lemma LeaveByPriority(s: State, t: nat)
    requires ControlOk(s) && QueuesByPriority(s) && At(s, t, Release)
    ensures QueuesByPriority(DoLeave(s, t))
  {
    var d := s.tasks[t].op.dir;
    NotQueued(s, t, Snd);
    NotQueued(s, t, Rcv);
    LeaveShape(s, t);
    SamePriorities(s.snd.queue, s.tasks, s.tasks - {t});
    SamePriorities(s.rcv.queue, s.tasks, s.tasks - {t});
    if SideOf(s, d).queue != [] { TailByPriority(SideOf(s, d).queue, s.tasks - {t}); }
  }

  lemma QueuesKept(s: State, a: Action)
    requires Enabled(s, a) && !a.Call? && !a.Leave? && !a.Resume? && !a.Commit?
    ensures Do(s, a).snd.queue == s.snd.queue && Do(s, a).rcv.queue == s.rcv.queue
    ensures forall u :: u in s.tasks ==> u in Do(s, a).tasks && Do(s, a).tasks[u].op == s.tasks[u].op
  {
  }

  lemma CommitStays(s: State, t: nat)
    requires t in s.tasks && s.tasks[t].pc.Copied?
    ensures DoCommit(s, t).snd.queue == s.snd.queue && DoCommit(s, t).rcv.queue == s.rcv.queue
    ensures forall u :: u in s.tasks ==> u in DoCommit(s, t).tasks && DoCommit(s, t).tasks[u].op == s.tasks[u].op
  {
  }

  lemma StepByPriority(s: State, a: Action)
    requires Inv(s) && QueuesByPriority(s) && Enabled(s, a)
    ensures QueuesByPriority(Do(s, a))
  {
    if a.Call? {
      CallByPriority(s, a.t, a.op);
    } else if a.Leave? {
      LeaveByPriority(s, a.t);
    } else {
      if a.Resume? {
        ResumeControl(s, a.t);
      } else if a.Commit? {
        CommitStays(s, a.t);
      } else {
        QueuesKept(s, a);
      }
      QueuesStay(s, Do(s, a));
    }
  }

  lemma {:induction false} RunByPriority(s: State, run: seq<Action>)
    requires Inv(s) && QueuesByPriority(s) && Runs(s, run)
    ensures Inv(After(s, run)) && QueuesByPriority(After(s, run))
    decreases |run|
  {
    if run != [] {
      StepControl(s, run[0]);
      StepData(s, run[0]);
      StepByPriority(s, run[0]);
      RunByPriority(Do(s, run[0]), run[1..]);
    }
  }

  lemma FrontIsNext(s: State, t: nat)
    requires Inv(s) && QueuesByPriority(s) && At(s, t, Release)
    ensures GivenToFront(s, t)
  {
    assert PlaceOk(s, t);
    var q := SideOf(s, s.tasks[t].op.dir).queue;
    assert q != [] ==> q[0] in q;
  }

  /** The semaphore that `t` gives up becomes free, or goes to the waiter in front, whose priority none of them exceeds. */
  ghost predicate GivenToFront(s: State, t: nat)
    requires t in s.tasks
  {
    var d := s.tasks[t].op.dir;
    var q, x := SideOf(s, d).queue, SideOf(DoLeave(s, t), d);
    if q == [] then x.free && x.holder == None
    else
      && x.holder == Some(q[0]) && q[0] in DoLeave(s, t).taskq && q[0] in s.tasks
      && forall u :: u in q ==> u in s.tasks && s.tasks[q[0]].op.prio >= s.tasks[u].op.prio
  }

  /** In every run, a semaphore that is given up goes to the waiter in front, and no waiter has a higher priority. */
  lemma MostUrgentNext(b: seq<byte>, run: seq<Action>, t: nat)
    requires |b| > 0 && Runs(Fresh(b), run) && At(After(Fresh(b), run), t, Release)
    ensures GivenToFront(After(Fresh(b), run), t)
  {
    FreshOk(b);
    RunByPriority(Fresh(b), run);
    FrontIsNext(After(Fresh(b), run), t);
  }
}
