/** A FIFO shared by any number of senders and receivers, as atomic steps: the critical sections of the two hand-off
    semaphores, of the single waiting slot and of the chunk commits, the unprotected copies between them, and the
    service request that wakes Linux tasks up later. */
module FifoProtocol {
  import opened Ring
  import opened Wrappers

  datatype Dir = Snd | Rcv

  /** How a call enters: waiting for its semaphore, or only if it is free and some or all bytes can move. */
  datatype Entry = Blocking | IfSome | IfAll

  /** A send or receive call; `once` calls move what they can in one go, the others move everything. */
  datatype Op = Op(dir: Dir, msg: seq<byte>, want: nat, entry: Entry, once: bool, prio: int)

  datatype Pc =
    | Queued         // on the semaphore queue, flags restored, not yet marked as sleeping
    | SemSleep       // marked interruptible and gone to sleep on the semaphore
    | SemWoken
    | Loop           // holds the semaphore, about to test whether bytes are left
    | WaitSleep      // asleep in the waiting slot
    | WaitWoken
    | Xfer           // about to copy the next chunk
    | Copied(c: nat) // chunk copied, not yet committed
    | Signal         // about to signal the other side
    | Release        // about to signal the semaphore

  datatype Task = Task(op: Op, pos: nat, got: seq<byte>, pc: Pc)

  /** One call's turn on a semaphore, the bytes it has moved, and how many could move when it began. */
  datatype Session = Session(tid: nat, op: Op, bytes: seq<byte>, room: nat)

  datatype Side = Side(free: bool, queue: seq<nat>, holder: Option<nat>, log: seq<Session>)

  datatype Buf = Buf(b: seq<byte>, fbyte: nat, lbyte: nat, avbs: nat, frbs: nat)

  /** `holder`, `log` and `dropped` are history: who owns each semaphore, all turns so far, whose wake-up was dropped. */
  datatype State = State(buf: Buf, snd: Side, rcv: Side, waiting: Option<nat>, taskq: seq<nat>,
                         tasks: map<nat, Task>, dropped: set<nat>)

  datatype Action =
    | Call(t: nat, op: Op)
    | Mark(t: nat)      // a queued task marks itself interruptible and calls the scheduler
    | Wake              // the service request handler takes the next task
    | Resume(t: nat)    // a task comes back from its sleep on the semaphore
    | Test(t: nat)
    | Recheck(t: nat)   // a task comes back from its sleep in the waiting slot
    | Copy(t: nat)
    | Commit(t: nat)
    | SignalOther(t: nat)
    | Leave(t: nat)

  // ---------------------------------------------------------------------------------------------------
  // The steps
  // ---------------------------------------------------------------------------------------------------

  function Other(d: Dir): Dir {
    if d.Snd? then Rcv else Snd
  }

  function SideOf(s: State, d: Dir): Side {
    if d.Snd? then s.snd else s.rcv
  }

  function WithSide(s: State, d: Dir, x: Side): State {
    if d.Snd? then s.(snd := x) else s.(rcv := x)
  }

  function Put(s: State, t: nat, x: Task): State {
    s.(tasks := s.tasks[t := x])
  }

  /** What a sender or a receiver can move now. */
  function Fravbs(r: Buf, d: Dir): nat {
    if d.Snd? then r.frbs else r.avbs
  }

  function Total(op: Op): nat {
    if op.dir.Snd? then |op.msg| else op.want
  }

  function Acquire(s: State, t: nat, op: Op, pc: Pc): State {
    var x := SideOf(s, op.dir);
    Put(WithSide(s, op.dir, x.(free := false, holder := Some(t), log := x.log + [Session(t, op, [], Fravbs(s.buf, op.dir))])),
        t, Task(op, 0, [], pc))
  }

  /** Behind every waiter of at least its priority. */
  function Insert(q: seq<nat>, t: nat, prio: int, tasks: map<nat, Task>): (r: seq<nat>)
    ensures forall u :: u in r <==> u == t || u in q
  {
    if q == [] || (q[0] in tasks && tasks[q[0]].op.prio < prio) then [t] + q
    else [q[0]] + Insert(q[1..], t, prio, tasks)
  }

  function DoCall(s: State, t: nat, op: Op): State {
    var x := SideOf(s, op.dir);
    match op.entry
    case Blocking =>
      if x.free then Acquire(s, t, op, Loop)
      else Put(WithSide(s, op.dir, x.(queue := Insert(x.queue, t, op.prio, s.tasks))), t, Task(op, 0, [], Queued))
    case IfSome => if x.free && Fravbs(s.buf, op.dir) > 0 then Acquire(s, t, op, Xfer) else s
    case IfAll => if x.free && Fravbs(s.buf, op.dir) >= Total(op) then Acquire(s, t, op, Xfer) else s
  }

  function DoWake(s: State): State
    requires |s.taskq| > 0 && s.taskq[0] in s.tasks
  {
    var t := s.taskq[0];
    var s1 := s.(taskq := s.taskq[1..]);
    match s.tasks[t].pc
    case SemSleep => Put(s1, t, s.tasks[t].(pc := SemWoken))
    case WaitSleep => Put(s1, t, s.tasks[t].(pc := WaitWoken))
    case _ => s1.(dropped := s.dropped + {t})
  }

  function DoResume(s: State, t: nat): State
    requires t in s.tasks
  {
    var d := s.tasks[t].op.dir;
    var x := SideOf(s, d);
    if t in x.queue then
      var q := Remove(x.queue, t);
      WithSide(s, d, x.(queue := q, free := x.free || q == [])).(tasks := s.tasks - {t})
    else Put(s, t, s.tasks[t].(pc := Loop))
  }

  function Remove(q: seq<nat>, t: nat): seq<nat> {
    if q == [] then [] else if q[0] == t then q[1..] else [q[0]] + Remove(q[1..], t)
  }

  function DoTest(s: State, t: nat): State
    requires t in s.tasks
  {
    var x := s.tasks[t];
    if x.pos >= Total(x.op) then Put(s, t, x.(pc := Release))
    else if Fravbs(s.buf, x.op.dir) == 0 then Put(s, t, x.(pc := WaitSleep)).(waiting := Some(t))
    else Put(s, t, x.(pc := Xfer))
  }

  function DoRecheck(s: State, t: nat): State
    requires t in s.tasks
  {
    if s.waiting == Some(t) then Put(s, t, s.tasks[t].(pc := Release)).(waiting := None)
    else Put(s, t, s.tasks[t].(pc := Xfer))
  }

  /** The length of the next chunk: up to the end of the buffer, of the call and of what can move. */
  function Chunk(r: Buf, x: Task): nat
    requires r.lbyte <= |r.b| && r.fbyte <= |r.b|
  {
    if x.pos >= Total(x.op) then 0
    else Min(Min(|r.b| - if x.op.dir.Snd? then r.lbyte else r.fbyte, Total(x.op) - x.pos), Fravbs(r, x.op.dir))
  }

  function DoCopy(s: State, t: nat): State
    requires t in s.tasks && s.buf.lbyte <= |s.buf.b| && s.buf.fbyte <= |s.buf.b|
  {
    var x := s.tasks[t];
    var r := s.buf;
    var c := Chunk(r, x);
    if x.pos >= Total(x.op) || Fravbs(r, x.op.dir) == 0 then Put(s, t, x.(pc := Signal))
    else if x.op.dir.Snd? then
      var b := r.b[..r.lbyte] + x.op.msg[x.pos..x.pos + c] + r.b[r.lbyte + c..];
      Put(s, t, x.(pc := Copied(c))).(buf := r.(b := b))
    else
      Put(s, t, x.(pc := Copied(c), got := x.got + r.b[r.fbyte..r.fbyte + c]))
  }

  function Logged(x: Side, more: seq<byte>): Side {
    if x.log == [] then x
    else
      var last := x.log[|x.log| - 1];
      x.(log := x.log[..|x.log| - 1] + [last.(bytes := last.bytes + more)])
  }

  function DoCommit(s: State, t: nat): State
    requires t in s.tasks && s.tasks[t].pc.Copied?
  {
    var x := s.tasks[t];
    var r := s.buf;
    var c := x.pc.c;
    if x.op.dir.Snd? then
      if c <= r.frbs && x.pos + c <= |x.op.msg| then
        Put(s, t, x.(pos := x.pos + c, pc := Xfer))
        .(buf := r.(lbyte := ModSize(r.lbyte + c, |r.b|), frbs := r.frbs - c, avbs := r.avbs + c),
          snd := Logged(s.snd, x.op.msg[x.pos..x.pos + c]))
      else s
    else
      if c <= r.avbs && x.pos + c <= |x.got| then
        Put(s, t, x.(pos := x.pos + c, pc := Xfer))
        .(buf := r.(fbyte := ModSize(r.fbyte + c, |r.b|), frbs := r.frbs + c, avbs := r.avbs - c),
          rcv := Logged(s.rcv, x.got[x.pos..x.pos + c]))
      else s
  }

  function DoSignal(s: State, t: nat): State
    requires t in s.tasks
  {
    var x := s.tasks[t];
    var s1 := Put(s, t, x.(pc := if x.op.once then Release else Loop));
    if s.waiting.Some? then s1.(waiting := None, taskq := s.taskq + [s.waiting.value]) else s1
  }

  /** The semaphore goes straight to the first waiter; only without one does it become free. */
  function DoLeave(s: State, t: nat): State
    requires t in s.tasks
  {
    var d := s.tasks[t].op.dir;
    var x := SideOf(s, d);
    var s1 := s.(tasks := s.tasks - {t});
    if x.queue != [] && x.queue[0] in s.tasks then
      var w := x.queue[0];
      WithSide(s1, d, x.(queue := x.queue[1..], holder := Some(w), 
                        log := x.log + [Session(w, s.tasks[w].op, [], Fravbs(s.buf, d))]))
      .(taskq := s.taskq + [w])
    else
      WithSide(s1, d, x.(free := true, holder := None))
  }

  predicate At(s: State, t: nat, pc: Pc) {
    t in s.tasks && s.tasks[t].pc == pc
  }

  /** When a step can be taken. */
  predicate Enabled(s: State, a: Action) {
    match a
    case Call(t, op) => t !in s.tasks
    case Mark(t) => At(s, t, Queued)
    case Wake => |s.taskq| > 0 && s.taskq[0] in s.tasks
    case Resume(t) => At(s, t, SemWoken)
    case Test(t) => At(s, t, Loop)
    case Recheck(t) => At(s, t, WaitWoken)
    case Copy(t) => At(s, t, Xfer) && s.buf.lbyte <= |s.buf.b| && s.buf.fbyte <= |s.buf.b|
    case Commit(t) => t in s.tasks && s.tasks[t].pc.Copied?
    case SignalOther(t) => At(s, t, Signal)
    case Leave(t) => At(s, t, Release)
  }

  function Do(s: State, a: Action): State
    requires Enabled(s, a)
  {
    match a
    case Call(t, op) => DoCall(s, t, op)
    case Mark(t) => Put(s, t, s.tasks[t].(pc := SemSleep))
    case Wake => DoWake(s)
    case Resume(t) => DoResume(s, t)
    case Test(t) => DoTest(s, t)
    case Recheck(t) => DoRecheck(s, t)
    case Copy(t) => DoCopy(s, t)
    case Commit(t) => DoCommit(s, t)
    case SignalOther(t) => DoSignal(s, t)
    case Leave(t) => DoLeave(s, t)
  }

  predicate Runs(s: State, run: seq<Action>)
    decreases |run|
  {
    run == [] || (Enabled(s, run[0]) && Runs(Do(s, run[0]), run[1..]))
  }

  function After(s: State, run: seq<Action>): State
    requires Runs(s, run)
    decreases |run|
  {
    if run == [] then s else After(Do(s, run[0]), run[1..])
  }

  function Fresh(b: seq<byte>): State
    requires |b| > 0
  {
    State(Buf(b, 0, 0, 0, |b|), Side(true, [], None, []), Side(true, [], None, []), None, [], map[], {})
  }

  // ---------------------------------------------------------------------------------------------------
  // What every step keeps
  // ---------------------------------------------------------------------------------------------------

  ghost predicate BufOk(r: Buf) {
    |r.b| > 0 && Placed(|r.b|, r.fbyte, r.lbyte, r.avbs) && r.avbs + r.frbs == |r.b|
  }

  ghost function Contents(r: Buf): seq<byte>
    requires BufOk(r)
  {
    Window(r.b, r.fbyte, r.avbs)
  }

  function Flatten(log: seq<Session>): seq<byte> {
    if log == [] then [] else Flatten(log[..|log| - 1]) + log[|log| - 1].bytes
  }

  predicate NoDup(q: seq<nat>) {
    forall i, j :: 0 <= i < j < |q| ==> q[i] != q[j]
  }

  predicate Waiter(pc: Pc) {
    pc.Queued? || pc.SemSleep?
  }

  /** Between its first chunk and its signal to the other side. */
  predicate Moving(pc: Pc) {
    pc.Xfer? || pc.Copied? || pc.Signal?
  }

  /** The bytes that the task has moved so far. */
  function Done(x: Task): seq<byte>
    requires x.pos <= if x.op.dir.Snd? then |x.op.msg| else |x.got|
  {
    if x.op.dir.Snd? then x.op.msg[..x.pos] else x.got[..x.pos]
  }

  ghost predicate ChunkOk(r: Buf, x: Task, c: nat)
    requires BufOk(r) && x.pos <= Total(x.op)
  {
    && c <= Fravbs(r, x.op.dir) && x.pos + c <= Total(x.op)
    && if x.op.dir.Snd? then
         (c > 0 || r.lbyte == |r.b|) && c <= |r.b| - r.lbyte && r.b[r.lbyte..r.lbyte + c] == x.op.msg[x.pos..x.pos + c]
       else
         0 < c <= |r.b| - r.fbyte && |x.got| == x.pos + c && x.got[x.pos..] == Contents(r)[..c]
  }

  /** The bytes of a task, given the buffer. */
  ghost predicate BytesOk(r: Buf, x: Task)
    requires BufOk(r)
  {
    && x.pos <= Total(x.op)
    && (x.op.dir.Rcv? ==> |x.got| == x.pos + if x.pc.Copied? then x.pc.c else 0)
    && (x.pc.Copied? ==> ChunkOk(r, x, x.pc.c))
    && (Waiter(x.pc) || x.pc.SemWoken? ==> x.pos == 0)
    && (x.pc.Release? ==> x.op.once || x.pos == Total(x.op))
  }

  /** Where a task can be: a waiter is queued, or was handed the semaphore and has a wake-up coming unless that was
      dropped; every other task holds its semaphore; a sleeper in the slot is in the slot or has a wake-up coming. */
  ghost predicate PlaceOk(s: State, t: nat)
    requires t in s.tasks
  {
    var x := s.tasks[t];
    var side := SideOf(s, x.op.dir);
    && (t in side.queue <==> side.holder != Some(t))
    && (side.holder != Some(t) ==> Waiter(x.pc))
    && (Waiter(x.pc) && side.holder == Some(t) ==> (t in s.taskq <==> t !in s.dropped))
    && (!(Waiter(x.pc) && side.holder == Some(t)) ==> t !in s.dropped)
    && (x.pc.WaitSleep? ==> (t in s.taskq <==> s.waiting != Some(t)))
    && (t in s.taskq ==> side.holder == Some(t) && (Waiter(x.pc) || x.pc.WaitSleep?))
    && (s.waiting == Some(t) ==> x.pc.WaitSleep?)
  }

  ghost predicate SideOk(s: State, d: Dir) {
    var x := SideOf(s, d);
    && (x.free <==> x.holder.None?) && (x.free ==> x.queue == []) && NoDup(x.queue)
    && (forall t :: t in x.queue ==> t in s.tasks && s.tasks[t].op.dir == d)
    && (x.holder.Some? ==> x.holder.value in s.tasks && s.tasks[x.holder.value].op.dir == d)
  }

  ghost predicate TurnsOk(x: Side, d: Dir, tasks: map<nat, Task>) {
    && (forall i {:trigger x.log[i]} :: 0 <= i < |x.log| && (x.holder.None? || i < |x.log| - 1) ==> Complete(x.log[i], d))
    && (x.holder.Some? ==> x.log != [] && x.holder.value in tasks && OpenTurn(x.log[|x.log| - 1], x.holder.value, tasks[x.holder.value]))
  }

  /** The last turn is that of the holder, with the bytes it has moved so far. */
  ghost predicate OpenTurn(turn: Session, h: nat, x: Task) {
    && x.pos <= (if x.op.dir.Snd? then |x.op.msg| else |x.got|)
    && turn.tid == h && turn.op == x.op && turn.bytes == Done(x)
  }

  /** A finished call moved all its bytes, or for a `once` call a first part of them. */
  ghost predicate Complete(x: Session, d: Dir) {
    && x.op.dir == d
    && |x.bytes| <= Total(x.op)
    && (d.Snd? ==> x.bytes == x.op.msg[..|x.bytes|])
    && (!x.op.once ==> |x.bytes| == Total(x.op))
  }

  /** A task sleeps in the slot only while it cannot move, or while the other side still owes it a signal. */
  ghost predicate SlotOk(s: State) {
    s.waiting.Some? ==>
      && var w := s.waiting.value;
         && w in s.tasks && s.tasks[w].pc.WaitSleep?
         && (Fravbs(s.buf, s.tasks[w].op.dir) == 0 || Owes(s, Other(s.tasks[w].op.dir)))
  }

  ghost predicate Owes(s: State, d: Dir) {
    var x := SideOf(s, d);
    x.holder.Some? && x.holder.value in s.tasks && Moving(s.tasks[x.holder.value].pc)
  }

  ghost predicate QueueOk(s: State) {
    NoDup(s.taskq) && (forall t :: t in s.taskq ==> t in s.tasks) && (forall t :: t in s.dropped ==> t in s.tasks)
  }

  ghost predicate BooksOk(s: State) {
    BufOk(s.buf) && SideOk(s, Snd) && SideOk(s, Rcv) && SlotOk(s) && QueueOk(s)
  }

  /** Who is where. */
  ghost predicate ControlOk(s: State) {
    && BooksOk(s)
    && (forall t {:trigger PlaceOk(s, t)} :: t in s.tasks ==> PlaceOk(s, t))
  }

  /** Which bytes are where. */
  ghost predicate DataOk(s: State)
    requires BufOk(s.buf)
  {
    TurnsOk(s.snd, Snd, s.tasks) && TurnsOk(s.rcv, Rcv, s.tasks) && Flows(s.rcv, s.buf, s.snd) && AllBytes(s.buf, s.tasks)
  }

  /** What was received, followed by what is in the buffer, is what was sent. */
  ghost predicate Flows(rcv: Side, r: Buf, snd: Side)
    requires BufOk(r)
  {
    Flatten(rcv.log) + Contents(r) == Flatten(snd.log)
  }

  ghost predicate AllBytes(r: Buf, tasks: map<nat, Task>)
    requires BufOk(r)
  {
    forall t {:trigger BytesOk(r, tasks[t])} :: t in tasks ==> BytesOk(r, tasks[t])
  }

  ghost predicate Inv(s: State) {
    ControlOk(s) && DataOk(s)
  }

  lemma FreshOk(b: seq<byte>)
    requires |b| > 0
    ensures Inv(Fresh(b))
  {
  }

  // --- Control

  lemma TailOfNoDup(q: seq<nat>)
    requires NoDup(q) && q != []
    ensures NoDup(q[1..]) && forall u :: u in q[1..] <==> u in q && u != q[0]
  {
    assert q == [q[0]] + q[1..];
  }

  lemma NoDupAppend(q: seq<nat>, t: nat)
    requires NoDup(q) && t !in q
    ensures NoDup(q + [t])
  {
  }

  lemma {:induction false} InsertNoDup(q: seq<nat>, t: nat, prio: int, tasks: map<nat, Task>)
    requires NoDup(q) && t !in q
    ensures NoDup(Insert(q, t, prio, tasks))
  {
    if q == [] || (q[0] in tasks && tasks[q[0]].op.prio < prio) {
      NoDupPrepend(t, q);
    } else {
      TailOfNoDup(q);
      InsertNoDup(q[1..], t, prio, tasks);
      NoDupPrepend(q[0], Insert(q[1..], t, prio, tasks));
    }
  }

  lemma NoDupPrepend(t: nat, q: seq<nat>)
    requires NoDup(q) && t !in q
    ensures NoDup([t] + q)
  {
  }

  lemma AcquireBooks(s: State, s': State, t: nat, op: Op, pc: Pc)
    requires BooksOk(s) && t !in s.tasks && SideOf(s, op.dir).free && s' == Acquire(s, t, op, pc)
    ensures BooksOk(s')
  {
  }

  lemma AcquireControl(s: State, t: nat, op: Op, pc: Pc)
    requires ControlOk(s) && t !in s.tasks && SideOf(s, op.dir).free && (pc.Loop? || pc.Xfer?)
    ensures ControlOk(Acquire(s, t, op, pc))
  {
    var s' := Acquire(s, t, op, pc);
    AcquireBooks(s, s', t, op, pc);
    forall u | u in s'.tasks
      ensures PlaceOk(s', u)
    {
      if u in s.tasks { assert PlaceOk(s, u); }
    }
  }

  lemma QueueBooks(s: State, s': State, t: nat, op: Op)
    requires BooksOk(s) && t !in s.tasks
    requires !SideOf(s, op.dir).free && op.entry.Blocking? && s' == DoCall(s, t, op)
    ensures BooksOk(s')
  {
    InsertNoDup(SideOf(s, op.dir).queue, t, op.prio, s.tasks);
  }

  lemma QueueControl(s: State, t: nat, op: Op)
    requires ControlOk(s) && t !in s.tasks && !SideOf(s, op.dir).free && op.entry.Blocking?
    ensures ControlOk(DoCall(s, t, op))
  {
    var s' := DoCall(s, t, op);
    QueueBooks(s, s', t, op);
    forall u | u in s'.tasks
      ensures PlaceOk(s', u)
    {
      if u in s.tasks { assert PlaceOk(s, u); }
    }
  }

  lemma CallControl(s: State, t: nat, op: Op)
    requires ControlOk(s) && t !in s.tasks
    ensures ControlOk(DoCall(s, t, op))
  {
    if SideOf(s, op.dir).free {
      AcquireControl(s, t, op, if op.entry.Blocking? then Loop else Xfer);
    } else if op.entry.Blocking? {
      QueueControl(s, t, op);
    }
  }

  lemma MarkControl(s: State, t: nat)
    requires ControlOk(s) && At(s, t, Queued)
    ensures ControlOk(Put(s, t, s.tasks[t].(pc := SemSleep)))
  {
    var s' := Put(s, t, s.tasks[t].(pc := SemSleep));
    forall u | u in s'.tasks
      ensures PlaceOk(s', u)
    {
      assert PlaceOk(s, u);
    }
  }

  lemma WakePlace(s: State, s': State, t: nat, u: nat)
    requires s.taskq != [] && t == s.taskq[0] && t in s.tasks && u in s.tasks && NoDup(s.taskq)
    requires PlaceOk(s, t) && PlaceOk(s, u) && s' == DoWake(s)
    ensures PlaceOk(s', u)
  {
    TailOfNoDup(s.taskq);
  }

  lemma WakeSlot(s: State, s': State)
    requires SlotOk(s) && s.taskq != [] && s.taskq[0] in s.tasks && PlaceOk(s, s.taskq[0]) && s' == DoWake(s)
    ensures SlotOk(s')
  {
  }

  lemma WakeQueue(s: State, s': State)
    requires QueueOk(s) && s.taskq != [] && s.taskq[0] in s.tasks && s' == DoWake(s)
    ensures QueueOk(s')
  {
    TailOfNoDup(s.taskq);
  }

  lemma WakeSide(s: State, s': State, d: Dir)
    requires SideOk(s, d) && s.taskq != [] && s.taskq[0] in s.tasks && s' == DoWake(s)
    ensures SideOk(s', d)
  {
  }

  lemma WakeBooks(s: State, s': State)
    requires BooksOk(s) && s.taskq != [] && s.taskq[0] in s.tasks && PlaceOk(s, s.taskq[0]) && s' == DoWake(s)
    ensures BooksOk(s')
  {
    WakeQueue(s, s');
    WakeSide(s, s', Snd);
    WakeSide(s, s', Rcv);
    WakeSlot(s, s');
  }

  lemma WakeControl(s: State)
    requires ControlOk(s) && |s.taskq| > 0 && s.taskq[0] in s.tasks
    ensures ControlOk(DoWake(s))
  {
    var s' := DoWake(s);
    var t := s.taskq[0];
    assert PlaceOk(s, t);
    WakeBooks(s, s');
    forall u | u in s'.tasks
      ensures PlaceOk(s', u)
    {
      assert PlaceOk(s, u);
      WakePlace(s, s', t, u);
    }
  }

  lemma ResumeControl(s: State, t: nat)
    requires ControlOk(s) && At(s, t, SemWoken)
    ensures ControlOk(DoResume(s, t)) && DoResume(s, t) == Put(s, t, s.tasks[t].(pc := Loop))
  {
    assert PlaceOk(s, t);
    var s' := DoResume(s, t);
    forall u | u in s'.tasks
      ensures PlaceOk(s', u)
    {
      assert PlaceOk(s, u);
    }
  }

  /** The slot is free whenever a task is about to put itself there. */
  lemma SlotNeverOverwritten(s: State, t: nat)
    requires ControlOk(s) && At(s, t, Loop) && Fravbs(s.buf, s.tasks[t].op.dir) == 0
    ensures s.waiting == None
  {
    assert PlaceOk(s, t);
    assert s.waiting.Some? ==> PlaceOk(s, s.waiting.value);
  }

  /** A holder that moves on outside the slot, whatever bytes it has. */
  lemma MoveControl(s: State, t: nat, x: Task)
    requires ControlOk(s) && t in s.tasks && !Waiter(s.tasks[t].pc) && !s.tasks[t].pc.WaitSleep?
    requires x.op == s.tasks[t].op && !Waiter(x.pc) && !x.pc.WaitSleep? && (Moving(s.tasks[t].pc) ==> Moving(x.pc))
    ensures ControlOk(Put(s, t, x))
  {
    assert PlaceOk(s, t);
    var s' := Put(s, t, x);
    forall u | u in s'.tasks
      ensures PlaceOk(s', u)
    {
      assert PlaceOk(s, u);
    }
  }

  /** A task that can move goes on: whoever sleeps in the slot is of the other side, and this task owes it a signal. */
  lemma ProgressControl(s: State, s': State, t: nat, y: Task)
    requires ControlOk(s) && t in s.tasks && Moving(s.tasks[t].pc) && Moving(y.pc) && y.op == s.tasks[t].op
    requires s' == s.(tasks := s.tasks[t := y], buf := s'.buf, snd := s'.snd, rcv := s'.rcv) && BufOk(s'.buf)
    requires s'.snd == s.snd.(log := s'.snd.log) && s'.rcv == s.rcv.(log := s'.rcv.log)
    ensures ControlOk(s')
  {
    assert PlaceOk(s, t);
    assert s.waiting.Some? ==> PlaceOk(s, s.waiting.value);
    assert SlotOk(s');
    forall u | u in s'.tasks
      ensures PlaceOk(s', u)
    {
      assert PlaceOk(s, u);
    }
  }

  lemma CopyControl(s: State, t: nat)
    requires ControlOk(s) && At(s, t, Xfer)
    ensures ControlOk(DoCopy(s, t))
  {
    ProgressControl(s, DoCopy(s, t), t, DoCopy(s, t).tasks[t]);
  }

  lemma CommitControl(s: State, t: nat)
    requires ControlOk(s) && t in s.tasks && s.tasks[t].pc.Copied? && BytesOk(s.buf, s.tasks[t])
    ensures ControlOk(DoCommit(s, t))
  {
    ProgressControl(s, DoCommit(s, t), t, DoCommit(s, t).tasks[t]);
  }

  lemma SleepControl(s: State, t: nat)
    requires ControlOk(s) && At(s, t, Loop) && Fravbs(s.buf, s.tasks[t].op.dir) == 0
    ensures ControlOk(Put(s, t, s.tasks[t].(pc := WaitSleep)).(waiting := Some(t)))
  {
    assert PlaceOk(s, t);
    SlotNeverOverwritten(s, t);
    var s' := Put(s, t, s.tasks[t].(pc := WaitSleep)).(waiting := Some(t));
    forall u | u in s'.tasks
      ensures PlaceOk(s', u)
    {
      assert PlaceOk(s, u);
    }
  }

  lemma TestControl(s: State, t: nat)
    requires ControlOk(s) && At(s, t, Loop)
    ensures ControlOk(DoTest(s, t))
  {
    var x := s.tasks[t];
    if x.pos >= Total(x.op) {
      MoveControl(s, t, x.(pc := Release));
    } else if Fravbs(s.buf, x.op.dir) == 0 {
      SleepControl(s, t);
    } else {
      MoveControl(s, t, x.(pc := Xfer));
    }
  }

  /** Waiting in the slot never fails: whoever comes back from it was signalled. */
  lemma RecheckControl(s: State, t: nat)
    requires ControlOk(s) && At(s, t, WaitWoken)
    ensures s.waiting != Some(t) && ControlOk(DoRecheck(s, t))
  {
    assert PlaceOk(s, t);
    MoveControl(s, t, s.tasks[t].(pc := Xfer));
  }

  lemma SignalControl(s: State, t: nat)
    requires ControlOk(s) && At(s, t, Signal)
    ensures ControlOk(DoSignal(s, t))
  {
    assert PlaceOk(s, t);
    var s' := DoSignal(s, t);
    if s.waiting.Some? {
      assert PlaceOk(s, s.waiting.value);
      NoDupAppend(s.taskq, s.waiting.value);
    }
    forall u | u in s'.tasks
      ensures PlaceOk(s', u)
    {
      assert PlaceOk(s, u);
    }
  }

  lemma FreeControl(s: State, t: nat)
    requires ControlOk(s) && At(s, t, Release) && SideOf(s, s.tasks[t].op.dir).queue == []
    ensures ControlOk(DoLeave(s, t))
  {
    assert PlaceOk(s, t);
    var s' := DoLeave(s, t);
    forall u | u in s'.tasks
      ensures PlaceOk(s', u)
    {
      assert PlaceOk(s, u);
    }
  }

  lemma HandOffPlace(s: State, t: nat, w: nat, u: nat)
    requires At(s, t, Release) && w in s.tasks && u in s.tasks && u != t && PlaceOk(s, t) && PlaceOk(s, w) && PlaceOk(s, u)
    requires var x := SideOf(s, s.tasks[t].op.dir);
             x.queue != [] && w == x.queue[0] && NoDup(x.queue) && s.tasks[w].op.dir == s.tasks[t].op.dir
    ensures PlaceOk(DoLeave(s, t), u)
  {
    TailOfNoDup(SideOf(s, s.tasks[t].op.dir).queue);
  }

  lemma HandOffBooks(s: State, s': State, t: nat, w: nat)
    requires BooksOk(s) && At(s, t, Release) && w in s.tasks && PlaceOk(s, t) && PlaceOk(s, w) && s' == DoLeave(s, t)
    requires var x := SideOf(s, s.tasks[t].op.dir);
             x.queue != [] && w == x.queue[0] && s.tasks[w].op.dir == s.tasks[t].op.dir
    ensures BooksOk(s')
  {
    TailOfNoDup(SideOf(s, s.tasks[t].op.dir).queue);
    NoDupAppend(s.taskq, w);
  }

  lemma HandOffControl(s: State, t: nat)
    requires ControlOk(s) && At(s, t, Release) && SideOf(s, s.tasks[t].op.dir).queue != []
    ensures ControlOk(DoLeave(s, t))
  {
    assert PlaceOk(s, t);
    var s' := DoLeave(s, t);
    var q := SideOf(s, s.tasks[t].op.dir).queue;
    assert q[0] in q;
    assert PlaceOk(s, q[0]);
    HandOffBooks(s, s', t, q[0]);
    LeaveShape(s, t);
    forall u | u in s'.tasks
      ensures PlaceOk(s', u)
    {
      assert PlaceOk(s, u);
      HandOffPlace(s, t, q[0], u);
    }
  }

  lemma LeaveControl(s: State, t: nat)
    requires ControlOk(s) && At(s, t, Release)
    ensures ControlOk(DoLeave(s, t))
  {
    if SideOf(s, s.tasks[t].op.dir).queue == [] { FreeControl(s, t); } else { HandOffControl(s, t); }
  }

  // --- Data

  lemma LoggedBytes(x: Side, more: seq<byte>)
    requires x.log != []
    ensures Flatten(Logged(x, more).log) == Flatten(x.log) + more
  {
    var n := |x.log| - 1;
    assert Logged(x, more).log[..n] == x.log[..n];
    assert (Flatten(x.log[..n]) + x.log[n].bytes) + more == Flatten(x.log[..n]) + (x.log[n].bytes + more);
  }

  lemma NewTurn(log: seq<Session>, x: Session)
    requires x.bytes == []
    ensures Flatten(log + [x]) == Flatten(log)
  {
    assert (log + [x])[..|log|] == log;
  }

  /** Turns look only at what their holder has moved. */
  lemma TurnsFrame(x: Side, d: Dir, tasks: map<nat, Task>, tasks': map<nat, Task>)
    requires TurnsOk(x, d, tasks)
    requires x.holder.Some? && x.holder.value in tasks ==>
               && var h := x.holder.value;
                  && h in tasks' && tasks'[h].op == tasks[h].op && tasks'[h].pos == tasks[h].pos
                  && |tasks[h].got| <= |tasks'[h].got| && tasks'[h].got[..|tasks[h].got|] == tasks[h].got
    ensures TurnsOk(x, d, tasks')
  {
    if x.holder.Some? {
      var h := x.holder.value;
      assert OpenTurn(x.log[|x.log| - 1], h, tasks[h]);
      assert tasks[h].op.dir.Rcv? ==> Done(tasks'[h]) == tasks'[h].got[..|tasks[h].got|][..tasks[h].pos];
    }
  }

  lemma TurnStays(x: Side, d: Dir, tasks: map<nat, Task>, t: nat, y: Task)
    requires TurnsOk(x, d, tasks) && t in tasks && y.op == tasks[t].op && y.pos == tasks[t].pos && tasks[t].got <= y.got
    ensures TurnsOk(x, d, tasks[t := y])
  {
    TurnsFrame(x, d, tasks, tasks[t := y]);
  }

  lemma TurnOfOther(x: Side, d: Dir, tasks: map<nat, Task>, t: nat, y: Task)
    requires TurnsOk(x, d, tasks) && t in tasks && x.holder != Some(t)
    ensures TurnsOk(x, d, tasks[t := y])
  {
    TurnsFrame(x, d, tasks, tasks[t := y]);
  }

  /** A call begins its turn, after a closed last one. */
  lemma TurnBegins(x: Side, x': Side, d: Dir, tasks: map<nat, Task>, t: nat, room: nat)
    requires x.holder.None? && TurnsOk(x, d, tasks) && t in tasks && tasks[t].pos == 0
    requires x'.log == x.log + [Session(t, tasks[t].op, [], room)] && x'.holder == Some(t)
    ensures TurnsOk(x', d, tasks) && Flatten(x'.log) == Flatten(x.log)
  {
    NewTurn(x.log, Session(t, tasks[t].op, [], room));
    assert OpenTurn(x'.log[|x'.log| - 1], t, tasks[t]);
  }

  /** A holder that has moved its bytes closes its turn. */
  lemma TurnEnds(x: Side, d: Dir, tasks: map<nat, Task>, t: nat)
    requires TurnsOk(x, d, tasks) && x.holder == Some(t) && t in tasks && tasks[t].op.dir == d
    requires tasks[t].pos <= Total(tasks[t].op) && (tasks[t].op.once || tasks[t].pos == Total(tasks[t].op))
    ensures TurnsOk(x.(holder := None), d, tasks)
  {
    assert OpenTurn(x.log[|x.log| - 1], t, tasks[t]);
  }

  /** A holder commits more bytes. */
  lemma TurnGrows(x: Side, d: Dir, tasks: map<nat, Task>, t: nat, y: Task)
    requires TurnsOk(x, d, tasks) && x.holder == Some(t) && t in tasks && tasks[t].op.dir == d
    requires y.op == tasks[t].op && y.got == tasks[t].got && tasks[t].pos <= y.pos
    requires y.pos <= if d.Snd? then |y.op.msg| else |y.got|
    ensures var more := (if d.Snd? then y.op.msg else y.got)[tasks[t].pos..y.pos];
            TurnsOk(Logged(x, more), d, tasks[t := y]) && Flatten(Logged(x, more).log) == Flatten(x.log) + more
  {
    var more := (if d.Snd? then y.op.msg else y.got)[tasks[t].pos..y.pos];
    assert OpenTurn(x.log[|x.log| - 1], t, tasks[t]);
    assert Done(tasks[t]) + more == Done(y);
    LoggedBytes(x, more);
    var n := |x.log| - 1;
    forall i | 0 <= i < n
      ensures Complete(Logged(x, more).log[i], d)
    {
      assert Complete(x.log[i], d);
    }
  }

  /** Steps that change only where a task is. */
  lemma PcData(s: State, s': State, t: nat, pc: Pc)
    requires BufOk(s.buf) && DataOk(s) && t in s.tasks && !s.tasks[t].pc.Copied? && !pc.Copied?
    requires s'.tasks == s.tasks[t := s.tasks[t].(pc := pc)] && s'.buf == s.buf && s'.snd == s.snd && s'.rcv == s.rcv
    requires Waiter(pc) || pc.SemWoken? ==> Waiter(s.tasks[t].pc)
    requires pc.Release? ==> s.tasks[t].op.once || s.tasks[t].pos >= Total(s.tasks[t].op)
    ensures DataOk(s')
  {
    TurnsFrame(s.snd, Snd, s.tasks, s'.tasks);
    TurnsFrame(s.rcv, Rcv, s.tasks, s'.tasks);
    assert AllBytes(s'.buf, s'.tasks) by {
      forall u | u in s'.tasks
        ensures BytesOk(s'.buf, s'.tasks[u])
      {
        assert BytesOk(s.buf, s.tasks[u]);
      }
    }
  }

  lemma TurnsWithNew(x: Side, d: Dir, tasks: map<nat, Task>, t: nat, y: Task)
    requires TurnsOk(x, d, tasks) && t !in tasks
    ensures TurnsOk(x, d, tasks[t := y])
  {
    TurnsFrame(x, d, tasks, tasks[t := y]);
  }

  lemma AcquireTurn(x: Side, x': Side, d: Dir, tasks: map<nat, Task>, t: nat, op: Op, pc: Pc, room: nat)
    requires TurnsOk(x, d, tasks) && x.holder.None? && t !in tasks
    requires x'.log == x.log + [Session(t, op, [], room)] && x'.holder == Some(t)
    ensures TurnsOk(x', d, tasks[t := Task(op, 0, [], pc)]) && Flatten(x'.log) == Flatten(x.log)
  {
    TurnsWithNew(x, d, tasks, t, Task(op, 0, [], pc));
    TurnBegins(x, x', d, tasks[t := Task(op, 0, [], pc)], t, room);
  }

  lemma AcquireTurns(s: State, s': State, t: nat, op: Op, pc: Pc)
    requires BufOk(s.buf) && DataOk(s) && t !in s.tasks && SideOf(s, op.dir).holder.None? && s' == Acquire(s, t, op, pc)
    ensures TurnsOk(s'.snd, Snd, s'.tasks) && TurnsOk(s'.rcv, Rcv, s'.tasks) && Flows(s'.rcv, s'.buf, s'.snd)
  {
    if op.dir.Snd? {
      AcquireTurn(s.snd, s'.snd, Snd, s.tasks, t, op, pc, s.buf.frbs);
      TurnsWithNew(s.rcv, Rcv, s.tasks, t, Task(op, 0, [], pc));
    } else {
      AcquireTurn(s.rcv, s'.rcv, Rcv, s.tasks, t, op, pc, s.buf.avbs);
      TurnsWithNew(s.snd, Snd, s.tasks, t, Task(op, 0, [], pc));
    }
  }

  lemma NewTaskBytes(r: Buf, tasks: map<nat, Task>, t: nat, x: Task)
    requires BufOk(r) && AllBytes(r, tasks) && t !in tasks && x.pos == 0 && x.got == [] && !x.pc.Copied? && !x.pc.Release?
    ensures AllBytes(r, tasks[t := x])
  {
    var tasks' := tasks[t := x];
    forall u | u in tasks'
      ensures BytesOk(r, tasks'[u])
    {
      assert u != t ==> BytesOk(r, tasks[u]);
    }
  }

  lemma AcquireData(s: State, t: nat, op: Op, pc: Pc)
    requires BufOk(s.buf) && DataOk(s) && t !in s.tasks && SideOf(s, op.dir).holder.None? && (pc.Loop? || pc.Xfer?)
    ensures DataOk(Acquire(s, t, op, pc))
  {
    AcquireTurns(s, Acquire(s, t, op, pc), t, op, pc);
    NewTaskBytes(s.buf, s.tasks, t, Task(op, 0, [], pc));
  }

  lemma QueueData(s: State, s': State, t: nat, op: Op)
    requires BufOk(s.buf) && DataOk(s) && t !in s.tasks && s'.tasks == s.tasks[t := Task(op, 0, [], Queued)]
    requires s'.buf == s.buf && s'.snd == s.snd.(queue := s'.snd.queue) && s'.rcv == s.rcv.(queue := s'.rcv.queue)
    ensures DataOk(s')
  {
    TurnsFrame(s.snd, Snd, s.tasks, s'.tasks);
    TurnsFrame(s.rcv, Rcv, s.tasks, s'.tasks);
    NewTaskBytes(s.buf, s.tasks, t, Task(op, 0, [], Queued));
  }

  lemma CallData(s: State, t: nat, op: Op)
    requires ControlOk(s) && DataOk(s) && t !in s.tasks
    ensures DataOk(DoCall(s, t, op))
  {
    if SideOf(s, op.dir).free {
      AcquireData(s, t, op, if op.entry.Blocking? then Loop else Xfer);
    } else if op.entry.Blocking? {
      QueueData(s, DoCall(s, t, op), t, op);
    }
  }

  lemma LeaveTurns(s: State, t: nat, x: Side, x': Side, d: Dir)
    requires ControlOk(s) && DataOk(s) && At(s, t, Release)
    requires d == s.tasks[t].op.dir && x == SideOf(s, d) && x' == SideOf(DoLeave(s, t), d)
    ensures TurnsOk(x', d, DoLeave(s, t).tasks) && Flatten(x'.log) == Flatten(x.log)
  {
    assert PlaceOk(s, t) && BytesOk(s.buf, s.tasks[t]);
    var tasks' := DoLeave(s, t).tasks;
    TurnEnds(x, d, s.tasks, t);
    TurnsFrame(x.(holder := None), d, s.tasks, tasks');
    if x.queue != [] {
      var w := x.queue[0];
      assert w in x.queue;
      assert PlaceOk(s, w) && BytesOk(s.buf, s.tasks[w]);
      TurnBegins(x.(holder := None), x', d, tasks', w, Fravbs(s.buf, d));
    }
  }

  lemma LeaveBothTurns(s: State, t: nat)
    requires ControlOk(s) && DataOk(s) && At(s, t, Release)
    ensures var s' := DoLeave(s, t);
            && TurnsOk(s'.snd, Snd, s'.tasks) && TurnsOk(s'.rcv, Rcv, s'.tasks)
            && Flatten(s'.snd.log) == Flatten(s.snd.log) && Flatten(s'.rcv.log) == Flatten(s.rcv.log)
  {
    var s' := DoLeave(s, t);
    assert PlaceOk(s, t);
    if s.tasks[t].op.dir.Snd? {
      LeaveTurns(s, t, s.snd, s'.snd, Snd);
      TurnsFrame(s.rcv, Rcv, s.tasks, s'.tasks);
    } else {
      LeaveTurns(s, t, s.rcv, s'.rcv, Rcv);
      TurnsFrame(s.snd, Snd, s.tasks, s'.tasks);
    }
  }

  lemma FewerBytes(r: Buf, tasks: map<nat, Task>, t: nat)
    requires BufOk(r) && AllBytes(r, tasks)
    ensures AllBytes(r, tasks - {t})
  {
    var tasks' := tasks - {t};
    forall u | u in tasks'
      ensures BytesOk(r, tasks'[u])
    {
      assert BytesOk(r, tasks[u]);
    }
  }

  lemma LeaveShape(s: State, t: nat)
    requires At(s, t, Release)
    ensures DoLeave(s, t).buf == s.buf && DoLeave(s, t).tasks == s.tasks - {t}
  {
  }

  lemma FlowsAlike(r: Buf, rcv: Side, snd: Side, rcv': Side, snd': Side)
    requires BufOk(r) && Flows(rcv, r, snd) && Flatten(snd'.log) == Flatten(snd.log) && Flatten(rcv'.log) == Flatten(rcv.log)
    ensures Flows(rcv', r, snd')
  {
  }

  lemma LeaveData(s: State, t: nat)
    requires ControlOk(s) && DataOk(s) && At(s, t, Release)
    ensures DataOk(DoLeave(s, t))
  {
    var s' := DoLeave(s, t);
    LeaveShape(s, t);
    LeaveBothTurns(s, t);
    FlowsAlike(s.buf, s.rcv, s.snd, s'.rcv, s'.snd);
    FewerBytes(s.buf, s.tasks, t);
  }

  /** Only the holder of a semaphore is between a copy and its commit. */
  lemma OneCopier(s: State, t: nat, u: nat)
    requires ControlOk(s) && t in s.tasks && u in s.tasks && s.tasks[t].op.dir == s.tasks[u].op.dir
    requires Moving(s.tasks[t].pc) && Moving(s.tasks[u].pc)
    ensures t == u
  {
    assert PlaceOk(s, t) && PlaceOk(s, u);
  }

  lemma SendCopyContents(r: Buf, chunk: seq<byte>, b: seq<byte>)
    requires BufOk(r) && |chunk| <= r.frbs && r.lbyte + |chunk| <= |r.b|
    requires b == r.b[..r.lbyte] + chunk + r.b[r.lbyte + |chunk|..]
    ensures BufOk(r.(b := b)) && Contents(r.(b := b)) == Contents(r)
  {
    WriteBehind(r.b, b, r.fbyte, r.avbs, r.lbyte, chunk);
    assert Window(b, r.fbyte, r.avbs) == Window(b, r.fbyte, r.avbs + |chunk|)[..r.avbs];
  }

  lemma MiddleOf(a: seq<byte>, chunk: seq<byte>, z: seq<byte>)
    ensures (a + chunk + z)[|a|..|a| + |chunk|] == chunk
  {
  }

  lemma SendCopyBytes(r: Buf, x: Task, c: nat, b: seq<byte>)
    requires BufOk(r) && BytesOk(r, x) && x.op.dir.Snd? && x.pc.Xfer? && x.pos < Total(x.op) && r.frbs > 0
    requires c == Chunk(r, x) && b == r.b[..r.lbyte] + x.op.msg[x.pos..x.pos + c] + r.b[r.lbyte + c..]
    ensures BufOk(r.(b := b)) && Contents(r.(b := b)) == Contents(r)
    ensures BytesOk(r.(b := b), x.(pc := Copied(c)))
  {
    var chunk := x.op.msg[x.pos..x.pos + c];
    SendCopyContents(r, chunk, b);
    MiddleOf(r.b[..r.lbyte], chunk, r.b[r.lbyte + c..]);
  }

  lemma OtherBytes(r: Buf, b: seq<byte>, x: Task)
    requires BufOk(r) && BytesOk(r, x) && |b| == |r.b| && Contents(r.(b := b)) == Contents(r)
    requires x.op.dir.Snd? ==> !x.pc.Copied?
    ensures BytesOk(r.(b := b), x)
  {
  }

  lemma SendCopyTasks(s: State, t: nat, y: Task, b: seq<byte>)
    requires ControlOk(s) && AllBytes(s.buf, s.tasks) && At(s, t, Xfer) && s.tasks[t].op.dir.Snd?
    requires BufOk(s.buf.(b := b)) && |b| == |s.buf.b| && Contents(s.buf.(b := b)) == Contents(s.buf)
    requires BytesOk(s.buf.(b := b), y)
    ensures AllBytes(s.buf.(b := b), s.tasks[t := y])
  {
    var tasks' := s.tasks[t := y];
    forall u | u in tasks'
      ensures BytesOk(s.buf.(b := b), tasks'[u])
    {
      if u != t {
        assert BytesOk(s.buf, s.tasks[u]);
        if s.tasks[u].op.dir.Snd? && s.tasks[u].pc.Copied? { OneCopier(s, t, u); }
        OtherBytes(s.buf, b, s.tasks[u]);
      }
    }
  }

  lemma SendCopyShape(s: State, t: nat)
    requires BufOk(s.buf) && At(s, t, Xfer) && s.tasks[t].op.dir.Snd?
    requires s.tasks[t].pos < Total(s.tasks[t].op) && s.buf.frbs > 0
    ensures var s', x := DoCopy(s, t), s.tasks[t];
            s' == s.(tasks := s.tasks[t := x.(pc := Copied(Chunk(s.buf, x)))], buf := s.buf.(b := s'.buf.b))
  {
  }

  lemma SendCopyBytesAll(s: State, s': State, t: nat)
    requires ControlOk(s) && AllBytes(s.buf, s.tasks) && At(s, t, Xfer) && s.tasks[t].op.dir.Snd?
    requires s.tasks[t].pos < Total(s.tasks[t].op) && s.buf.frbs > 0 && s' == DoCopy(s, t)
    ensures BufOk(s'.buf) && AllBytes(s'.buf, s'.tasks) && Contents(s'.buf) == Contents(s.buf)
  {
    var x := s.tasks[t];
    var c := Chunk(s.buf, x);
    assert BytesOk(s.buf, x);
    SendCopyShape(s, t);
    SendCopyBytes(s.buf, x, c, s'.buf.b);
    SendCopyTasks(s, t, x.(pc := Copied(c)), s'.buf.b);
  }

  lemma SendCopyData(s: State, t: nat)
    requires ControlOk(s) && DataOk(s) && At(s, t, Xfer) && s.tasks[t].op.dir.Snd?
    requires s.tasks[t].pos < Total(s.tasks[t].op) && s.buf.frbs > 0
    ensures DataOk(DoCopy(s, t))
  {
    var s', x := DoCopy(s, t), s.tasks[t];
    SendCopyShape(s, t);
    SendCopyBytesAll(s, s', t);
    TurnStays(s.snd, Snd, s.tasks, t, x.(pc := Copied(Chunk(s.buf, x))));
    TurnStays(s.rcv, Rcv, s.tasks, t, x.(pc := Copied(Chunk(s.buf, x))));
  }

  /** The chunk that a receiver has read is the front of the contents. */
  lemma ReceiveCopyBytes(r: Buf, x: Task, c: nat)
    requires BufOk(r) && BytesOk(r, x) && x.op.dir.Rcv? && x.pc.Xfer? && x.pos < Total(x.op) && r.avbs > 0
    requires c == Chunk(r, x)
    ensures BytesOk(r, x.(pc := Copied(c), got := x.got + r.b[r.fbyte..r.fbyte + c]))
  {
    ReadAhead(r.b, r.fbyte, r.avbs, c);
  }

  lemma OneTaskBytes(r: Buf, tasks: map<nat, Task>, t: nat, y: Task)
    requires BufOk(r) && AllBytes(r, tasks) && BytesOk(r, y)
    ensures AllBytes(r, tasks[t := y])
  {
    var tasks' := tasks[t := y];
    forall u | u in tasks'
      ensures BytesOk(r, tasks'[u])
    {
      assert u != t ==> BytesOk(r, tasks[u]);
    }
  }

  lemma ReceiveCopyData(s: State, t: nat)
    requires ControlOk(s) && DataOk(s) && At(s, t, Xfer) && s.tasks[t].op.dir.Rcv?
    requires s.tasks[t].pos < Total(s.tasks[t].op) && s.buf.avbs > 0
    ensures DataOk(DoCopy(s, t))
  {
    var s' := DoCopy(s, t);
    var x := s.tasks[t];
    var r := s.buf;
    assert BytesOk(r, x);
    ReceiveCopyBytes(r, x, Chunk(r, x));
    OneTaskBytes(r, s.tasks, t, s'.tasks[t]);
    TurnStays(s.snd, Snd, s.tasks, t, s'.tasks[t]);
    TurnStays(s.rcv, Rcv, s.tasks, t, s'.tasks[t]);
  }

  lemma CopyData(s: State, t: nat)
    requires ControlOk(s) && DataOk(s) && At(s, t, Xfer)
    ensures DataOk(DoCopy(s, t))
  {
    var x := s.tasks[t];
    if x.pos >= Total(x.op) || Fravbs(s.buf, x.op.dir) == 0 {
      PcData(s, DoCopy(s, t), t, Signal);
    } else if x.op.dir.Snd? {
      SendCopyData(s, t);
    } else {
      ReceiveCopyData(s, t);
    }
  }

  lemma CutOut(b: seq<byte>, l: nat, c: nat)
    requires l + c <= |b|
    ensures b == b[..l] + b[l..l + c] + b[l + c..]
  {
  }

  lemma SendCommitContents(r: Buf, c: nat, r': Buf)
    requires BufOk(r) && c <= r.frbs && r.lbyte + c <= |r.b|
    requires r' == r.(lbyte := ModSize(r.lbyte + c, |r.b|), frbs := r.frbs - c, avbs := r.avbs + c)
    ensures BufOk(r') && Contents(r') == Contents(r) + r.b[r.lbyte..r.lbyte + c]
  {
    CutOut(r.b, r.lbyte, c);
    WriteBehind(r.b, r.b, r.fbyte, r.avbs, r.lbyte, r.b[r.lbyte..r.lbyte + c]);
  }

  lemma SendCommitBytes(r: Buf, x: Task, r': Buf)
    requires BufOk(r) && BytesOk(r, x) && x.op.dir.Snd? && x.pc.Copied?
    requires var c := x.pc.c; r' == r.(lbyte := ModSize(r.lbyte + c, |r.b|), frbs := r.frbs - c, avbs := r.avbs + c)
    ensures BufOk(r') && Contents(r') == Contents(r) + x.op.msg[x.pos..x.pos + x.pc.c]
  {
    SendCommitContents(r, x.pc.c, r');
  }

  lemma FrontOff(whole: seq<byte>, got: seq<byte>, pos: nat, c: nat)
    requires |got| == pos + c && c <= |whole| && got[pos..] == whole[..c]
    ensures got[pos..pos + c] + whole[c..] == whole
  {
    assert got[pos..pos + c] == got[pos..];
  }

  /** Another task's bytes survive a sender's commit. */
  lemma AfterSend(r: Buf, r': Buf, x: Task)
    requires BufOk(r) && BytesOk(r, x) && BufOk(r') && Contents(r) <= Contents(r')
    requires r'.b == r.b && r'.fbyte == r.fbyte && (x.op.dir.Snd? ==> !x.pc.Copied?)
    ensures BytesOk(r', x)
  {
  }

  lemma Shift(a: seq<byte>, more: seq<byte>, c: seq<byte>)
    ensures (a + more) + c == a + (more + c)
  {
  }

  lemma SendCommitShape(s: State, s': State, t: nat)
    requires BufOk(s.buf) && t in s.tasks && s.tasks[t].pc.Copied? && s.tasks[t].op.dir.Snd? && BytesOk(s.buf, s.tasks[t])
    requires s' == DoCommit(s, t)
    ensures var x := s.tasks[t];
            && s'.tasks == s.tasks[t := x.(pos := x.pos + x.pc.c, pc := Xfer)] && s'.rcv == s.rcv
            && s'.snd == Logged(s.snd, x.op.msg[x.pos..x.pos + x.pc.c])
            && BufOk(s'.buf) && Contents(s'.buf) == Contents(s.buf) + x.op.msg[x.pos..x.pos + x.pc.c]
            && s'.buf.b == s.buf.b && s'.buf.fbyte == s.buf.fbyte
  {
    SendCommitBytes(s.buf, s.tasks[t], s'.buf);
  }

  lemma SendCommitTurns(s: State, s': State, t: nat)
    requires BufOk(s.buf) && DataOk(s) && t in s.tasks && s.tasks[t].pc.Copied? && s.tasks[t].op.dir.Snd?
    requires s.snd.holder == Some(t) && s.rcv.holder != Some(t) && BytesOk(s.buf, s.tasks[t]) && s' == DoCommit(s, t)
    ensures TurnsOk(s'.snd, Snd, s'.tasks) && TurnsOk(s'.rcv, Rcv, s'.tasks)
  {
    SendCommitShape(s, s', t);
    TurnGrows(s.snd, Snd, s.tasks, t, s'.tasks[t]);
    TurnOfOther(s.rcv, Rcv, s.tasks, t, s'.tasks[t]);
  }

  lemma SendCommitFlows(s: State, s': State, t: nat)
    requires BufOk(s.buf) && Flows(s.rcv, s.buf, s.snd) && s.snd.log != []
    requires t in s.tasks && s.tasks[t].pc.Copied? && s.tasks[t].op.dir.Snd? && BytesOk(s.buf, s.tasks[t]) && s' == DoCommit(s, t)
    ensures BufOk(s'.buf) && Flows(s'.rcv, s'.buf, s'.snd)
  {
    var x := s.tasks[t];
    SendCommitShape(s, s', t);
    SendCommitFlow(s.buf, s'.buf, s.snd, s.rcv, s'.snd, x.op.msg[x.pos..x.pos + x.pc.c]);
  }

  /** The bytes of a task that has committed its chunk. */
  lemma CommittedBytes(r: Buf, r': Buf, x: Task)
    requires BufOk(r) && BufOk(r') && BytesOk(r, x) && x.pc.Copied?
    ensures BytesOk(r', x.(pos := x.pos + x.pc.c, pc := Xfer))
  {
  }

  lemma SendCommitTasks(s: State, r': Buf, t: nat, y: Task)
    requires ControlOk(s) && AllBytes(s.buf, s.tasks) && t in s.tasks && s.tasks[t].pc.Copied? && s.tasks[t].op.dir.Snd?
    requires BufOk(r') && Contents(s.buf) <= Contents(r') && r'.b == s.buf.b && r'.fbyte == s.buf.fbyte && BytesOk(r', y)
    ensures AllBytes(r', s.tasks[t := y])
  {
    var tasks' := s.tasks[t := y];
    forall u | u in tasks'
      ensures BytesOk(r', tasks'[u])
    {
      if u != t {
        assert BytesOk(s.buf, s.tasks[u]);
        if s.tasks[u].op.dir.Snd? && s.tasks[u].pc.Copied? { OneCopier(s, t, u); }
        AfterSend(s.buf, r', s.tasks[u]);
      }
    }
  }

  lemma SendCommitFlow(r: Buf, r': Buf, snd: Side, rcv: Side, snd': Side, more: seq<byte>)
    requires BufOk(r) && BufOk(r') && Flows(rcv, r, snd) && snd.log != [] && snd' == Logged(snd, more)
    requires Contents(r') == Contents(r) + more
    ensures Flows(rcv, r', snd')
  {
    LoggedBytes(snd, more);
    Shift(Flatten(rcv.log), Contents(r), more);
  }

  lemma SendCommitBytesAll(s: State, s': State, t: nat)
    requires ControlOk(s) && AllBytes(s.buf, s.tasks) && t in s.tasks && s.tasks[t].pc.Copied? && s.tasks[t].op.dir.Snd?
    requires BytesOk(s.buf, s.tasks[t]) && s' == DoCommit(s, t)
    ensures BufOk(s'.buf) && AllBytes(s'.buf, s'.tasks)
  {
    var x := s.tasks[t];
    SendCommitShape(s, s', t);
    CommittedBytes(s.buf, s'.buf, x);
    SendCommitTasks(s, s'.buf, t, x.(pos := x.pos + x.pc.c, pc := Xfer));
  }

  lemma SendCommitData(s: State, t: nat)
    requires ControlOk(s) && DataOk(s) && t in s.tasks && s.tasks[t].pc.Copied? && s.tasks[t].op.dir.Snd?
    ensures BufOk(DoCommit(s, t).buf) && DataOk(DoCommit(s, t))
  {
    var s' := DoCommit(s, t);
    assert PlaceOk(s, t) && BytesOk(s.buf, s.tasks[t]);
    SendCommitBytesAll(s, s', t);
    SendCommitTurns(s, s', t);
    SendCommitFlows(s, s', t);
  }

  lemma ReceiveCommitContents(r: Buf, c: nat, r': Buf)
    requires BufOk(r) && c <= r.avbs && r.fbyte + c <= |r.b|
    requires r' == r.(fbyte := ModSize(r.fbyte + c, |r.b|), frbs := r.frbs + c, avbs := r.avbs - c)
    ensures BufOk(r') && Contents(r') == Contents(r)[c..]
  {
    ReadAhead(r.b, r.fbyte, r.avbs, c);
  }

  lemma ReceiveCommitBytes(r: Buf, x: Task, r': Buf)
    requires BufOk(r) && BytesOk(r, x) && x.op.dir.Rcv? && x.pc.Copied?
    requires var c := x.pc.c; r' == r.(fbyte := ModSize(r.fbyte + c, |r.b|), frbs := r.frbs + c, avbs := r.avbs - c)
    ensures BufOk(r') && x.got[x.pos..x.pos + x.pc.c] + Contents(r') == Contents(r)
  {
    ReceiveCommitContents(r, x.pc.c, r');
    FrontOff(Contents(r), x.got, x.pos, x.pc.c);
  }

  /** Another task's bytes survive a receiver's commit. */
  lemma AfterReceive(r: Buf, r': Buf, x: Task)
    requires BufOk(r) && BytesOk(r, x) && BufOk(r') && r.frbs <= r'.frbs
    requires r'.b == r.b && r'.lbyte == r.lbyte && (x.op.dir.Rcv? ==> !x.pc.Copied?)
    ensures BytesOk(r', x)
  {
  }

  lemma ReceiveCommitShape(s: State, s': State, t: nat)
    requires BufOk(s.buf) && t in s.tasks && s.tasks[t].pc.Copied? && s.tasks[t].op.dir.Rcv? && BytesOk(s.buf, s.tasks[t])
    requires s' == DoCommit(s, t)
    ensures var x := s.tasks[t];
            && s'.tasks == s.tasks[t := x.(pos := x.pos + x.pc.c, pc := Xfer)] && s'.snd == s.snd
            && s'.rcv == Logged(s.rcv, x.got[x.pos..x.pos + x.pc.c])
            && BufOk(s'.buf) && x.got[x.pos..x.pos + x.pc.c] + Contents(s'.buf) == Contents(s.buf)
            && s'.buf.b == s.buf.b && s'.buf.lbyte == s.buf.lbyte && s'.buf.frbs >= s.buf.frbs
  {
    ReceiveCommitBytes(s.buf, s.tasks[t], s'.buf);
  }

  lemma ReceiveCommitTurns(s: State, s': State, t: nat)
    requires BufOk(s.buf) && DataOk(s) && t in s.tasks && s.tasks[t].pc.Copied? && s.tasks[t].op.dir.Rcv?
    requires s.rcv.holder == Some(t) && s.snd.holder != Some(t) && BytesOk(s.buf, s.tasks[t]) && s' == DoCommit(s, t)
    ensures TurnsOk(s'.snd, Snd, s'.tasks) && TurnsOk(s'.rcv, Rcv, s'.tasks)
  {
    ReceiveCommitShape(s, s', t);
    TurnGrows(s.rcv, Rcv, s.tasks, t, s'.tasks[t]);
    TurnOfOther(s.snd, Snd, s.tasks, t, s'.tasks[t]);
  }

  lemma ReceiveCommitFlows(s: State, s': State, t: nat)
    requires BufOk(s.buf) && Flows(s.rcv, s.buf, s.snd) && s.rcv.log != []
    requires t in s.tasks && s.tasks[t].pc.Copied? && s.tasks[t].op.dir.Rcv? && BytesOk(s.buf, s.tasks[t]) && s' == DoCommit(s, t)
    ensures BufOk(s'.buf) && Flows(s'.rcv, s'.buf, s'.snd)
  {
    var x := s.tasks[t];
    ReceiveCommitShape(s, s', t);
    ReceiveCommitFlow(s.buf, s'.buf, s.snd, s.rcv, s'.rcv, x.got[x.pos..x.pos + x.pc.c]);
  }

  lemma ReceiveCommitTasks(s: State, r': Buf, t: nat, y: Task)
    requires ControlOk(s) && AllBytes(s.buf, s.tasks) && t in s.tasks && s.tasks[t].pc.Copied? && s.tasks[t].op.dir.Rcv?
    requires BufOk(r') && s.buf.frbs <= r'.frbs && r'.b == s.buf.b && r'.lbyte == s.buf.lbyte && BytesOk(r', y)
    ensures AllBytes(r', s.tasks[t := y])
  {
    var tasks' := s.tasks[t := y];
    forall u | u in tasks'
      ensures BytesOk(r', tasks'[u])
    {
      if u != t {
        assert BytesOk(s.buf, s.tasks[u]);
        if s.tasks[u].op.dir.Rcv? && s.tasks[u].pc.Copied? { OneCopier(s, t, u); }
        AfterReceive(s.buf, r', s.tasks[u]);
      }
    }
  }

  lemma ReceiveCommitFlow(r: Buf, r': Buf, snd: Side, rcv: Side, rcv': Side, more: seq<byte>)
    requires BufOk(r) && BufOk(r') && Flows(rcv, r, snd) && rcv.log != [] && rcv' == Logged(rcv, more)
    requires more + Contents(r') == Contents(r)
    ensures Flows(rcv', r', snd)
  {
    LoggedBytes(rcv, more);
    Shift(Flatten(rcv.log), more, Contents(r'));
  }

  lemma ReceiveCommitBytesAll(s: State, s': State, t: nat)
    requires ControlOk(s) && AllBytes(s.buf, s.tasks) && t in s.tasks && s.tasks[t].pc.Copied? && s.tasks[t].op.dir.Rcv?
    requires BytesOk(s.buf, s.tasks[t]) && s' == DoCommit(s, t)
    ensures BufOk(s'.buf) && AllBytes(s'.buf, s'.tasks)
  {
    var x := s.tasks[t];
    ReceiveCommitShape(s, s', t);
    CommittedBytes(s.buf, s'.buf, x);
    ReceiveCommitTasks(s, s'.buf, t, x.(pos := x.pos + x.pc.c, pc := Xfer));
  }

  lemma ReceiveCommitData(s: State, t: nat)
    requires ControlOk(s) && DataOk(s) && t in s.tasks && s.tasks[t].pc.Copied? && s.tasks[t].op.dir.Rcv?
    ensures BufOk(DoCommit(s, t).buf) && DataOk(DoCommit(s, t))
  {
    var s' := DoCommit(s, t);
    assert PlaceOk(s, t) && BytesOk(s.buf, s.tasks[t]);
    ReceiveCommitBytesAll(s, s', t);
    ReceiveCommitTurns(s, s', t);
    ReceiveCommitFlows(s, s', t);
  }

  lemma TestData(s: State, t: nat)
    requires BufOk(s.buf) && DataOk(s) && At(s, t, Loop)
    ensures DataOk(DoTest(s, t))
  {
    var x := s.tasks[t];
    if x.pos >= Total(x.op) {
      PcData(s, DoTest(s, t), t, Release);
    } else if Fravbs(s.buf, x.op.dir) == 0 {
      PcData(s, DoTest(s, t), t, WaitSleep);
    } else {
      PcData(s, DoTest(s, t), t, Xfer);
    }
  }

  lemma SignalData(s: State, t: nat)
    requires BufOk(s.buf) && DataOk(s) && At(s, t, Signal)
    ensures DataOk(DoSignal(s, t))
  {
    if s.tasks[t].op.once {
      PcData(s, DoSignal(s, t), t, Release);
    } else {
      PcData(s, DoSignal(s, t), t, Loop);
    }
  }

  lemma WakeData(s: State)
    requires BufOk(s.buf) && DataOk(s) && Enabled(s, Wake)
    ensures DataOk(DoWake(s))
  {
    var t := s.taskq[0];
    match s.tasks[t].pc {
      case SemSleep => PcData(s, DoWake(s), t, SemWoken);
      case WaitSleep => PcData(s, DoWake(s), t, WaitWoken);
      case _ =>
        forall u | u in s.tasks
          ensures BytesOk(DoWake(s).buf, DoWake(s).tasks[u])
        {
          assert BytesOk(s.buf, s.tasks[u]);
        }
    }
  }

  // --- All steps and all runs

  lemma StepControl(s: State, a: Action)
    requires ControlOk(s) && DataOk(s) && Enabled(s, a)
    ensures ControlOk(Do(s, a))
  {
    match a
    case Call(t, op) => CallControl(s, t, op);
    case Mark(t) => MarkControl(s, t);
    case Wake => WakeControl(s);
    case Resume(t) => ResumeControl(s, t);
    case Test(t) => TestControl(s, t);
    case Recheck(t) => RecheckControl(s, t);
    case Copy(t) => CopyControl(s, t);
    case Commit(t) =>
      assert BytesOk(s.buf, s.tasks[t]);
      CommitControl(s, t);
    case SignalOther(t) => SignalControl(s, t);
    case Leave(t) => LeaveControl(s, t);
  }

  lemma StepData(s: State, a: Action)
    requires ControlOk(s) && DataOk(s) && Enabled(s, a) && BufOk(Do(s, a).buf)
    ensures DataOk(Do(s, a))
  {
    match a
    case Call(t, op) => CallData(s, t, op);
    case Mark(t) => PcData(s, Do(s, a), t, SemSleep);
    case Wake => WakeData(s);
    case Resume(t) => ResumeControl(s, t); PcData(s, DoResume(s, t), t, Loop);
    case Test(t) => TestData(s, t);
    case Recheck(t) => RecheckControl(s, t); PcData(s, DoRecheck(s, t), t, Xfer);
    case Copy(t) => CopyData(s, t);
    case Commit(t) => if s.tasks[t].op.dir.Snd? { SendCommitData(s, t); } else { ReceiveCommitData(s, t); }
    case SignalOther(t) => SignalData(s, t);
    case Leave(t) => LeaveData(s, t);
  }

  lemma {:induction false} RunKeeps(s: State, run: seq<Action>)
    requires Inv(s) && Runs(s, run)
    ensures Inv(After(s, run))
    decreases |run|
  {
    if run != [] {
      StepControl(s, run[0]);
      StepData(s, run[0]);
      RunKeeps(Do(s, run[0]), run[1..]);
    }
  }

  // ---------------------------------------------------------------------------------------------------
  // What follows for every run
  // ---------------------------------------------------------------------------------------------------

  /** The bytes received are a prefix of the messages in send-semaphore order, each message in one piece; what is
      missing is in the buffer.  The calls that are over moved their whole message or, for `once` calls, its start. */
  lemma Delivery(b: seq<byte>, run: seq<Action>)
    requires |b| > 0 && Runs(Fresh(b), run)
    ensures var s := After(Fresh(b), run);
            && BufOk(s.buf)
            && Flatten(s.rcv.log) + Contents(s.buf) == Flatten(s.snd.log)
            && |Flatten(s.snd.log)| - |Flatten(s.rcv.log)| == s.buf.avbs <= |s.buf.b|
            && TurnsOk(s.snd, Snd, s.tasks) && TurnsOk(s.rcv, Rcv, s.tasks)
  {
    FreshOk(b);
    RunKeeps(Fresh(b), run);
  }

  /** A sleeper in the slot cannot move unless a signal or a wake-up is on its way; a sleeper on a semaphore has
      someone before it, or a wake-up on its way unless that was dropped. */
  lemma NoLostWakeUp(s: State, t: nat)
    requires Inv(s) && t in s.tasks
    ensures s.tasks[t].pc.WaitSleep? ==>
              var d := s.tasks[t].op.dir;
              t in s.taskq || (s.waiting == Some(t) && (Fravbs(s.buf, d) == 0 || Owes(s, Other(d))))
    ensures s.tasks[t].pc.SemSleep? && t !in s.dropped ==>
              var x := SideOf(s, s.tasks[t].op.dir); t in s.taskq || (t in x.queue && !x.free)
  {
    assert PlaceOk(s, t);
  }

  predicate IsCall(a: Action) {
    a.Call?
  }

  /** Without new calls nothing can happen. */
  ghost predicate Stuck(s: State) {
    forall a {:trigger Enabled(s, a)} :: Enabled(s, a) ==> IsCall(a)
  }

  lemma StuckSleeps(s: State, t: nat)
    requires Inv(s) && Stuck(s) && t in s.tasks
    ensures s.taskq == [] && (s.tasks[t].pc.SemSleep? || s.tasks[t].pc.WaitSleep?)
  {
    assert !Enabled(s, Wake);
    assert !Enabled(s, Mark(t)) && !Enabled(s, Resume(t)) && !Enabled(s, Test(t)) && !Enabled(s, Recheck(t));
    assert !Enabled(s, Copy(t)) && !Enabled(s, Commit(t)) && !Enabled(s, SignalOther(t)) && !Enabled(s, Leave(t));
  }

  /** Unless a wake-up was dropped, a FIFO with callers gets stuck only when it is full and has no receiver or is
      empty and has no sender. */
  lemma NoDeadlock(s: State, t: nat)
    requires Inv(s) && Stuck(s) && s.dropped == {} && t in s.tasks
    ensures var d := s.tasks[t].op.dir;
            Fravbs(s.buf, d) == 0 && forall u :: u in s.tasks ==> s.tasks[u].op.dir == d
  {
    var d := s.tasks[t].op.dir;
    var h := StuckHolder(s, t);
    forall u | u in s.tasks
      ensures s.tasks[u].op.dir == d
    {
      var g := StuckHolder(s, u);
    }
    assert !Owes(s, Other(d));
  }

  lemma StuckHolder(s: State, t: nat) returns (h: nat)
    requires Inv(s) && Stuck(s) && s.dropped == {} && t in s.tasks
    ensures h in s.tasks && s.tasks[h].op.dir == s.tasks[t].op.dir && s.tasks[h].pc.WaitSleep?
    ensures SideOf(s, s.tasks[t].op.dir).holder == Some(h) && s.waiting == Some(h)
  {
    StuckSleeps(s, t);
    assert PlaceOk(s, t);
    h := SideOf(s, s.tasks[t].op.dir).holder.value;
    StuckSleeps(s, h);
    assert PlaceOk(s, h);
  }

  // --- The wake-up that can get lost

  /** The handler drops a wake-up exactly when the task has not marked itself as sleeping yet. */
  lemma DroppedIffQueued(s: State)
    requires Inv(s) && Enabled(s, Wake)
    ensures DoWake(s).dropped == (if s.tasks[s.taskq[0]].pc.Queued? then s.dropped + {s.taskq[0]} else s.dropped)
    ensures s.taskq[0] !in s.dropped
  {
    assert PlaceOk(s, s.taskq[0]);
  }

  /** No wake-up in the run comes before its task has marked itself. */
  ghost predicate Timely(s: State, run: seq<Action>)
    requires Runs(s, run)
    decreases |run|
  {
    run == [] ||
    ((run[0].Wake? ==> !s.tasks[s.taskq[0]].pc.Queued?) && Timely(Do(s, run[0]), run[1..]))
  }

  lemma OnlyWakeDrops(s: State, a: Action)
    requires Enabled(s, a) && !a.Wake?
    ensures Do(s, a).dropped == s.dropped
  {
  }

  lemma DroppedChange(s: State, a: Action)
    requires Inv(s) && Enabled(s, a)
    ensures Do(s, a).dropped == if a.Wake? && s.tasks[s.taskq[0]].pc.Queued? then s.dropped + {s.taskq[0]} else s.dropped
  {
    if a.Wake? { DroppedIffQueued(s); } else { OnlyWakeDrops(s, a); }
  }

  /** Tasks come and go only by their own steps. */
  lemma OthersStay(s: State, a: Action, t: nat)
    requires Enabled(s, a) && t in s.tasks && Waiter(s.tasks[t].pc)
    ensures t in Do(s, a).tasks && Do(s, a).tasks[t].op == s.tasks[t].op
  {
  }

  /** A dropped wake-up is for good: its task keeps the semaphore and never gets to use it. */
  lemma {:induction false} DroppedForever(s: State, run: seq<Action>, t: nat)
    requires Inv(s) && Runs(s, run) && t in s.dropped
    ensures var s' := After(s, run);
            && t in s.tasks && t in s'.tasks && t in s'.dropped && Waiter(s'.tasks[t].pc)
            && SideOf(s', s.tasks[t].op.dir).holder == Some(t)
    decreases |run|
  {
    assert PlaceOk(s, t);
    if run != [] {
      StepControl(s, run[0]);
      StepData(s, run[0]);
      DroppedChange(s, run[0]);
      OthersStay(s, run[0], t);
      DroppedForever(Do(s, run[0]), run[1..], t);
    }
  }

  /** Wake-ups all arrive if and only if none comes too early. */
  lemma {:induction false} AllArriveIffTimely(s: State, run: seq<Action>)
    requires Inv(s) && Runs(s, run) && s.dropped == {}
    ensures After(s, run).dropped == {} <==> Timely(s, run)
    decreases |run|
  {
    if run != [] {
      StepControl(s, run[0]);
      StepData(s, run[0]);
      var s1 := Do(s, run[0]);
      DroppedChange(s, run[0]);
      if s1.dropped == {} {
        AllArriveIffTimely(s1, run[1..]);
      } else {
        var t :| t in s1.dropped;
        DroppedForever(s1, run[1..], t);
      }
    }
  }

  lemma RunCons(s: State, a: Action, rest: seq<Action>)
    requires Enabled(s, a) && Runs(Do(s, a), rest)
    ensures Runs(s, [a] + rest) && After(s, [a] + rest) == After(Do(s, a), rest)
  {
    assert ([a] + rest)[1..] == rest;
  }

  /** Both wait for the sending semaphore: the first has it, the second is queued. */
  function TwoSenders(b: seq<byte>, op: Op): State
    requires |b| > 0
  {
    State(Buf(b, 0, 0, 0, |b|), Side(false, [1], Some(0), [Session(0, op, [], |b|)]), Side(true, [], None, []), None, [],
          map[0 := Task(op, 0, [], Loop), 1 := Task(op, 0, [], Queued)], {})
  }

  lemma SecondSenderWaits(b: seq<byte>, op: Op, rest: seq<Action>)
    requires |b| > 0 && op == Op(Snd, [], 0, Blocking, false, 0) && Runs(TwoSenders(b, op), rest)
    ensures var run := [Call(0, op)] + ([Call(1, op)] + rest);
            Runs(Fresh(b), run) && After(Fresh(b), run) == After(TwoSenders(b, op), rest)
  {
    var s1 := Do(Fresh(b), Call(0, op));
    var s2 := Do(s1, Call(1, op));
    assert s2.snd.queue == [1];
    assert s2.tasks == TwoSenders(b, op).tasks;
    assert s2 == TwoSenders(b, op);
    RunCons(s1, Call(1, op), rest);
    RunCons(Fresh(b), Call(0, op), [Call(1, op)] + rest);
  }

  lemma HandedOverTooEarly(b: seq<byte>, op: Op) returns (run: seq<Action>)
    requires |b| > 0 && op == Op(Snd, [], 0, Blocking, false, 0)
    ensures Runs(TwoSenders(b, op), run) && 1 in After(TwoSenders(b, op), run).dropped
  {
    var s2 := TwoSenders(b, op);
    var s3 := Do(s2, Test(0));
    var s4 := Do(s3, Leave(0));
    assert s4.taskq == [1] && s4.tasks[1].pc == Queued;
    var s5 := Do(s4, Wake);
    RunCons(s4, Wake, []);
    RunCons(s3, Leave(0), [Wake] + []);
    RunCons(s2, Test(0), [Leave(0)] + ([Wake] + []));
    run := [Test(0)] + ([Leave(0)] + ([Wake] + []));
  }

  /** It does happen: the semaphore passes to a sender that is not asleep yet, and the handler runs at once. */
  lemma WakeUpCanBeLost(b: seq<byte>) returns (run: seq<Action>)
    requires |b| > 0
    ensures Runs(Fresh(b), run) && 1 in After(Fresh(b), run).dropped
  {
    var op := Op(Snd, [], 0, Blocking, false, 0);
    var rest := HandedOverTooEarly(b, op);
    SecondSenderWaits(b, op, rest);
    run := [Call(0, op)] + ([Call(1, op)] + rest);
  }

  // --- The queues

  ghost predicate ByPriority(q: seq<nat>, tasks: map<nat, Task>) {
    && (forall i :: 0 <= i < |q| ==> q[i] in tasks)
    && (forall i, j :: 0 <= i < j < |q| ==> tasks[q[i]].op.prio >= tasks[q[j]].op.prio)
  }

  /** A waiter goes behind all waiters of at least its priority and before all others. */
  lemma {:induction false} InsertPlace(q: seq<nat>, t: nat, prio: int, tasks: map<nat, Task>) returns (i: nat)
    requires ByPriority(q, tasks)
    ensures i <= |q| && Insert(q, t, prio, tasks) == q[..i] + [t] + q[i..]
    ensures forall j :: 0 <= j < |q| ==> (j < i <==> tasks[q[j]].op.prio >= prio)
  {
    if q == [] || tasks[q[0]].op.prio < prio {
      i := 0;
    } else {
      var k := InsertPlace(q[1..], t, prio, tasks);
      i := k + 1;
      InsertShift(q, q[1..], t, k);
      assert forall j :: 0 < j < |q| ==> q[j] == q[1..][j - 1];
    }
  }

  lemma InsertShift(q: seq<nat>, rest: seq<nat>, t: nat, k: nat)
    requires q != [] && rest == q[1..] && k <= |rest|
    ensures [q[0]] + (rest[..k] + [t] + rest[k..]) == q[..k + 1] + [t] + q[k + 1..]
  {
  }

  function HolderOf(x: Side): set<nat> {
    if x.holder.Some? then {x.holder.value} else {}
  }

  /** A task with a wake-up pending holds one of the two semaphores, and none has two pending, so there are never more
      than two. */
  lemma RequestsFit(s: State)
    requires Inv(s)
    ensures |s.taskq| <= 2 && forall t :: t in s.taskq ==> s.snd.holder == Some(t) || s.rcv.holder == Some(t)
  {
    forall t | t in s.taskq
      ensures t in HolderOf(s.snd) + HolderOf(s.rcv)
    {
      assert PlaceOk(s, t);
    }
    NoDupFits(s.taskq, HolderOf(s.snd) + HolderOf(s.rcv));
  }

  const MAXREQS: nat := 64

  function Pending(fifos: seq<State>): nat {
    if fifos == [] then 0 else Pending(fifos[..|fifos| - 1]) + |fifos[|fifos| - 1].taskq|
  }

  /** The ring that all FIFOs share, which can hold one entry less than it has, never overflows with up to 31 of them. */
  lemma {:induction false} SharedRingFits(fifos: seq<State>)
    requires forall i {:trigger fifos[i]} :: 0 <= i < |fifos| ==> Inv(fifos[i])
    ensures Pending(fifos) <= 2 * |fifos|
    ensures |fifos| <= 31 ==> Pending(fifos) < MAXREQS
  {
    if fifos != [] {
      SharedRingFits(fifos[..|fifos| - 1]);
      RequestsFit(fifos[|fifos| - 1]);
    }
  }

  lemma {:induction false} NoDupFits(q: seq<nat>, all: set<nat>)
    requires NoDup(q) && forall t :: t in q ==> t in all
    ensures |q| <= |all|
  {
    if q != [] {
      TailOfNoDup(q);
      NoDupFits(q[1..], all - {q[0]});
    }
  }
}
