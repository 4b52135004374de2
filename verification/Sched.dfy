/** The lists of one processor's scheduler: the ready list that yields the task to run, the timed list in its linear and
    its tree form, waking up, rotation among equals, and the choice of the next timer shot. */
module Sched {

  const LINUX_PRIORITY: int := 0x7fff_ffff
  const TIME_LIMIT: int := 0x7000_0000_0000_0000

  /** A hard task.  Deadline tasks have policy -1, priority 0 and their deadline in `period`; `held` says that the task
      has a reason to stay suspended which a timer does not clear. */
  datatype Task = Task(id: nat, edf: bool, prio: int, period: int, resume: int, lat: int, held: bool)

  predicate TaskOk(t: Task) {
    0 <= t.prio < LINUX_PRIORITY && (t.edf ==> t.prio == 0) && 0 <= t.lat && t.resume < TIME_LIMIT
  }

  predicate AllOk(s: seq<Task>) {
    forall k :: 0 <= k < |s| ==> TaskOk(s[k])
  }

  // ---------------------------------------------------------------------------------------------------
  // The order of the ready list
  // ---------------------------------------------------------------------------------------------------

  /** `a` may run before `b`: deadline tasks first, by deadline, then the others by priority. */
  predicate NotAfter(a: Task, b: Task) {
    if a.edf then b.edf ==> a.period <= b.period
    else !b.edf && a.prio <= b.prio
  }

  ghost predicate Ranked(s: seq<Task>) {
    forall i, j :: 0 <= i < j < |s| ==> NotAfter(s[i], s[j])
  }

  function InsertAt(s: seq<Task>, i: nat, t: Task): seq<Task>
    requires i <= |s|
  {
    s[..i] + [t] + s[i..]
  }

  /** How many tasks at the front of the list stay before `t`. */
  function Rank(s: seq<Task>, t: Task): (i: nat)
    ensures i <= |s|
  {
    if s == [] || !NotAfter(s[0], t) then 0 else 1 + Rank(s[1..], t)
  }

  function Enqueued(s: seq<Task>, t: Task): seq<Task> {
    InsertAt(s, Rank(s, t), t)
  }

  lemma {:induction false} RankFirst(s: seq<Task>, t: Task, i: nat)
    requires i <= |s| && (i < |s| ==> !NotAfter(s[i], t))
    requires forall k :: 0 <= k < i ==> NotAfter(s[k], t)
    ensures Rank(s, t) == i
  {
    if i > 0 {
      assert NotAfter(s[0], t);
      RankFirst(s[1..], t, i - 1);
    }
  }

  /** In a ranked list a new task goes behind all equals and before everything that must come later. */
  lemma {:induction false} RankSplits(s: seq<Task>, t: Task)
    requires Ranked(s)
    ensures forall k :: 0 <= k < |s| ==> (NotAfter(s[k], t) <==> k < Rank(s, t))
  {
    if s != [] {
      RankSplits(s[1..], t);
      forall k | 0 <= k < |s|
        ensures NotAfter(s[k], t) <==> k < Rank(s, t)
      {
        if k > 0 {
          assert s[k] == s[1..][k - 1];
          assert NotAfter(s[0], s[k]);
        }
      }
    }
  }

  /** Enqueueing keeps the list ranked, so its head stays a most urgent task. */
  lemma EnqueuedRanked(s: seq<Task>, t: Task)
    requires Ranked(s)
    ensures Ranked(Enqueued(s, t))
    ensures forall k :: 0 <= k < |s| + 1 ==> NotAfter(Enqueued(s, t)[0], Enqueued(s, t)[k])
    ensures multiset(Enqueued(s, t)) == multiset(s) + multiset{t}
  {
    RankSplits(s, t);
    var i := Rank(s, t);
    InsertAtMembers(s, i, t);
    var e := Enqueued(s, t);
    forall j, k | 0 <= j < k < |e|
      ensures NotAfter(e[j], e[k])
    {
      InsertAtPlaces(s, i, t, j);
      InsertAtPlaces(s, i, t, k);
    }
  }

  /** `u` is `s` with `t` in place `i`, behind everything that may run before it, equals included, and before all else. */
  ghost predicate InTurnAt(s: seq<Task>, t: Task, u: seq<Task>, i: nat) {
    i <= |s| && u == s[..i] + [t] + s[i..] && forall k :: 0 <= k < |s| ==> (k < i <==> NotAfter(s[k], t))
  }

  ghost predicate InTurn(s: seq<Task>, t: Task, u: seq<Task>) {
    exists i: nat :: InTurnAt(s, t, u, i)
  }

  /** First come first served: in a ranked list a new task is put behind all equals, and the others stay as they are. */
  lemma EnqueuedInTurn(s: seq<Task>, t: Task)
    requires Ranked(s)
    ensures InTurn(s, t, Enqueued(s, t))
  {
    RankSplits(s, t);
    assert InTurnAt(s, t, Enqueued(s, t), Rank(s, t));
  }

  // --- Among equals

  predicate Same(a: Task, b: Task) {
    NotAfter(a, b) && NotAfter(b, a)
  }

  /** The tasks that rank with `u`, in the order in which they stand in the list. */
  function Like(s: seq<Task>, u: Task): seq<Task> {
    if s == [] then [] else (if Same(s[0], u) then [s[0]] else []) + Like(s[1..], u)
  }

  lemma {:induction false} LikeConcat(a: seq<Task>, b: seq<Task>, u: Task)
    ensures Like(a + b, u) == Like(a, u) + Like(b, u)
  {
    if a == [] {
      assert a + b == b;
    } else {
      LikeConcat(a[1..], b, u);
      assert (a + b)[1..] == a[1..] + b;
      ConcatThree(if Same(a[0], u) then [a[0]] else [], Like(a[1..], u), Like(b, u));
    }
  }

  lemma ConcatThree(a: seq<Task>, b: seq<Task>, c: seq<Task>)
    ensures (a + b) + c == a + (b + c)
  {
  }

  lemma {:induction false} NoneLike(s: seq<Task>, u: Task)
    requires forall k :: 0 <= k < |s| ==> !Same(s[k], u)
    ensures Like(s, u) == []
  {
    if s != [] { NoneLike(s[1..], u); }
  }

  /** A task that is enqueued in a ranked list comes last of those that rank with it; all other ranks keep their order. */
  lemma EnqueuedLike(s: seq<Task>, t: Task, u: Task)
    requires Ranked(s)
    ensures Like(Enqueued(s, t), u) == Like(s, u) + Like([t], u)
  {
    var i := Rank(s, t);
    RankSplits(s, t);
    LikeConcat(s[..i] + [t], s[i..], u);
    LikeConcat(s[..i], [t], u);
    LikeConcat(s[..i], s[i..], u);
    assert s == s[..i] + s[i..];
    OneOrNone(s, t, u, i);
    SwapEmpty(Like(s[..i], u), Like([t], u), Like(s[i..], u));
  }

  lemma SwapEmpty(a: seq<Task>, b: seq<Task>, c: seq<Task>)
    requires b == [] || c == []
    ensures (a + b) + c == (a + c) + b
  {
  }

  lemma OneOrNone(s: seq<Task>, t: Task, u: Task, i: nat)
    requires i <= |s| && forall k :: 0 <= k < |s| ==> (NotAfter(s[k], t) <==> k < i)
    ensures Like([t], u) == [] || Like(s[i..], u) == []
  {
    if Same(t, u) {
      NoneBehind(s, t, u, i);
      NoneLike(s[i..], u);
    } else {
      NoneLike([t], u);
    }
  }

  lemma NoneBehind(s: seq<Task>, t: Task, u: Task, i: nat)
    requires i <= |s| && Same(t, u) && forall k :: 0 <= k < |s| ==> (NotAfter(s[k], t) <==> k < i)
    ensures forall k :: 0 <= k < |s| - i ==> !Same(s[i..][k], u)
  {
    forall k | 0 <= k < |s| - i
      ensures !Same(s[i..][k], u)
    {
      assert s[i..][k] == s[i + k] && !NotAfter(s[i + k], t);
    }
  }

  lemma InsertAtMembers(s: seq<Task>, i: nat, t: Task)
    requires i <= |s|
    ensures multiset(InsertAt(s, i, t)) == multiset(s) + multiset{t}
  {
    assert s == s[..i] + s[i..];
  }

  lemma InsertAtPlaces(s: seq<Task>, i: nat, t: Task, k: nat)
    requires i <= |s| && k <= |s|
    ensures InsertAt(s, i, t)[k] == if k < i then s[k] else if k == i then t else s[k - 1]
  {
  }

  /** How many tasks at the front have at most this priority number. */
  function PrioRank(s: seq<Task>, prio: int): (i: nat)
    ensures i <= |s|
    ensures forall k :: 0 <= k < i ==> s[k].prio <= prio
    ensures i < |s| ==> s[i].prio > prio
  {
    if s == [] || s[0].prio > prio then 0 else 1 + PrioRank(s[1..], prio)
  }

  lemma {:induction false} PrioRankIs(s: seq<Task>, prio: int, i: nat)
    requires i <= |s| && (i < |s| ==> s[i].prio > prio)
    requires forall k :: 0 <= k < i ==> s[k].prio <= prio
    ensures PrioRank(s, prio) == i
  {
    if i > 0 { PrioRankIs(s[1..], prio, i - 1); }
  }

  /** `u` is `s` with `t` in place `i`, before the first task of a higher priority number. */
  ghost predicate ByPrioAt(s: seq<Task>, t: Task, u: seq<Task>, i: nat) {
    && i <= |s| && u == s[..i] + [t] + s[i..]
    && (forall k :: 0 <= k < i ==> s[k].prio <= t.prio) && (i < |s| ==> s[i].prio > t.prio)
  }

  /** For a fixed-priority task the scan over priorities alone finds its place. */
  lemma RankIsPrioRank(s: seq<Task>, t: Task)
    requires AllOk(s) && TaskOk(t) && !t.edf
    ensures Rank(s, t) == PrioRank(s, t.prio)
  {
    var i := PrioRank(s, t.prio);
    assert forall k :: 0 <= k < |s| ==> TaskOk(s[k]);
    RankFirst(s, t, i);
  }

  lemma EnqueuedByPriority(s: seq<Task>, t: Task)
    requires AllOk(s) && Ranked(s) && TaskOk(t)
    ensures AllOk(InsertAt(s, PrioRank(s, t.prio), t))
    ensures !t.edf ==> InsertAt(s, PrioRank(s, t.prio), t) == Enqueued(s, t) && Ranked(Enqueued(s, t))
  {
    var i := PrioRank(s, t.prio);
    forall k | 0 <= k < |s| + 1
      ensures TaskOk(InsertAt(s, i, t)[k])
    {
      InsertAtPlaces(s, i, t, k);
    }
    if !t.edf {
      RankIsPrioRank(s, t);
      EnqueuedRanked(s, t);
    }
  }

  /** A deadline task that is enqueued by priority keeps the list ranked exactly when every task of priority 0 is a
      deadline task due no later. */
  lemma EdfByPriorityIff(s: seq<Task>, t: Task)
    requires AllOk(s) && Ranked(s) && TaskOk(t) && t.edf
    ensures Ranked(InsertAt(s, PrioRank(s, t.prio), t)) <==>
              forall k :: 0 <= k < PrioRank(s, t.prio) ==> NotAfter(s[k], t)
  {
    var i := PrioRank(s, t.prio);
    if Ranked(InsertAt(s, i, t)) {
      forall k | 0 <= k < i
        ensures NotAfter(s[k], t)
      {
        InsertAtPlaces(s, i, t, k);
        InsertAtPlaces(s, i, t, i);
      }
    }
    if forall k :: 0 <= k < i ==> NotAfter(s[k], t) {
      BehindZeros(s, t);
      EnqueuedRanked(s, t);
    }
  }

  /** When every task of priority 0 may run before deadline task `t`, its rank is behind them. */
  lemma BehindZeros(s: seq<Task>, t: Task)
    requires AllOk(s) && TaskOk(t) && t.edf && forall k :: 0 <= k < PrioRank(s, t.prio) ==> NotAfter(s[k], t)
    ensures Rank(s, t) == PrioRank(s, t.prio)
  {
    var i := PrioRank(s, t.prio);
    assert i < |s| ==> TaskOk(s[i]);
    RankFirst(s, t, i);
  }

  /** A deadline task that is enqueued by priority gets behind one that is due later. */
  lemma EdfByPriorityCanUnrank() returns (s: seq<Task>, t: Task)
    ensures AllOk(s) && Ranked(s) && TaskOk(t) && t.edf && !Ranked(InsertAt(s, PrioRank(s, t.prio), t))
  {
    s, t := [Task(0, true, 0, 20, 0, 0, false)], Task(1, true, 0, 10, 0, 0, false);
    EdfByPriorityIff(s, t);
    PrioRankIs(s, 0, 1);
    assert !NotAfter(s[0], t);
  }

  // ---------------------------------------------------------------------------------------------------
  // A ready task becomes more urgent
  // ---------------------------------------------------------------------------------------------------

  function WithoutAt(s: seq<Task>, i: nat): seq<Task>
    requires i < |s|
  {
    s[..i] + s[i + 1..]
  }

  /** Task `i` takes priority `prio`; it is relinked only when one of its neighbours, of which the Linux head is one,
      shows that it is out of place. */
  function Raised(s: seq<Task>, i: nat, prio: int): seq<Task>
    requires i < |s|
  {
    var t, rest := s[i].(prio := prio), WithoutAt(s, i);
    if (if i == 0 then LINUX_PRIORITY else s[i - 1].prio) > prio ||
       (if i + 1 == |s| then LINUX_PRIORITY else s[i + 1].prio) < prio
    then InsertAt(rest, PrioRank(rest, prio), t)
    else s[i := t]
  }

  lemma WithoutAtPlaces(s: seq<Task>, i: nat, k: nat)
    requires i < |s| && k + 1 < |s|
    ensures WithoutAt(s, i)[k] == if k < i then s[k] else s[k + 1]
  {
  }

  lemma WithoutAtRanked(s: seq<Task>, i: nat)
    requires i < |s| && AllOk(s) && Ranked(s)
    ensures AllOk(WithoutAt(s, i)) && Ranked(WithoutAt(s, i))
  {
    var r := WithoutAt(s, i);
    forall k | 0 <= k < |r|
      ensures TaskOk(r[k])
    {
      WithoutAtPlaces(s, i, k);
    }
    forall j, k | 0 <= j < k < |r|
      ensures NotAfter(r[j], r[k])
    {
      WithoutAtPlaces(s, i, j);
      WithoutAtPlaces(s, i, k);
    }
  }

  /** The neighbours decide: a task that they leave in its place has the rank of that place. */
  lemma StaysInRank(s: seq<Task>, i: nat, prio: int)
    requires i < |s| && AllOk(s) && Ranked(s) && !s[i].edf && 0 <= prio < s[i].prio
    requires 0 < i && s[i - 1].prio <= prio
    ensures PrioRank(WithoutAt(s, i), prio) == i
    ensures InsertAt(WithoutAt(s, i), i, s[i].(prio := prio)) == s[i := s[i].(prio := prio)]
  {
    var r := WithoutAt(s, i);
    forall k | 0 <= k < i
      ensures r[k].prio <= prio
    {
      WithoutAtPlaces(s, i, k);
      assert TaskOk(s[k]) && (k < i - 1 ==> NotAfter(s[k], s[i - 1]));
    }
    if i < |r| {
      WithoutAtPlaces(s, i, i);
      assert NotAfter(s[i], s[i + 1]);
    }
    PrioRankIs(r, prio, i);
    PutBack(s, i, s[i].(prio := prio));
  }

  lemma PutBack(s: seq<Task>, i: nat, t: Task)
    requires i < |s|
    ensures InsertAt(WithoutAt(s, i), i, t) == s[i := t]
  {
    assert WithoutAt(s, i)[..i] == s[..i] && WithoutAt(s, i)[i..] == s[i + 1..];
  }

  lemma RaisedByPriority(s: seq<Task>, i: nat, prio: int)
    requires i < |s| && AllOk(s) && Ranked(s) && !s[i].edf && 0 <= prio < s[i].prio
    ensures Raised(s, i, prio) == InsertAt(WithoutAt(s, i), PrioRank(WithoutAt(s, i), prio), s[i].(prio := prio))
  {
    assert TaskOk(s[i]);
    if 0 < i && s[i - 1].prio <= prio { StaysInRank(s, i, prio); }
  }

  /** Inheritance keeps the ready list ranked, deadline tasks in front: wherever the neighbour test leaves or puts the
      task, the list is as if it had been taken out and enqueued afresh. */
  lemma RaisedRanked(s: seq<Task>, i: nat, prio: int)
    requires i < |s| && AllOk(s) && Ranked(s) && !s[i].edf && 0 <= prio < s[i].prio
    ensures Raised(s, i, prio) == Enqueued(WithoutAt(s, i), s[i].(prio := prio))
    ensures AllOk(Raised(s, i, prio)) && Ranked(Raised(s, i, prio))
  {
    WithoutAtRanked(s, i);
    assert TaskOk(s[i]);
    EnqueuedByPriority(WithoutAt(s, i), s[i].(prio := prio));
    RaisedByPriority(s, i, prio);
  }

  // ---------------------------------------------------------------------------------------------------
  // Rotation among equals
  // ---------------------------------------------------------------------------------------------------

  /** How many tasks behind the first have its priority, counting it. */
  function Equals(s: seq<Task>, prio: int): (k: nat)
    ensures k <= |s|
    ensures forall i :: 0 <= i < k ==> s[i].prio == prio
    ensures k < |s| ==> s[k].prio != prio
  {
    if s == [] || s[0].prio != prio then 0 else 1 + Equals(s[1..], prio)
  }

  function Yielded(s: seq<Task>): seq<Task> {
    if s == [] then s else
    var k := Equals(s, s[0].prio);
    s[1..k] + [s[0]] + s[k..]
  }

  /** The list after `n` yields of whoever is first then. */
  function YieldedTimes(s: seq<Task>, n: nat): seq<Task> {
    if n == 0 then s else Yielded(YieldedTimes(s, n - 1))
  }

  /** One rotation step on the first `k` elements, of which `n` have gone round. */
  lemma RotateStep(s: seq<Task>, n: nat, k: nat)
    requires n < k <= |s|
    ensures var r := s[n..k] + s[..n] + s[k..];
            && r[0] == s[n] && (forall i :: 0 <= i < k ==> r[i] in s[..k]) && r[k..] == s[k..]
            && r[1..k] + [r[0]] + r[k..] == s[n + 1..k] + s[..n + 1] + s[k..]
  {
    var r := s[n..k] + s[..n] + s[k..];
    assert r[1..k] == s[n + 1..k] + s[..n];
    assert s[..n + 1] == s[..n] + [s[n]];
    assert r[k..] == s[k..];
    forall i | 0 <= i < k
      ensures r[i] in s[..k]
    {
      assert r[i] == s[..k][if i < k - n then n + i else i - (k - n)];
    }
  }

  lemma {:induction false} YieldsRotate(s: seq<Task>, n: nat)
    requires s != [] && n <= Equals(s, s[0].prio)
    ensures var k := Equals(s, s[0].prio); YieldedTimes(s, n) == s[n..k] + s[..n] + s[k..]
  {
    var k := Equals(s, s[0].prio);
    if n == 0 {
      assert s == s[0..k] + s[..0] + s[k..];
    } else {
      YieldsRotate(s, n - 1);
      var r := YieldedTimes(s, n - 1);
      RotateStep(s, n - 1, k);
      assert k < |s| ==> r[k] == r[k..][0];
      EqualsIs(r, s[0].prio, k);
    }
  }

  lemma {:induction false} EqualsIs(s: seq<Task>, prio: int, k: nat)
    requires k <= |s| && (k < |s| ==> s[k].prio != prio)
    requires forall i :: 0 <= i < k ==> s[i].prio == prio
    ensures Equals(s, prio) == k
  {
    if k > 0 { EqualsIs(s[1..], prio, k - 1); }
  }

  lemma AllRound(s: seq<Task>, k: nat)
    requires k <= |s|
    ensures s[k..k] + s[..k] + s[k..] == s
  {
  }

  /** Among `k` tasks of equal priority, `k` yields restore the order. */
  lemma YieldsRestore(s: seq<Task>)
    requires s != []
    ensures YieldedTimes(s, Equals(s, s[0].prio)) == s
  {
    var k := Equals(s, s[0].prio);
    YieldsRotate(s, k);
    AllRound(s, k);
  }

  lemma YieldedAt(s: seq<Task>, i: nat)
    requires s != [] && i < |s|
    ensures |Yielded(s)| == |s|
    ensures var k := Equals(s, s[0].prio);
            Yielded(s)[i] == if i + 1 < k then s[i + 1] else if i + 1 == k then s[0] else s[i]
  {
  }

  /** `u` is `s` with its first task behind the `k` tasks, itself included, of its priority that are in front. */
  ghost predicate BehindAt(s: seq<Task>, u: seq<Task>, k: nat) {
    && 1 <= k <= |s| && u == s[1..k] + [s[0]] + s[k..]
    && (forall i :: 0 <= i < k ==> s[i].prio == s[0].prio) && (k < |s| ==> s[k].prio != s[0].prio)
  }

  ghost predicate BehindEquals(s: seq<Task>, u: seq<Task>) {
    exists k: nat :: BehindAt(s, u, k)
  }

  lemma YieldedBehindEquals(s: seq<Task>)
    requires s != []
    ensures BehindEquals(s, Yielded(s))
  {
    assert BehindAt(s, Yielded(s), Equals(s, s[0].prio));
  }

  lemma YieldAlone(s: seq<Task>)
    requires s != [] && Equals(s, s[0].prio) == 1
    ensures Yielded(s) == s
  {
    assert s == [] + [s[0]] + s[1..];
  }

  lemma YieldedOk(s: seq<Task>)
    requires AllOk(s)
    ensures AllOk(Yielded(s))
  {
    var y := Yielded(s);
    if s != [] {
      YieldedAt(s, 0);
      forall i | 0 <= i < |y|
        ensures TaskOk(y[i])
      {
        YieldedAt(s, i);
      }
    }
  }

  lemma YieldStaysRanked(s: seq<Task>)
    requires s != [] && Ranked(s) && forall i :: 1 <= i < Equals(s, s[0].prio) ==> NotAfter(s[i], s[0])
    ensures Ranked(Yielded(s))
  {
    var y := Yielded(s);
    YieldedAt(s, 0);
    forall i, j | 0 <= i < j < |y|
      ensures NotAfter(y[i], y[j])
    {
      YieldedAt(s, i);
      YieldedAt(s, j);
    }
  }

  /** Yielding keeps the list ranked exactly when every task it goes behind may run before it; for a fixed-priority
      task that is always so, a deadline task goes behind everything of priority 0. */
  lemma YieldRankedIff(s: seq<Task>)
    requires s != [] && Ranked(s)
    ensures Ranked(Yielded(s)) <==> forall i :: 1 <= i < Equals(s, s[0].prio) ==> NotAfter(s[i], s[0])
    ensures !s[0].edf ==> Ranked(Yielded(s))
  {
    var k := Equals(s, s[0].prio);
    if Ranked(Yielded(s)) {
      forall i | 1 <= i < k
        ensures NotAfter(s[i], s[0])
      {
        YieldedAt(s, i - 1);
        YieldedAt(s, k - 1);
        assert NotAfter(Yielded(s)[i - 1], Yielded(s)[k - 1]);
      }
    }
    if !s[0].edf {
      forall i | 1 <= i < k
        ensures NotAfter(s[i], s[0])
      {
        assert NotAfter(s[0], s[i]);
      }
    }
    if forall i :: 1 <= i < k ==> NotAfter(s[i], s[0]) { YieldStaysRanked(s); }
  }

  /** A deadline task of an earlier deadline that yields is overtaken by a later one. */
  lemma YieldCanUnrank() returns (s: seq<Task>)
    ensures AllOk(s) && Ranked(s) && !Ranked(Yielded(s))
  {
    s := [Task(0, true, 0, 10, 0, 0, false), Task(1, true, 0, 20, 0, 0, false)];
    YieldRankedIff(s);
    EqualsIs(s, 0, 2);
    assert !NotAfter(s[1], s[0]);
  }

  // ---------------------------------------------------------------------------------------------------
  // The timed list
  // ---------------------------------------------------------------------------------------------------

  ghost predicate Sorted(s: seq<Task>) {
    forall i, j :: 0 <= i < j < |s| ==> s[i].resume <= s[j].resume
  }

  /** Before the first task that resumes at the same time or later. */
  function TimedRank(s: seq<Task>, t: Task): (i: nat)
    ensures i <= |s|
  {
    if s == [] || t.resume <= s[0].resume then 0 else 1 + TimedRank(s[1..], t)
  }

  function TimedIn(s: seq<Task>, t: Task): seq<Task> {
    InsertAt(s, TimedRank(s, t), t)
  }

  lemma {:induction false} TimedRankIs(s: seq<Task>, t: Task, i: nat)
    requires i <= |s| && (i < |s| ==> t.resume <= s[i].resume)
    requires forall k :: 0 <= k < i ==> s[k].resume < t.resume
    ensures TimedRank(s, t) == i
  {
    if i > 0 { TimedRankIs(s[1..], t, i - 1); }
  }

  lemma {:induction false} TimedRankSplits(s: seq<Task>, t: Task)
    requires Sorted(s)
    ensures forall k :: 0 <= k < |s| ==> (s[k].resume < t.resume <==> k < TimedRank(s, t))
  {
    if s != [] && t.resume > s[0].resume {
      TimedRankSplits(s[1..], t);
      forall k | 0 <= k < |s|
        ensures s[k].resume < t.resume <==> k < TimedRank(s, t)
      {
        if k > 0 { assert s[k] == s[1..][k - 1]; }
      }
    }
  }

  /** `u` is `s` with `t` in place `i`, behind everything that resumes earlier and before everything else. */
  ghost predicate InTimeAt(s: seq<Task>, t: Task, u: seq<Task>, i: nat) {
    i <= |s| && u == s[..i] + [t] + s[i..] && forall k :: 0 <= k < |s| ==> (k < i <==> s[k].resume < t.resume)
  }

  ghost predicate InTime(s: seq<Task>, t: Task, u: seq<Task>) {
    exists i: nat :: InTimeAt(s, t, u, i)
  }

  /** In a sorted list a new task is put before the first one that resumes no earlier. */
  lemma TimedInSorted(s: seq<Task>, t: Task)
    requires Sorted(s)
    ensures Sorted(TimedIn(s, t)) && InTime(s, t, TimedIn(s, t))
    ensures forall k :: 0 <= k < |s| ==> (s[k].resume < t.resume <==> k < TimedRank(s, t))
  {
    TimedRankSplits(s, t);
    var i := TimedRank(s, t);
    assert InTimeAt(s, t, TimedIn(s, t), i);
    forall j, k | 0 <= j < k < |s| + 1
      ensures TimedIn(s, t)[j].resume <= TimedIn(s, t)[k].resume
    {
      InsertAtPlaces(s, i, t, j);
      InsertAtPlaces(s, i, t, k);
    }
  }

  // --- The tree form

  datatype Tree = Leaf | Node(left: Tree, v: Task, right: Tree)

  function InOrder(r: Tree): seq<Task> {
    match r
    case Leaf => []
    case Node(l, v, n) => InOrder(l) + [v] + InOrder(n)
  }

  /** The tree with `t` linked in at the leaf where its search ends. */
  function Linked(r: Tree, t: Task): Tree {
    match r
    case Leaf => Node(Leaf, t, Leaf)
    case Node(l, v, n) => if t.resume > v.resume then Node(l, v, Linked(n, t)) else Node(Linked(l, t), v, n)
  }

  lemma RankRight(a: seq<Task>, b: seq<Task>, t: Task)
    requires Sorted(a + b) && Sorted(b) && forall x :: x in a ==> x.resume < t.resume
    ensures TimedRank(a + b, t) == |a| + TimedRank(b, t)
  {
    var s := a + b;
    TimedInSorted(b, t);
    var i := TimedRank(b, t);
    forall k | 0 <= k < |a| + i
      ensures s[k].resume < t.resume
    {
      assert k < |a| ==> s[k] == a[k] && a[k] in a;
      assert k >= |a| ==> s[k] == b[k - |a|];
    }
    TimedRankIs(s, t, |a| + i);
  }

  lemma InsertRight(a: seq<Task>, v: Task, b: seq<Task>, t: Task)
    requires Sorted(a + [v] + b) && t.resume > v.resume
    ensures TimedIn(a + [v] + b, t) == a + [v] + TimedIn(b, t)
  {
    var s, front := a + [v] + b, a + [v];
    SortedPart(s, |front|, |s|, b);
    forall x | x in front
      ensures x.resume < t.resume
    {
      var k :| 0 <= k < |front| && front[k] == x;
      assert s[k] == x && s[|a|] == v;
    }
    RankRight(front, b, t);
    InsertBehind(front, b, TimedRank(b, t), t);
  }

  lemma InsertBehind(a: seq<Task>, b: seq<Task>, i: nat, t: Task)
    requires i <= |b|
    ensures InsertAt(a + b, |a| + i, t) == a + InsertAt(b, i, t)
  {
    var s := a + b;
    assert s[..|a| + i] == a + b[..i] && s[|a| + i..] == b[i..];
  }

  lemma InsertLeft(a: seq<Task>, v: Task, b: seq<Task>, t: Task)
    requires Sorted(a + [v] + b) && t.resume <= v.resume
    ensures TimedIn(a + [v] + b, t) == TimedIn(a, t) + [v] + b
  {
    var s := a + [v] + b;
    SortedPart(s, 0, |a|, a);
    TimedInSorted(a, t);
    var i := TimedRank(a, t);
    assert forall k :: 0 <= k < |a| ==> s[k] == a[k];
    TimedRankIs(s, t, i);
    assert s[..i] == a[..i] && s[i..] == a[i..] + [v] + b;
    assert a[..i] + [t] + (a[i..] + [v] + b) == (a[..i] + [t] + a[i..]) + [v] + b;
  }

  /** Searching a tree that holds a sorted list ends where the linear scan does. */
  lemma {:induction false} LinkedInOrder(r: Tree, t: Task)
    requires Sorted(InOrder(r))
    ensures InOrder(Linked(r, t)) == TimedIn(InOrder(r), t)
  {
    match r
    case Leaf =>
    case Node(l, v, n) =>
      var a, b, s := InOrder(l), InOrder(n), InOrder(r);
      assert s[..|a|] == a && s[|a| + 1..] == b;
      SortedPart(s, 0, |a|, a);
      SortedPart(s, |a| + 1, |s|, b);
      if t.resume > v.resume {
        LinkedInOrder(n, t);
        InsertRight(a, v, b, t);
      } else {
        LinkedInOrder(l, t);
        InsertLeft(a, v, b, t);
      }
  }

  function Size(r: Tree): nat {
    |InOrder(r)|
  }

  /** The tree without its task in place `i`.  When that task has children on both sides, its successor takes its place. */
  function Erased(r: Tree, i: nat): Tree
    requires i < Size(r)
  {
    match r
    case Node(l, v, n) =>
      if i < Size(l) then Node(Erased(l, i), v, n)
      else if i > Size(l) then Node(l, v, Erased(n, i - Size(l) - 1))
      else if l.Leaf? then n
      else if n.Leaf? then l
      else Node(l, InOrder(n)[0], Erased(n, 0))
  }

  /** Erasing a node takes its task out of the order and leaves the rest as it was. */
  lemma {:induction false} ErasedInOrder(r: Tree, i: nat)
    requires i < Size(r)
    ensures InOrder(Erased(r, i)) == WithoutAt(InOrder(r), i)
  {
    match r
    case Node(l, v, n) =>
      if i < Size(l) {
        ErasedInOrder(l, i);
        WithoutLeft(InOrder(l), v, InOrder(n), i);
      } else if i > Size(l) {
        ErasedInOrder(n, i - Size(l) - 1);
        WithoutRight(InOrder(l), v, InOrder(n), i - Size(l) - 1);
      } else {
        if l.Node? && n.Node? { ErasedInOrder(n, 0); }
        ErasedHere(l, v, n);
      }
  }

  lemma ErasedHere(l: Tree, v: Task, n: Tree)
    requires l.Node? && n.Node? ==> InOrder(Erased(n, 0)) == WithoutAt(InOrder(n), 0)
    ensures InOrder(Erased(Node(l, v, n), Size(l))) == WithoutAt(InOrder(Node(l, v, n)), Size(l))
  {
    WithoutMiddle(InOrder(l), v, InOrder(n));
    if l.Node? && n.Node? { Successor(InOrder(l), InOrder(n)); }
  }

  lemma WithoutLeft(a: seq<Task>, v: Task, b: seq<Task>, i: nat)
    requires i < |a|
    ensures WithoutAt(a + [v] + b, i) == WithoutAt(a, i) + [v] + b
  {
  }

  lemma WithoutRight(a: seq<Task>, v: Task, b: seq<Task>, i: nat)
    requires i < |b|
    ensures WithoutAt(a + [v] + b, |a| + 1 + i) == a + [v] + WithoutAt(b, i)
  {
  }

  lemma WithoutMiddle(a: seq<Task>, v: Task, b: seq<Task>)
    ensures WithoutAt(a + [v] + b, |a|) == a + b
  {
  }

  lemma Successor(a: seq<Task>, b: seq<Task>)
    requires b != []
    ensures a + [b[0]] + WithoutAt(b, 0) == a + b
  {
  }

  lemma SortedPart(s: seq<Task>, lo: nat, hi: nat, p: seq<Task>)
    requires Sorted(s) && lo <= hi <= |s| && p == s[lo..hi]
    ensures Sorted(p)
  {
    forall i, j | 0 <= i < j < |p|
      ensures p[i].resume <= p[j].resume
    {
      assert p[i] == s[lo + i] && p[j] == s[lo + j];
    }
  }

  // --- Waking up

  /** How many tasks leave the timed list: the head when it is due up to its latency, then all that are due. */
  function Due(s: seq<Task>, now: int): (k: nat)
    ensures k <= |s|
  {
    if s == [] || s[0].resume - s[0].lat > now then 0 else 1 + DueNow(s[1..], now)
  }

  function DueNow(s: seq<Task>, now: int): (k: nat)
    ensures k <= |s|
  {
    if s == [] || s[0].resume > now then 0 else 1 + DueNow(s[1..], now)
  }

  lemma {:induction false} DueNowExact(s: seq<Task>, now: int)
    requires Sorted(s)
    ensures forall i :: 0 <= i < |s| ==> (i < DueNow(s, now) <==> s[i].resume <= now)
  {
    if s != [] {
      SortedPart(s, 1, |s|, s[1..]);
      DueNowExact(s[1..], now);
      forall i | 0 <= i < |s|
        ensures i < DueNow(s, now) <==> s[i].resume <= now
      {
        if i > 0 { assert s[i] == s[1..][i - 1]; }
      }
    }
  }

  /** Exactly the tasks due by now leave, and besides them at most the head, when it is due within its latency. */
  lemma DueExact(s: seq<Task>, now: int)
    requires Sorted(s) && AllOk(s)
    ensures forall i :: 0 <= i < |s| ==> (i < Due(s, now) <==> s[i].resume <= now || (i == 0 && s[0].resume - s[0].lat <= now))
    ensures Sorted(s[Due(s, now)..])
  {
    if s != [] {
      SortedPart(s, 1, |s|, s[1..]);
      DueNowExact(s[1..], now);
      forall i | 0 < i < |s|
        ensures i < Due(s, now) <==> s[i].resume <= now
      {
        assert s[i] == s[1..][i - 1];
        assert TaskOk(s[0]);
      }
    }
    SortedPart(s, Due(s, now), |s|, s[Due(s, now)..]);
  }

  /** The ready list after the woken tasks joined it one by one; held ones do not. */
  function Joined(ready: seq<Task>, woken: seq<Task>): seq<Task> {
    if woken == [] then ready
    else
      var before := Joined(ready, woken[..|woken| - 1]);
      var t := woken[|woken| - 1];
      if t.held then before else Enqueued(before, t)
  }

  /** Among tasks of one rank, those that were ready stay in front, and the woken ones follow in the order in which they
      wake. */
  lemma {:induction false} JoinedLike(ready: seq<Task>, woken: seq<Task>, u: Task)
    requires Ranked(ready)
    ensures Like(Joined(ready, woken), u) == Like(ready, u) + Like(Unheld(woken), u)
  {
    if woken != [] {
      var rest, t := woken[..|woken| - 1], woken[|woken| - 1];
      JoinedLike(ready, rest, u);
      JoinedRanked(ready, rest);
      if !t.held {
        EnqueuedLike(Joined(ready, rest), t, u);
        LikeConcat(Unheld(rest), [t], u);
        ConcatThree(Like(ready, u), Like(Unheld(rest), u), Like([t], u));
      } else {
        assert Unheld(woken) == Unheld(rest);
      }
    }
  }

  lemma JoinedNext(ready: seq<Task>, s: seq<Task>, k: nat)
    requires k < |s|
    ensures Joined(ready, s[..k + 1]) == if s[k].held then Joined(ready, s[..k]) else Enqueued(Joined(ready, s[..k]), s[k])
  {
    assert s[..k + 1][..k] == s[..k];
  }

  /** The first `k` tasks of the timed list are awake, and as many more will be as are due. */
  ghost predicate Woken(r: seq<Task>, s: seq<Task>, now: int, k: nat, ready: seq<Task>) {
    && k <= |s| && s != [] && s[0].resume - s[0].lat <= now
    && ready == Joined(r, s[..k]) && Due(s, now) == if k == 0 then 1 + DueNow(s[1..], now) else k + DueNow(s[k..], now)
  }

  lemma WokenNext(r: seq<Task>, s: seq<Task>, now: int, k: nat, ready: seq<Task>)
    requires Woken(r, s, now, k, ready) && k < |s| && (k > 0 ==> s[k].resume <= now)
    ensures Woken(r, s, now, k + 1, if s[k].held then ready else Enqueued(ready, s[k]))
  {
    JoinedNext(r, s, k);
    DueNext(s, k, now);
  }

  lemma WokenAll(r: seq<Task>, s: seq<Task>, now: int, k: nat, ready: seq<Task>)
    requires Woken(r, s, now, k, ready) && k > 0 && (k < |s| ==> s[k].resume > now)
    ensures Due(s, now) == k
  {
  }

  lemma TailOk(s: seq<Task>, k: nat)
    requires AllOk(s) && k <= |s|
    ensures AllOk(s[k..])
  {
  }

  lemma TailOfTail(s: seq<Task>, k: nat)
    requires k < |s|
    ensures s[k..] != [] && s[k..][1..] == s[k + 1..]
  {
  }

  lemma DueNext(s: seq<Task>, k: nat, now: int)
    requires k < |s|
    ensures k > 0 && s[k].resume <= now ==> DueNow(s[k..], now) == 1 + DueNow(s[k + 1..], now)
    ensures k == 0 && s[0].resume - s[0].lat <= now ==> Due(s, now) == 1 + DueNow(s[1..], now)
  {
    assert s[k..][1..] == s[k + 1..];
  }

  function Unheld(s: seq<Task>): seq<Task> {
    if s == [] then [] else Unheld(s[..|s| - 1]) + if s[|s| - 1].held then [] else [s[|s| - 1]]
  }

  lemma {:induction false} JoinedRanked(ready: seq<Task>, woken: seq<Task>)
    requires Ranked(ready)
    ensures Ranked(Joined(ready, woken))
    ensures multiset(Joined(ready, woken)) == multiset(ready) + multiset(Unheld(woken))
  {
    if woken != [] {
      var rest := woken[..|woken| - 1];
      JoinedRanked(ready, rest);
      EnqueuedRanked(Joined(ready, rest), woken[|woken| - 1]);
    }
  }

  // --- The next timer shot

  /** The first task, in time order, that resumes before `intr` and is at least as urgent as `prio`. */
  function FirstUrgent(s: seq<Task>, intr: int, prio: int): (k: nat)
    ensures k <= |s|
    ensures k < |s| ==> s[k].resume < intr && s[k].prio <= prio
    ensures forall i :: 0 <= i < k ==> !(s[i].resume < intr && s[i].prio <= prio)
  {
    if s == [] then 0 else if s[0].resume < intr && s[0].prio <= prio then 0 else 1 + FirstUrgent(s[1..], intr, prio)
  }

  /** The shot it calls for is late for no task at least as urgent as the one chosen to run. */
  lemma ShotInTime(s: seq<Task>, intr: int, prio: int, i: nat)
    requires Sorted(s) && AllOk(s) && i < |s| && s[i].prio <= prio
    ensures var k := FirstUrgent(s, intr, prio);
            var shot := if k < |s| then s[k].resume - s[k].lat else intr;
            shot <= s[i].resume && shot <= intr
  {
    var k := FirstUrgent(s, intr, prio);
    if k < |s| {
      assert TaskOk(s[k]);
    }
  }

  ghost predicate ShotAt(s: seq<Task>, intr: int, prio: int, k: nat) {
    && k < |s| && s[k].resume < intr && s[k].prio <= prio
    && forall i :: 0 <= i < k ==> !(s[i].resume < intr && s[i].prio <= prio)
  }

  /** The shot is for the first task that resumes before `intr` and is urgent enough, or at `intr` when there is none. */
  ghost predicate ShotFor(s: seq<Task>, intr: int, prio: int, shot: int) {
    if forall i :: 0 <= i < |s| ==> !(s[i].resume < intr && s[i].prio <= prio) then shot == intr
    else exists k: nat :: ShotAt(s, intr, prio, k) && shot == s[k].resume - s[k].lat
  }

  /** The search has come down to the part of the list that the subtree holds; the place of `t` is in it. */
  ghost predicate Narrowed(s: seq<Task>, t: Task, lo: nat, next: nat, sub: Tree) {
    && lo <= next <= |s| && s[lo..next] == InOrder(sub)
    && (forall k :: 0 <= k < lo ==> s[k].resume < t.resume)
    && (next < |s| ==> t.resume <= s[next].resume)
  }

  lemma Narrow(s: seq<Task>, t: Task, lo: nat, next: nat, sub: Tree)
    requires Sorted(s) && Narrowed(s, t, lo, next, sub) && sub.Node?
    ensures var at := next - Size(sub.right) - 1;
            && lo <= at < next && s[at] == sub.v
            && if t.resume > sub.v.resume then Narrowed(s, t, at + 1, next, sub.right) else Narrowed(s, t, lo, at, sub.left)
  {
    var at := next - Size(sub.right) - 1;
    var part := s[lo..next];
    Halves(part, sub);
    assert s[at] == part[at - lo];
    assert s[at + 1..next] == part[at + 1 - lo..];
    assert s[lo..at] == part[..at - lo];
  }

  lemma WithoutAtSorted(s: seq<Task>, i: nat)
    requires i < |s| && Sorted(s) && AllOk(s)
    ensures Sorted(WithoutAt(s, i)) && AllOk(WithoutAt(s, i))
  {
    var r := WithoutAt(s, i);
    forall k | 0 <= k < |r|
      ensures TaskOk(r[k])
    {
      WithoutAtPlaces(s, i, k);
    }
    forall j, k | 0 <= j < k < |r|
      ensures r[j].resume <= r[k].resume
    {
      WithoutAtPlaces(s, i, j);
      WithoutAtPlaces(s, i, k);
    }
  }

  lemma LeafReached(s: seq<Task>, t: Task, lo: nat, next: nat, sub: Tree)
    requires Sorted(s) && AllOk(s) && TaskOk(t) && Narrowed(s, t, lo, next, sub) && sub.Leaf?
    ensures s[..next] + [t] + s[next..] == TimedIn(s, t)
    ensures Sorted(TimedIn(s, t)) && AllOk(TimedIn(s, t)) && InTime(s, t, TimedIn(s, t))
  {
    TimedRankIs(s, t, next);
    TimedInSorted(s, t);
    forall k | 0 <= k <= |s|
      ensures TaskOk(TimedIn(s, t)[k])
    {
      InsertAtPlaces(s, next, t, k);
    }
  }

  /** Where the scan over deadlines stops is the place of the task. */
  lemma EdfPlace(s: seq<Task>, t: Task, i: nat)
    requires AllOk(s) && Ranked(s) && TaskOk(t) && t.edf && i <= |s| && (forall k :: 0 <= k < i ==> NotAfter(s[k], t))
    requires i < |s| ==> !(s[i].edf && t.period >= s[i].period)
    ensures s[..i] + [t] + s[i..] == Enqueued(s, t) && InTurn(s, t, Enqueued(s, t))
    ensures AllOk(Enqueued(s, t)) && Ranked(Enqueued(s, t))
  {
    RankFirst(s, t, i);
    EnqueuedRanked(s, t);
    EnqueuedInTurn(s, t);
    forall k | 0 <= k <= |s|
      ensures TaskOk(Enqueued(s, t)[k])
    {
      InsertAtPlaces(s, i, t, k);
    }
  }

  class Cpu {
    var ready: seq<Task>   // in front of the Linux task, which closes the list
    var timed: seq<Task>   // likewise
    var tree: Tree         // the timed list as a search tree, when configured
    var intrTime: int

    ghost predicate Valid()
      reads this
    {
      AllOk(ready) && AllOk(timed) && Ranked(ready) && Sorted(timed)
    }

    /** The tree, where it is configured, holds the timed list. */
    ghost predicate TreeOk()
      reads this
    {
      InOrder(tree) == timed
    }

    constructor ()
      ensures Valid() && TreeOk() && ready == [] && timed == [] && tree == Leaf
    {
      ready, timed, tree, intrTime := [], [], Leaf, TIME_LIMIT;
    }

    /** The priority at a place of the ready list; the list is closed by the Linux task. */
    function PrioAt(i: nat): int
      requires i <= |ready|
      reads this
    {
      if i < |ready| then ready[i].prio else LINUX_PRIORITY
    }

    /** Goes by priority alone, also for a deadline task. */
    method EnqReadyTask(t: Task)
      requires Valid() && TaskOk(t)
      modifies this`ready
      ensures ready == InsertAt(old(ready), PrioRank(old(ready), t.prio), t) && AllOk(ready)
      ensures exists i: nat :: ByPrioAt(old(ready), t, ready, i)
      ensures !t.edf ==> Valid() && ready == Enqueued(old(ready), t) && InTurn(old(ready), t, ready)
    {
      var i := 0;
      while t.prio >= PrioAt(i)
        invariant i <= |ready| && forall k :: 0 <= k < i ==> ready[k].prio <= t.prio
        decreases |ready| - i
      {
        i := i + 1;
        if PrioAt(i) < 0 { break; }
      }
      PrioRankIs(ready, t.prio, i);
      EnqueuedByPriority(ready, t);
      EnqueuedInTurn(ready, t);
      assert ByPrioAt(ready, t, InsertAt(ready, i, t), i);
      ready := InsertAt(ready, i, t);
    }

    method EnqReadyEdfTask(t: Task)
      requires Valid() && TaskOk(t) && t.edf
      modifies this`ready
      ensures Valid() && ready == Enqueued(old(ready), t) && InTurn(old(ready), t, ready)
    {
      var i := 0;
      while i < |ready| && ready[i].edf && t.period >= ready[i].period
        invariant i <= |ready| && forall k :: 0 <= k < i ==> NotAfter(ready[k], t)
      {
        i := i + 1;
      }
      EdfPlace(ready, t, i);
      ready := ready[..i] + [t] + ready[i..];
    }

    /** Gives the task in place `i` another priority, and the place that goes with it. */
    method RenqReadyTask(i: nat, prio: int) returns (changed: bool)
      requires Valid() && i < |ready| && !ready[i].edf && 0 <= prio < LINUX_PRIORITY
      modifies this`ready
      ensures Valid() && changed == (old(ready)[i].prio != prio)
      ensures ready == if changed then Enqueued(old(ready)[..i] + old(ready)[i + 1..], old(ready)[i].(prio := prio)) else old(ready)
    {
      var t := ready[i];
      changed := t.prio != prio;
      if changed {
        ready := ready[..i] + ready[i + 1..];
        EnqReadyTask(t.(prio := prio));
      }
    }

    /** The running task goes behind the tasks of its priority. */
    method RtTaskYield()
      requires Valid() && ready != []
      modifies this`ready
      ensures ready == Yielded(old(ready)) && AllOk(ready) && (!old(ready)[0].edf ==> Valid())
      ensures BehindEquals(old(ready), ready)
    {
      var t := ready[0];
      var k := 1;
      while t.prio == PrioAt(k)
        invariant 1 <= k <= |ready| && forall i :: 0 <= i < k ==> ready[i].prio == t.prio
        decreases |ready| - k
      {
        assert TaskOk(ready[0]);
        k := k + 1;
      }
      EqualsIs(ready, t.prio, k);
      YieldRankedIff(ready);
      YieldedOk(ready);
      YieldedBehindEquals(ready);
      if k == 1 {
        YieldAlone(ready);
      } else {
        ready := ready[1..k] + [t] + ready[k..];
      }
    }

    method EnqTimedTask(t: Task)
      requires Valid() && TaskOk(t)
      modifies this`timed
      ensures Valid() && timed == TimedIn(old(timed), t) && InTime(old(timed), t, timed)
    {
      var i := 0;
      while i < |timed| && t.resume > timed[i].resume
        invariant i <= |timed| && forall k :: 0 <= k < i ==> timed[k].resume < t.resume
      {
        i := i + 1;
      }
      TimedRankIs(timed, t, i);
      TimedInSorted(timed, t);
      timed := timed[..i] + [t] + timed[i..];
    }

    /** The same by descending the tree: `next` is the last task passed on the left, which will follow `t`. */
    method EnqTimedTaskTree(t: Task)
      requires Valid() && TaskOk(t) && TreeOk()
      modifies this`timed, this`tree
      ensures Valid() && timed == TimedIn(old(timed), t) && InTime(old(timed), t, timed) && TreeOk()
    {
      var sub := tree;
      var next: nat := |timed|;
      ghost var lo: nat := 0;
      ghost var s := timed;
      assert s[0..next] == s;
      while sub.Node?
        invariant Narrowed(s, t, lo, next, sub)
        decreases sub
        modifies {}
      {
        Narrow(s, t, lo, next, sub);
        var at: nat := next - Size(sub.right) - 1;
        if t.resume > sub.v.resume {
          lo := at + 1;
          sub := sub.right;
        } else {
          next := at;
          sub := sub.left;
        }
      }
      LeafReached(s, t, lo, next, sub);
      LinkedInOrder(tree, t);
      timed := timed[..next] + [t] + timed[next..];
      tree := Linked(tree, t);
    }

    /** Takes the task in place `i` off the timed list and out of the tree. */
    method RemTimedTask(i: nat)
      requires Valid() && i < |timed|
      modifies this`timed, this`tree
      ensures Valid() && timed == WithoutAt(old(timed), i)
      ensures old(TreeOk()) ==> TreeOk()
    {
      WithoutAtSorted(timed, i);
      RbEraseTask(i);
      timed := timed[..i] + timed[i + 1..];
    }

    /** Erases the task in place `i` from the tree, where there is one. */
    method RbEraseTask(i: nat)
      modifies this`tree
      ensures i < |old(InOrder(tree))| ==> InOrder(tree) == WithoutAt(old(InOrder(tree)), i)
    {
      if i < Size(tree) {
        ErasedInOrder(tree, i);
        tree := Erased(tree, i);
      }
    }

    /** A woken task joins the ready list unless something else holds it. */
    method EnqWoken(t: Task)
      requires Valid() && TaskOk(t)
      modifies this`ready
      ensures Valid() && ready == if t.held then old(ready) else Enqueued(old(ready), t)
    {
      if !t.held {
        if t.edf { EnqReadyEdfTask(t); } else { EnqReadyTask(t); }
      }
    }

    /** The first task of the tree wakes up. */
    method WakeOne(t: Task)
      requires Valid() && TaskOk(t)
      modifies this`ready, this`tree
      ensures Valid() && ready == if t.held then old(ready) else Enqueued(old(ready), t)
      ensures old(InOrder(tree)) != [] ==> InOrder(tree) == old(InOrder(tree))[1..]
    {
      EnqWoken(t);
      RbEraseTask(0);
    }

    method WakeNext(ghost r: seq<Task>, ghost s: seq<Task>, ghost now: int, k: nat, ghost inTree: bool)
      requires Valid() && timed == s && k < |s| && Woken(r, s, now, k, ready) && (k > 0 ==> s[k].resume <= now)
      requires inTree ==> InOrder(tree) == s[k..]
      modifies this`ready, this`tree
      ensures Valid() && Woken(r, s, now, k + 1, ready)
      ensures inTree ==> InOrder(tree) == s[k + 1..]
    {
      assert TaskOk(s[k]);
      WokenNext(r, s, now, k, ready);
      TailOfTail(s, k);
      WakeOne(timed[k]);
    }

    /** The loop: wakes up the tasks that are due, and counts them. */
    method WakeDue(now: int) returns (k: nat)
      requires Valid() && timed != [] && timed[0].resume - timed[0].lat <= now
      modifies this`ready, this`tree
      ensures Valid() && k == Due(timed, now) && ready == Joined(old(ready), timed[..k])
      ensures old(TreeOk()) ==> InOrder(tree) == timed[k..]
    {
      ghost var s, r, inTree := timed, ready, InOrder(tree) == timed;
      assert s[0..] == s;
      k := 0;
      while k == 0 || (k < |timed| && timed[k].resume <= now)
        invariant Valid() && Woken(r, s, now, k, ready)
        invariant inTree ==> InOrder(tree) == s[k..]
        decreases |s| - k
        modifies this`ready, this`tree
      {
        WakeNext(r, s, now, k, inTree);
        k := k + 1;
      }
      WokenAll(r, s, now, k, ready);
    }

    method WakeUpTimedTasks(now: int)
      requires Valid()
      modifies this`timed, this`ready, this`tree
      ensures Valid()
      ensures var k := Due(old(timed), now);
              timed == old(timed)[k..] && ready == Joined(old(ready), old(timed)[..k])
      ensures old(TreeOk()) ==> TreeOk()
    {
      DueExact(timed, now);
      if timed == [] || timed[0].resume - timed[0].lat > now {
        assert timed[..0] == [];
        return;
      }
      TailOk(timed, Due(timed, now));
      var k := WakeDue(now);
      timed := timed[k..];
    }

    /** Sets the time of the next interrupt for the task chosen to run. */
    method SetNextTimerShot(prio: int, roundRobin: bool, yieldTime: int) returns (fire: bool)
      requires Valid()
      modifies this`intrTime
      ensures var intr := if roundRobin && yieldTime < old(intrTime) then yieldTime else old(intrTime);
              var k := FirstUrgent(timed, intr, prio);
              && intrTime == (if k < |timed| then timed[k].resume - timed[k].lat else intr)
              && fire == (k < |timed| || intr < old(intrTime))
      ensures var intr := if roundRobin && yieldTime < old(intrTime) then yieldTime else old(intrTime);
              ShotFor(timed, intr, prio, intrTime)
    {
      fire := false;
      if roundRobin && yieldTime < intrTime {
        intrTime := yieldTime;
        fire := true;
      }
      var i := 0;
      ghost var intr := intrTime;
      while i < |timed| && timed[i].resume < intrTime
        invariant i <= |timed| && intrTime == intr
        invariant forall j :: 0 <= j < i ==> timed[j].prio > prio
      {
        if timed[i].prio <= prio {
          FirstUrgentIs(timed, intr, prio, i);
          intrTime := timed[i].resume - timed[i].lat;
          assert ShotAt(timed, intr, prio, i);
          return true;
        }
        i := i + 1;
      }
      FirstUrgentNone(timed, intr, prio, i);
    }
  }

  lemma FirstUrgentIs(s: seq<Task>, intr: int, prio: int, i: nat)
    requires i < |s| && s[i].resume < intr && s[i].prio <= prio && forall j :: 0 <= j < i ==> s[j].prio > prio
    ensures FirstUrgent(s, intr, prio) == i
  {
  }

  lemma FirstUrgentNone(s: seq<Task>, intr: int, prio: int, i: nat)
    requires i <= |s| && Sorted(s) && (i < |s| ==> s[i].resume >= intr) && forall j :: 0 <= j < i ==> s[j].prio > prio
    ensures FirstUrgent(s, intr, prio) == |s|
  {
  }

  lemma Halves(s: seq<Task>, r: Tree)
    requires r.Node? && s == InOrder(r)
    ensures var m := |s| - Size(r.right) - 1;
            m >= 0 && s[..m] == InOrder(r.left) && s[m] == r.v && s[m + 1..] == InOrder(r.right)
  {
  }
}
