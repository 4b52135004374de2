/** Rate monotonic priorities: the search for the shortest period, over and over, with a negative priority as mark. */
module Rms {

  import Sched

  datatype Task = Task(prio: int, base: int, policy: int, period: int)

  /** Tasks that take part: neither by deadline nor without a period. */
  predicate Eligible(t: Task) {
    t.policy >= 0 && t.period != 0 && t.period < Sched.TIME_LIMIT
  }

  /** `i` comes before `j`: by period, and in list order among equal periods. */
  predicate Before(s: seq<Task>, i: nat, j: nat)
    requires i < |s| && j < |s|
  {
    s[i].period < s[j].period || (s[i].period == s[j].period && i < j)
  }

  function Ahead(s: seq<Task>, j: nat): set<nat>
    requires j < |s|
  {
    set i | 0 <= i < |s| && Eligible(s[i]) && Before(s, i, j)
  }

  /** The priority that task `j` deserves: how many tasks come before it. */
  function Place(s: seq<Task>, j: nat): nat
    requires j < |s|
  {
    |Ahead(s, j)|
  }

  lemma SubsetSize(a: set<nat>, b: set<nat>)
    requires a <= b
    ensures |a| <= |b| && (|a| == |b| ==> a == b)
  {
    assert b == a + (b - a) && |b| == |a| + |b - a|;
    assert |b - a| == 0 ==> b - a == {};
  }

  /** Places are distinct and ordered as the periods are: the shorter the period, the more urgent. */
  lemma PlacesFollowPeriods(s: seq<Task>, i: nat, j: nat)
    requires i < |s| && j < |s| && Eligible(s[i]) && Eligible(s[j]) && i != j
    ensures Place(s, i) < Place(s, j) <==> Before(s, i, j)
    ensures Place(s, i) != Place(s, j)
  {
    if Before(s, i, j) { PlaceGrows(s, i, j); } else { PlaceGrows(s, j, i); }
  }

  lemma PlaceGrows(s: seq<Task>, i: nat, j: nat)
    requires i < |s| && j < |s| && Eligible(s[i]) && Before(s, i, j)
    ensures Place(s, i) < Place(s, j)
  {
    assert i in Ahead(s, j) && i !in Ahead(s, i);
    SubsetSize(Ahead(s, i), Ahead(s, j));
  }

  /** What the assignment makes of task `j`. */
  function Ranked(s: seq<Task>, j: nat): Task
    requires j < |s|
  {
    if Eligible(s[j]) then s[j].(prio := Place(s, j), base := Place(s, j)) else s[j]
  }

  /** Tasks in `done` carry the mark and their place; all others are as they were and come later. */
  ghost predicate Marked(s: seq<Task>, now: seq<Task>, done: set<nat>) {
    && |now| == |s|
    && (forall i :: i in done ==> i < |s| && Eligible(s[i]) && now[i] == s[i].(prio := -1, base := Place(s, i)))
    && (forall i :: 0 <= i < |s| && i !in done ==> now[i] == s[i])
    && (forall i, j :: i in done && 0 <= j < |s| && j !in done && Eligible(s[j]) ==> Before(s, i, j))
  }

  lemma NextPlace(s: seq<Task>, now: seq<Task>, done: set<nat>, h: nat)
    requires Marked(s, now, done) && h < |s| && h !in done && Eligible(s[h])
    requires forall j :: 0 <= j < |s| && j !in done && j != h && Eligible(s[j]) ==> Before(s, h, j)
    ensures Ahead(s, h) == done
  {
  }

  /** The next task gets as many ahead of it as are marked, and is marked. */
  lemma MarkNext(s: seq<Task>, now: seq<Task>, done: set<nat>, h: nat, next: seq<Task>)
    requires Marked(s, now, done) && h < |s| && h !in done && Eligible(s[h])
    requires forall j :: 0 <= j < |s| && j !in done && j != h && Eligible(s[j]) ==> Before(s, h, j)
    requires next == now[h := now[h].(prio := -1, base := |done|)]
    ensures Marked(s, next, done + {h})
  {
    NextPlace(s, now, done, h);
  }

  function Indices(n: nat): (r: set<nat>)
    ensures forall i :: i in r <==> 0 <= i < n
    ensures |r| == n
  {
    if n == 0 then {} else Indices(n - 1) + {n - 1}
  }

  /** The unmarked task of shortest period, the first of several. */
  method Shortest(a: array<Task>, ghost s: seq<Task>, ghost done: set<nat>) returns (found: bool, h: nat)
    requires Marked(s, a[..], done) && forall i :: 0 <= i < |s| ==> s[i].prio >= 0
    ensures !found ==> forall j :: 0 <= j < |s| && j !in done ==> !Eligible(s[j])
    ensures found ==> h < |s| && h !in done && Eligible(s[h])
    ensures found ==> forall j :: 0 <= j < |s| && j !in done && j != h && Eligible(s[j]) ==> Before(s, h, j)
  {
    found, h := false, 0;
    var period := Sched.TIME_LIMIT;
    var i := 0;
    while i < a.Length
      invariant i <= a.Length && period <= Sched.TIME_LIMIT
      invariant !found ==> period == Sched.TIME_LIMIT && forall j :: 0 <= j < i && j !in done ==> !Eligible(s[j])
      invariant found ==> h < i && h !in done && Eligible(s[h]) && period == s[h].period
      invariant found ==> forall j :: 0 <= j < i && j !in done && j != h && Eligible(s[j]) ==> Before(s, h, j)
    {
      assert a[i] == a[..][i];
      if a[i].prio >= 0 && a[i].policy >= 0 && a[i].period != 0 && a[i].period < period {
        found, h := true, i;
        period := a[i].period;
      }
      i := i + 1;
    }
  }

  lemma AllMarked(s: seq<Task>, now: seq<Task>, done: set<nat>)
    requires Marked(s, now, done) && |done| == |s|
    ensures forall j :: 0 <= j < |s| ==> j in done
  {
    SubsetSize(done, Indices(|s|));
  }

  /** Marks the eligible tasks one by one and notes their places. */
  method MarkAll(a: array<Task>, ghost s: seq<Task>) returns (ghost done: set<nat>)
    requires s == a[..] && forall i :: 0 <= i < |s| ==> s[i].prio >= 0
    modifies a
    ensures Marked(s, a[..], done) && forall j :: 0 <= j < |s| && j !in done ==> !Eligible(s[j])
  {
    done := {};
    var prio := 0;
    var n := 0;
    var more := true;
    while more && n < a.Length
      invariant n <= a.Length && Marked(s, a[..], done) && |done| == prio && (more ==> prio == n)
      invariant !more ==> forall j :: 0 <= j < |s| && j !in done ==> !Eligible(s[j])
      decreases a.Length - n, more
    {
      var found, h := Shortest(a, s, done);
      if found {
        ghost var now := a[..];
        a[h] := a[h].(prio := -1, base := prio);
        MarkNext(s, now, done, h, a[..]);
        done := done + {h};
        prio := prio + 1;
      } else {
        more := false;
      }
      n := n + 1;
    }
    if more { AllMarked(s, a[..], done); }
  }

  /** A task's place counts the tasks with a period, and no deadline, that have a shorter one or come first with the same. */
  lemma PlaceCounts(s: seq<Task>, j: nat)
    requires j < |s|
    ensures Place(s, j) == |set i | 0 <= i < |s| && s[i].policy >= 0 && 0 != s[i].period < Sched.TIME_LIMIT &&
                                    (s[i].period < s[j].period || (s[i].period == s[j].period && i < j))|
  {
    assert Ahead(s, j) == set i | 0 <= i < |s| && s[i].policy >= 0 && 0 != s[i].period < Sched.TIME_LIMIT &&
                                  (s[i].period < s[j].period || (s[i].period == s[j].period && i < j));
  }

  /** Gives every eligible task its place as priority and leaves the others alone. */
  method RtSpvRms(a: array<Task>)
    requires forall i :: 0 <= i < a.Length ==> a[i].prio >= 0
    modifies a
    ensures forall i :: 0 <= i < a.Length ==> a[i] == Ranked(old(a[..]), i)
    ensures forall i :: 0 <= i < a.Length ==>
              var x := old(a[..])[i];
              a[i] == if x.policy >= 0 && 0 != x.period < Sched.TIME_LIMIT
                      then x.(prio := Place(old(a[..]), i), base := Place(old(a[..]), i)) else x
  {
    ghost var s := a[..];
    ghost var done := MarkAll(a, s);
    Restore(a, s, done);
  }

  /** Turns the marks into priorities. */
  method Restore(a: array<Task>, ghost s: seq<Task>, ghost done: set<nat>)
    requires Marked(s, a[..], done) && forall i :: 0 <= i < |s| ==> s[i].prio >= 0
    requires forall j :: 0 <= j < |s| && j !in done ==> !Eligible(s[j])
    modifies a
    ensures forall i :: 0 <= i < a.Length ==> a[i] == Ranked(s, i)
  {
    ghost var now := a[..];
    var i := 0;
    while i < a.Length
      invariant i <= a.Length && forall j :: i <= j < a.Length ==> a[j] == now[j]
      invariant forall j :: 0 <= j < i ==> a[j] == Ranked(s, j)
    {
      if a[i].prio < 0 {
        a[i] := a[i].(prio := a[i].base);
      }
      i := i + 1;
    }
  }
}
