/** Priority inheritance: the walk along chains of blocked tasks that `pass_prio` and `rt_change_prio` perform.

    Smaller numbers are more urgent.  Tasks and resources are identified by numbers; each field of the task
    and resource structures is a map from those numbers. */
module PrioInherit {
  import opened Wrappers

  type Task = nat
  type Res = nat

  const LINUX_PRIORITY: int := 0x7fffffff

  /** `waiters[r]` is the wait queue of `r`, `ready` the ready list without its Linux head.  Only resources in
      `inherits` (resource semaphores and message queues) take part in inheritance. */
  datatype Sys = Sys(priority: map<Task, int>, ready: seq<Task>, waiters: map<Res, seq<Task>>,
                     blockedOn: map<Task, Res>, owner: map<Res, Task>, inherits: set<Res>)

  // ---------------------------------------------------------------------------------------------------
  // Ordered queues
  // ---------------------------------------------------------------------------------------------------

  ghost predicate NoDup(q: seq<Task>) {
    forall i, j :: 0 <= i < j < |q| ==> q[i] != q[j]
  }

  ghost predicate Known(q: seq<Task>, prio: map<Task, int>) {
    forall t :: t in q ==> t in prio
  }

  ghost predicate Sorted(q: seq<Task>, prio: map<Task, int>)
    requires Known(q, prio)
  {
    forall i, j :: 0 <= i < j < |q| ==> prio[q[i]] <= prio[q[j]]
  }

  /** How many tasks at the front are at least as urgent as `p`. */
  function Pos(q: seq<Task>, prio: map<Task, int>, p: int): (k: nat)
    requires Known(q, prio)
    ensures k <= |q| && (forall i :: 0 <= i < k ==> prio[q[i]] <= p) && (k < |q| ==> prio[q[k]] > p)
  {
    if q == [] || prio[q[0]] > p then 0 else 1 + Pos(q[1..], prio, p)
  }

  /** Behind the tasks that are at least as urgent. */
  function Insert(q: seq<Task>, prio: map<Task, int>, t: Task): seq<Task>
    requires Known(q, prio) && t in prio
  {
    var k := Pos(q, prio, prio[t]);
    q[..k] + [t] + q[k..]
  }

  function IndexOf(q: seq<Task>, t: Task): (i: nat)
    requires t in q
    ensures i < |q| && q[i] == t && t !in q[..i]
  {
    if q[0] == t then 0 else 1 + IndexOf(q[1..], t)
  }

  function Without(q: seq<Task>, t: Task): seq<Task>
    requires t in q
  {
    var i := IndexOf(q, t);
    q[..i] + q[i + 1..]
  }

  lemma WithoutMembers(q: seq<Task>, t: Task)
    requires t in q && NoDup(q)
    ensures NoDup(Without(q, t)) && t !in Without(q, t)
    ensures forall x :: x in Without(q, t) <==> x in q && x != t
  {
    var i := IndexOf(q, t);
    var r := Without(q, t);
    forall x
      ensures x in r <==> x in q && x != t
    {
      if x in q && x != t {
        var j :| 0 <= j < |q| && q[j] == x;
        assert r[if j < i then j else j - 1] == x;
      }
    }
  }

  lemma InsertMembers(q: seq<Task>, prio: map<Task, int>, t: Task)
    requires Known(q, prio) && t in prio && NoDup(q) && t !in q
    ensures NoDup(Insert(q, prio, t)) && forall x :: x in Insert(q, prio, t) <==> x in q || x == t
  {
    var k := Pos(q, prio, prio[t]);
    assert q == q[..k] + q[k..];
  }

  lemma InsertSorted(q: seq<Task>, prio: map<Task, int>, t: Task)
    requires Known(q, prio) && t in prio && Sorted(q, prio)
    ensures Known(Insert(q, prio, t), prio) && Sorted(Insert(q, prio, t), prio)
  {
    var k := Pos(q, prio, prio[t]);
    var r := Insert(q, prio, t);
    forall i, j | 0 <= i < j < |r|
      ensures prio[r[i]] <= prio[r[j]]
    {
      if k < j && k < |q| {
        assert prio[q[k]] <= prio[q[j - 1]];
      }
    }
  }

  lemma WithoutSorted(q: seq<Task>, prio: map<Task, int>, t: Task)
    requires Known(q, prio) && Sorted(q, prio) && t in q
    ensures Known(Without(q, t), prio) && Sorted(Without(q, t), prio)
  {
    var i := IndexOf(q, t);
    var r := Without(q, t);
    assert forall a :: 0 <= a < |r| ==> r[a] == q[if a < i then a else a + 1];
  }

  lemma SortedAlike(q: seq<Task>, prio: map<Task, int>, prio': map<Task, int>, t: Task)
    requires Known(q, prio) && Sorted(q, prio) && t !in q
    requires forall x :: x in prio && x != t ==> x in prio' && prio'[x] == prio[x]
    ensures Known(q, prio') && Sorted(q, prio')
  {
    assert forall i :: 0 <= i < |q| ==> q[i] in q && prio'[q[i]] == prio[q[i]];
  }

  /** Taking out the task whose priority changed leaves a sorted queue. */
  lemma OthersSorted(q: seq<Task>, prio: map<Task, int>, prio': map<Task, int>, t: Task)
    requires Known(q, prio) && Sorted(q, prio) && t in q && NoDup(q)
    requires forall x :: x in prio && x != t ==> x in prio' && prio'[x] == prio[x]
    ensures Known(Without(q, t), prio') && Sorted(Without(q, t), prio')
  {
    WithoutMembers(q, t);
    WithoutSorted(q, prio, t);
    SortedAlike(Without(q, t), prio, prio', t);
  }

  // ---------------------------------------------------------------------------------------------------
  // The system
  // ---------------------------------------------------------------------------------------------------

  ghost predicate WellFormed(s: Sys) {
    && (forall t :: t in s.priority ==> 0 <= s.priority[t] < LINUX_PRIORITY)
    && Known(s.ready, s.priority) && NoDup(s.ready)
    && (forall t :: t in s.ready ==> t !in s.blockedOn)
    && (forall t :: t in s.blockedOn ==> t in s.priority && s.blockedOn[t] in s.waiters && t in s.waiters[s.blockedOn[t]])
    && (forall r :: r in s.waiters ==> Known(s.waiters[r], s.priority) && NoDup(s.waiters[r]))
    && (forall r, t :: r in s.waiters && t in s.waiters[r] ==> t in s.blockedOn && s.blockedOn[t] == r)
    && (forall r :: r in s.owner ==> s.owner[r] in s.priority)
  }

  ghost predicate QueuesSorted(s: Sys)
    requires WellFormed(s)
  {
    forall r :: r in s.waiters && r in s.inherits ==> Sorted(s.waiters[r], s.priority)
  }

  /** The owner of a resource is at least as urgent as each task waiting for it, save that `to`, while it is
      still to receive priority `p`, answers only for waiters more urgent than `p`. */
  ghost predicate OwnersUrgent(s: Sys, to: Option<Task>, p: int)
    requires WellFormed(s)
  {
    forall r, w :: r in s.owner && r in s.inherits && r in s.waiters && w in s.waiters[r] ==>
      s.priority[s.owner[r]] <= s.priority[w] || (to == Some(s.owner[r]) && p <= s.priority[w])
  }

  /** Priority inheritance holds: resource queues are sorted and owners are at least as urgent as waiters. */
  ghost predicate Inheritance(s: Sys) {
    WellFormed(s) && QueuesSorted(s) && OwnersUrgent(s, None, 0)
  }

  predicate BlockedOnRes(s: Sys, t: Task) {
    t in s.blockedOn && s.blockedOn[t] in s.inherits
  }

  /** The queue after its member `t` took the priority recorded in `prio`; one already in front stays there. */
  function Requeue(q: seq<Task>, prio: map<Task, int>, t: Task): seq<Task>
    requires t in q && Known(q, prio) && NoDup(q)
  {
    WithoutMembers(q, t);
    if q[0] == t then q else Insert(Without(q, t), prio, t)
  }

  /** The ready list after its member `t` took the priority recorded in `prio`: it is moved only when one of its
      neighbours, of which the Linux head is one, shows that it has to be. */
  function Reready(q: seq<Task>, prio: map<Task, int>, t: Task): seq<Task>
    requires t in q && Known(q, prio) && NoDup(q)
  {
    WithoutMembers(q, t);
    if OutOfPlace(q, prio, IndexOf(q, t)) then Insert(Without(q, t), prio, t) else q
  }

  predicate OutOfPlace(q: seq<Task>, prio: map<Task, int>, i: nat)
    requires i < |q| && Known(q, prio)
  {
    (if i == 0 then LINUX_PRIORITY else prio[q[i - 1]]) > prio[q[i]] ||
    (if i + 1 == |q| then LINUX_PRIORITY else prio[q[i + 1]]) < prio[q[i]]
  }

  /** One round of the walk: task `t` takes priority `p` and is put where it now belongs. */
  function Boost(s: Sys, t: Task, p: int): Sys
    requires WellFormed(s) && t in s.priority
  {
    var prio := s.priority[t := p];
    if t in s.ready then s.(priority := prio, ready := Reready(s.ready, prio, t))
    else if BlockedOnRes(s, t) then
      var r := s.blockedOn[t];
      s.(priority := prio, waiters := s.waiters[r := Requeue(s.waiters[r], prio, t)])
    else s.(priority := prio)
  }

  /** Whom the walk visits after `t`: the owner of the resource that `t` heads the queue of, if anybody. */
  function Next(s: Sys, t: Task): (n: Option<Task>)
    requires WellFormed(s)
    ensures n.Some? ==> n.value in s.priority
  {
    if t in s.ready || !BlockedOnRes(s, t) || s.waiters[s.blockedOn[t]][0] != t || s.blockedOn[t] !in s.owner
    then None else Some(s.owner[s.blockedOn[t]])
  }

  function LessUrgent(prio: map<Task, int>, p: int): set<Task> {
    set t | t in prio && prio[t] > p
  }

  /** The whole walk from `to`.  It ends even on cyclic wait graphs, because every round takes one task out of
      those less urgent than `p`. */
  function Walk(s: Sys, to: Option<Task>, p: int): Sys
    requires WellFormed(s) && (to.Some? ==> to.value in s.priority) && 0 <= p < LINUX_PRIORITY
    decreases LessUrgent(s.priority, p)
  {
    if to.None? || s.priority[to.value] <= p then s
    else
      BoostWellFormed(s, to.value, p);
      var s' := Boost(s, to.value, p);
      LessLeft(s.priority, to.value, p);
      Walk(s', Next(s', to.value), p)
  }

  lemma RequeueMembers(q: seq<Task>, prio: map<Task, int>, t: Task)
    requires t in q && Known(q, prio) && NoDup(q)
    ensures NoDup(Requeue(q, prio, t)) && NoDup(Reready(q, prio, t))
    ensures forall x :: x in Requeue(q, prio, t) <==> x in q
    ensures forall x :: x in Reready(q, prio, t) <==> x in q
  {
    WithoutMembers(q, t);
    InsertMembers(Without(q, t), prio, t);
  }

  lemma BoostWellFormed(s: Sys, t: Task, p: int)
    requires WellFormed(s) && t in s.priority && 0 <= p < LINUX_PRIORITY
    ensures WellFormed(Boost(s, t, p)) && SameLinks(s, Boost(s, t, p))
    ensures Boost(s, t, p).priority == s.priority[t := p]
  {
    var prio := s.priority[t := p];
    if t in s.ready {
      RequeueMembers(s.ready, prio, t);
      ReplaceReady(s, t, p, Reready(s.ready, prio, t));
    } else if BlockedOnRes(s, t) {
      RequeueMembers(s.waiters[s.blockedOn[t]], prio, t);
      ReplaceQueue(s, t, p, Requeue(s.waiters[s.blockedOn[t]], prio, t));
    } else {
      NewPriority(s, t, p);
    }
  }

  lemma ReplaceReady(s: Sys, t: Task, p: int, q: seq<Task>)
    requires WellFormed(s) && t in s.ready && 0 <= p < LINUX_PRIORITY && NoDup(q) && forall x :: x in q <==> x in s.ready
    ensures var s' := s.(priority := s.priority[t := p], ready := q);
            WellFormed(s') && SameLinks(s, s')
  {
    NewPriority(s, t, p);
  }

  lemma NewPriority(s: Sys, t: Task, p: int)
    requires WellFormed(s) && t in s.priority && 0 <= p < LINUX_PRIORITY
    ensures WellFormed(s.(priority := s.priority[t := p])) && SameLinks(s, s.(priority := s.priority[t := p]))
  {
  }

  lemma NewQueue(s: Sys, r: Res, q: seq<Task>)
    requires WellFormed(s) && r in s.waiters && NoDup(q) && forall x :: x in q <==> x in s.waiters[r]
    ensures var s' := s.(waiters := s.waiters[r := q]);
            WellFormed(s') && SameLinks(s, s')
  {
    assert Known(s.waiters[r], s.priority);
  }

  lemma ReplaceQueue(s: Sys, t: Task, p: int, q: seq<Task>)
    requires WellFormed(s) && BlockedOnRes(s, t) && 0 <= p < LINUX_PRIORITY
    requires NoDup(q) && forall x :: x in q <==> x in s.waiters[s.blockedOn[t]]
    ensures var s' := s.(priority := s.priority[t := p], waiters := s.waiters[s.blockedOn[t] := q]);
            WellFormed(s') && SameLinks(s, s')
  {
    NewQueue(s, s.blockedOn[t], q);
    NewPriority(s.(waiters := s.waiters[s.blockedOn[t] := q]), t, p);
  }

  /** Changes of priorities and of the order inside queues, nothing else. */
  ghost predicate SameLinks(s: Sys, s': Sys) {
    && s'.blockedOn == s.blockedOn && s'.owner == s.owner && s'.inherits == s.inherits
    && s'.priority.Keys == s.priority.Keys && s'.waiters.Keys == s.waiters.Keys
    && (forall x :: x in s'.ready <==> x in s.ready)
    && (forall r, x :: r in s.waiters ==> (x in s'.waiters[r] <==> x in s.waiters[r]))
  }

  lemma LessLeft(prio: map<Task, int>, t: Task, p: int)
    requires t in prio && prio[t] > p
    ensures LessUrgent(prio[t := p], p) < LessUrgent(prio, p)
  {
    assert t in LessUrgent(prio, p) && t !in LessUrgent(prio[t := p], p);
  }

  /** The walk is its first round and the walk from there. */
  lemma WalkStep(s: Sys, t: Task, p: int, s': Sys, n: Option<Task>)
    requires WellFormed(s) && t in s.priority && 0 <= p < s.priority[t] && p < LINUX_PRIORITY
    requires s' == Boost(s, t, p) && WellFormed(s') && n == Next(s', t)
    ensures SameLinks(s, s') && s'.priority == s.priority[t := p]
    ensures LessUrgent(s'.priority, p) < LessUrgent(s.priority, p)
    ensures Walk(s, Some(t), p) == Walk(s', n, p)
  {
    BoostWellFormed(s, t, p);
    LessLeft(s.priority, t, p);
  }

  lemma SameLinksTransitive(a: Sys, b: Sys, c: Sys)
    requires SameLinks(a, b) && SameLinks(b, c)
    ensures SameLinks(a, c)
  {
  }

  // ---------------------------------------------------------------------------------------------------
  // What the walk keeps
  // ---------------------------------------------------------------------------------------------------

  lemma RequeueSorted(q: seq<Task>, prio: map<Task, int>, t: Task, p: int)
    requires Known(q, prio) && Sorted(q, prio) && NoDup(q) && t in q && p <= prio[t]
    ensures var prio' := prio[t := p];
            Known(Requeue(q, prio', t), prio') && Sorted(Requeue(q, prio', t), prio')
  {
    var prio' := prio[t := p];
    if q[0] != t {
      OthersSorted(q, prio, prio', t);
      InsertSorted(Without(q, t), prio', t);
    }
  }

  lemma BoostSorted(s: Sys, t: Task, p: int)
    requires WellFormed(s) && QueuesSorted(s) && t in s.priority && 0 <= p <= s.priority[t]
    ensures WellFormed(Boost(s, t, p)) && QueuesSorted(Boost(s, t, p))
  {
    BoostWellFormed(s, t, p);
    var s' := Boost(s, t, p);
    forall r | r in s'.waiters && r in s'.inherits
      ensures Sorted(s'.waiters[r], s'.priority)
    {
      if BlockedOnRes(s, t) && s.blockedOn[t] == r && t !in s.ready {
        RequeueSorted(s.waiters[r], s.priority, t, p);
      } else {
        assert Sorted(s.waiters[r], s.priority);
        assert t !in s.waiters[r];
      }
    }
  }

  /** A round hands the obligation on from `t` to the next task of the walk. */
  lemma BoostOwners(s: Sys, t: Task, p: int)
    requires WellFormed(s) && QueuesSorted(s) && t in s.priority && 0 <= p < s.priority[t]
    requires OwnersUrgent(s, Some(t), p)
    ensures WellFormed(Boost(s, t, p))
    ensures OwnersUrgent(Boost(s, t, p), Next(Boost(s, t, p), t), p)
  {
    BoostSorted(s, t, p);
    BoostWellFormed(s, t, p);
    var s' := Boost(s, t, p);
    var n := Next(s', t);
    forall r, w | r in s'.owner && r in s'.inherits && r in s'.waiters && w in s'.waiters[r]
      ensures s'.priority[s'.owner[r]] <= s'.priority[w] || (n == Some(s'.owner[r]) && p <= s'.priority[w])
    {
      var o := s.owner[r];
      assert w in s.waiters[r];
      assert s.priority[o] <= s.priority[w] || (o == t && p <= s.priority[w]);
      if w == t && o != t && n == None {
        NotInFront(s, s', t, p, r);
      }
    }
  }

  /** When `t` does not reach the front, whoever is there answers for the owner. */
  lemma NotInFront(s: Sys, s': Sys, t: Task, p: int, r: Res)
    requires WellFormed(s) && QueuesSorted(s) && t in s.priority && 0 <= p < s.priority[t] && OwnersUrgent(s, Some(t), p)
    requires WellFormed(s') && QueuesSorted(s') && SameLinks(s, s') && s'.priority == s.priority[t := p]
    requires r in s.owner && r in s.inherits && r in s.waiters && t in s.waiters[r] && s.owner[r] != t
    requires Next(s', t) == None
    ensures s.priority[s.owner[r]] <= p
  {
    var q := s'.waiters[r];
    assert t in s'.waiters[r] && s'.blockedOn[t] == r;
    FrontIsUrgent(q, s'.priority, t);
    assert q[0] in s.waiters[r];
    assert s.priority[s.owner[r]] <= s.priority[q[0]];
  }

  lemma FrontIsUrgent(q: seq<Task>, prio: map<Task, int>, t: Task)
    requires Known(q, prio) && Sorted(q, prio) && t in q
    ensures q[0] in q && prio[q[0]] <= prio[t]
  {
    assert q[IndexOf(q, t)] == t;
  }

  /** Inheritance survives the walk, which leaves `to` at least as urgent as `p`, although it stops as soon as a
      task does not reach the front of its queue. */
  lemma {:induction false} WalkKeepsInheritance(s: Sys, to: Option<Task>, p: int)
    requires WellFormed(s) && QueuesSorted(s) && OwnersUrgent(s, to, p)
    requires (to.Some? ==> to.value in s.priority) && 0 <= p < LINUX_PRIORITY
    ensures Inheritance(Walk(s, to, p))
    ensures to.Some? ==> to.value in Walk(s, to, p).priority && Walk(s, to, p).priority[to.value] <= p
    decreases LessUrgent(s.priority, p)
  {
    if to.Some? && s.priority[to.value] > p {
      var t := to.value;
      var s' := Boost(s, t, p);
      BoostSorted(s, t, p);
      BoostOwners(s, t, p);
      WalkStep(s, t, p, s', Next(s', t));
      WalkKeepsInheritance(s', Next(s', t), p);
      WalkOnlyRaises(s', Next(s', t), p);
    }
  }

  lemma {:induction false} WalkOnlyRaises(s: Sys, to: Option<Task>, p: int)
    requires WellFormed(s) && (to.Some? ==> to.value in s.priority) && 0 <= p < LINUX_PRIORITY
    ensures WellFormed(Walk(s, to, p)) && SameLinks(s, Walk(s, to, p))
    ensures forall t :: t in s.priority ==>
              Walk(s, to, p).priority[t] == s.priority[t] || Walk(s, to, p).priority[t] == p < s.priority[t]
    decreases LessUrgent(s.priority, p)
  {
    if to.Some? && s.priority[to.value] > p {
      BoostWellFormed(s, to.value, p);
      var s' := Boost(s, to.value, p);
      var n := Next(s', to.value);
      WalkStep(s, to.value, p, s', n);
      WalkOnlyRaises(s', n, p);
      SameLinksTransitive(s, s', Walk(s', n, p));
    }
  }

  // ---------------------------------------------------------------------------------------------------
  // Blocking on a resource
  // ---------------------------------------------------------------------------------------------------

  /** Task `t` leaves the ready list and joins the queue of `r`, behind the waiters that are at least as urgent. */
  function Block(s: Sys, t: Task, r: Res): Sys
    requires WellFormed(s) && t in s.priority && r in s.waiters
  {
    Queued(s.(ready := if t in s.ready then Without(s.ready, t) else s.ready), t, r, Insert(s.waiters[r], s.priority, t))
  }

  function Queued(s: Sys, t: Task, r: Res, q: seq<Task>): Sys {
    s.(blockedOn := s.blockedOn[t := r], waiters := s.waiters[r := q])
  }

  function OwnerOf(s: Sys, r: Res): Option<Task> {
    if r in s.owner then Some(s.owner[r]) else None
  }

  lemma LeavesReady(s: Sys, t: Task)
    requires WellFormed(s) && t in s.ready
    ensures WellFormed(s.(ready := Without(s.ready, t))) && t !in Without(s.ready, t)
  {
    WithoutMembers(s.ready, t);
  }

  lemma JoinsQueue(s: Sys, t: Task, r: Res, q: seq<Task>)
    requires WellFormed(s) && t in s.priority && t !in s.blockedOn && t !in s.ready && r in s.waiters
    requires NoDup(q) && forall x :: x in q <==> x in s.waiters[r] || x == t
    ensures WellFormed(Queued(s, t, r, q))
  {
    assert Known(s.waiters[r], s.priority);
    assert Known(q, s.priority);
  }

  lemma BlockWellFormed(s: Sys, t: Task, r: Res)
    requires WellFormed(s) && t in s.priority && t !in s.blockedOn && r in s.waiters
    ensures WellFormed(Block(s, t, r))
    ensures forall x :: x in Block(s, t, r).waiters[r] <==> x in s.waiters[r] || x == t
  {
    assert Known(s.waiters[r], s.priority) && t !in s.waiters[r];
    var q := Insert(s.waiters[r], s.priority, t);
    InsertMembers(s.waiters[r], s.priority, t);
    if t in s.ready {
      LeavesReady(s, t);
      JoinsQueue(s.(ready := Without(s.ready, t)), t, r, q);
    } else {
      JoinsQueue(s, t, r, q);
    }
  }

  lemma BlockSorted(s: Sys, t: Task, r: Res)
    requires WellFormed(s) && QueuesSorted(s) && t in s.priority && t !in s.blockedOn && r in s.waiters
    ensures WellFormed(Block(s, t, r)) && QueuesSorted(Block(s, t, r))
  {
    BlockWellFormed(s, t, r);
    if r in s.inherits { InsertSorted(s.waiters[r], s.priority, t); }
  }

  /** Sending to a busy task: the sender is queued first and then passes its priority to the receiver. */
  lemma BlockThenPass(s: Sys, t: Task, r: Res)
    requires Inheritance(s) && t in s.priority && t !in s.blockedOn && r in s.waiters
    ensures WellFormed(Block(s, t, r)) && Inheritance(Walk(Block(s, t, r), OwnerOf(s, r), s.priority[t]))
  {
    BlockSorted(s, t, r);
    BlockWellFormed(s, t, r);
    WalkKeepsInheritance(Block(s, t, r), OwnerOf(s, r), s.priority[t]);
  }

  lemma BlockKeeps(s: Sys, t: Task, r: Res)
    requires Inheritance(s) && t in s.priority && t !in s.blockedOn && r in s.waiters
    requires r in s.owner ==> s.priority[s.owner[r]] <= s.priority[t]
    ensures Inheritance(Block(s, t, r))
  {
    BlockSorted(s, t, r);
    BlockWellFormed(s, t, r);
  }

  /** Waiting for a resource semaphore: its owner inherits first, then the task is queued. */
  lemma PassThenBlock(s: Sys, t: Task, r: Res)
    requires Inheritance(s) && t in s.priority && t !in s.blockedOn && r in s.waiters
    ensures var s' := Walk(s, OwnerOf(s, r), s.priority[t]);
            && WellFormed(s') && t in s'.priority && r in s'.waiters && s'.priority[t] == s.priority[t]
            && Inheritance(Block(s', t, r))
  {
    var to, p := OwnerOf(s, r), s.priority[t];
    var s' := Walk(s, to, p);
    WalkKeepsInheritance(s, to, p);
    WalkOnlyRaises(s, to, p);
    BlockKeeps(s', t, r);
  }

  // ---------------------------------------------------------------------------------------------------
  // Exactly who is boosted
  // ---------------------------------------------------------------------------------------------------

  /** The `n`-th task on the blocking chain from `t`: each is the owner of what the one before waits for. */
  function Nth(s: Sys, t: Task, n: nat): Option<Task>
    decreases n
  {
    if n == 0 then Some(t)
    else if !BlockedOnRes(s, t) || s.blockedOn[t] !in s.owner then None
    else Nth(s, s.owner[s.blockedOn[t]], n - 1)
  }

  ghost predicate OnChain(s: Sys, t: Task, x: Task) {
    exists n: nat :: Nth(s, t, n) == Some(x)
  }

  lemma {:induction false} SameChain(s: Sys, s': Sys, t: Task, n: nat)
    requires SameLinks(s, s')
    ensures Nth(s', t, n) == Nth(s, t, n)
    decreases n
  {
    if n > 0 && BlockedOnRes(s, t) && s.blockedOn[t] in s.owner {
      SameChain(s, s', s.owner[s.blockedOn[t]], n - 1);
    }
  }

  /** Under inheritance, nobody further along a chain is less urgent. */
  lemma {:induction false} ChainUrgent(s: Sys, t: Task, n: nat)
    requires Inheritance(s) && t in s.priority && Nth(s, t, n).Some?
    ensures Nth(s, t, n).value in s.priority && s.priority[Nth(s, t, n).value] <= s.priority[t]
    decreases n
  {
    if n > 0 {
      ChainUrgent(s, s.owner[s.blockedOn[t]], n - 1);
    }
  }

  lemma OnChainStep(s: Sys, t: Task, x: Task)
    ensures OnChain(s, t, x) <==>
            x == t || (BlockedOnRes(s, t) && s.blockedOn[t] in s.owner && OnChain(s, s.owner[s.blockedOn[t]], x))
  {
    if OnChain(s, t, x) {
      var n: nat :| Nth(s, t, n) == Some(x);
      if n > 0 {
        assert Nth(s, s.owner[s.blockedOn[t]], n - 1) == Some(x);
      }
    }
    assert Nth(s, t, 0) == Some(t);
    if BlockedOnRes(s, t) && s.blockedOn[t] in s.owner && OnChain(s, s.owner[s.blockedOn[t]], x) {
      var n: nat :| Nth(s, s.owner[s.blockedOn[t]], n) == Some(x);
      assert Nth(s, t, n + 1) == Some(x);
    }
  }

  lemma OnSameChain(s: Sys, s': Sys, t: Task, x: Task)
    requires SameLinks(s, s')
    ensures OnChain(s, t, x) <==> OnChain(s', t, x)
  {
    if OnChain(s, t, x) {
      var n: nat :| Nth(s, t, n) == Some(x);
      SameChain(s, s', t, n);
    }
    if OnChain(s', t, x) {
      var n: nat :| Nth(s', t, n) == Some(x);
      SameChain(s, s', t, n);
    }
  }

  function Min(a: int, b: int): int {
    if a < b then a else b
  }

  /** The early stop loses nothing: every task anywhere on the blocking chain ends at least as urgent as `p`,
      with exactly the more urgent of its own priority and `p`, and no other task changes. */
  lemma {:induction false} WalkBoostsChain(s: Sys, to: Task, p: int, x: Task)
    requires WellFormed(s) && QueuesSorted(s) && OwnersUrgent(s, Some(to), p)
    requires to in s.priority && x in s.priority && 0 <= p < LINUX_PRIORITY
    ensures x in Walk(s, Some(to), p).priority
    ensures Walk(s, Some(to), p).priority[x] == if OnChain(s, to, x) then Min(s.priority[x], p) else s.priority[x]
    decreases LessUrgent(s.priority, p)
  {
    if s.priority[to] <= p {
      ChainBelow(s, to, p, x);
    } else {
      var s' := Boost(s, to, p);
      BoostSorted(s, to, p);
      BoostOwners(s, to, p);
      var n := Next(s', to);
      WalkStep(s, to, p, s', n);
      OnChainStep(s, to, x);
      if n.Some? {
        WalkBoostsChain(s', n.value, p, x);
        OnSameChain(s, s', n.value, x);
      } else if BlockedOnRes(s, to) && s.blockedOn[to] in s.owner && OnChain(s, s.owner[s.blockedOn[to]], x) {
        EarlyStop(s, s', to, p, x);
      }
    }
  }

  /** Where the walk stops, the rest of the chain is urgent enough already. */
  lemma EarlyStop(s: Sys, s': Sys, t: Task, p: int, x: Task)
    requires Inheritance(s') && SameLinks(s, s') && t in s'.priority && s'.priority[t] == p && x in s'.priority
    requires BlockedOnRes(s, t) && s.blockedOn[t] in s.owner && OnChain(s, s.owner[s.blockedOn[t]], x)
    ensures s'.priority[x] <= p
  {
    var o := s.owner[s.blockedOn[t]];
    assert t in s'.waiters[s.blockedOn[t]];
    OnSameChain(s, s', o, x);
    ChainBelow(s', o, p, x);
  }

  lemma ChainBelow(s: Sys, t: Task, p: int, x: Task)
    requires WellFormed(s) && QueuesSorted(s) && OwnersUrgent(s, Some(t), p)
    requires t in s.priority && x in s.priority && s.priority[t] <= p
    ensures OnChain(s, t, x) ==> s.priority[x] <= p
  {
    if OnChain(s, t, x) {
      var n: nat :| Nth(s, t, n) == Some(x);
      ChainUrgent(s, t, n);
    }
  }

  // ---------------------------------------------------------------------------------------------------
  // The ready list
  // ---------------------------------------------------------------------------------------------------

  /** The walk keeps the ready list sorted. */
  lemma {:induction false} WalkKeepsReady(s: Sys, to: Option<Task>, p: int)
    requires WellFormed(s) && (to.Some? ==> to.value in s.priority) && 0 <= p < LINUX_PRIORITY
    requires Sorted(s.ready, s.priority)
    ensures WellFormed(Walk(s, to, p)) && Sorted(Walk(s, to, p).ready, Walk(s, to, p).priority)
    decreases LessUrgent(s.priority, p)
  {
    if to.Some? && s.priority[to.value] > p {
      var t := to.value;
      BoostWellFormed(s, t, p);
      var s' := Boost(s, t, p);
      WalkStep(s, t, p, s', Next(s', t));
      if t in s.ready {
        RereadySorted(s.ready, s.priority, t, p);
      }
      WalkKeepsReady(s', Next(s', t), p);
    }
  }

  /** Relinked or not, the list is sorted, whichever way the priority changed. */
  lemma RereadySorted(q: seq<Task>, prio: map<Task, int>, t: Task, p: int)
    requires Known(q, prio) && Sorted(q, prio) && NoDup(q) && t in q && p < LINUX_PRIORITY
    ensures var prio' := prio[t := p];
            Known(Reready(q, prio', t), prio') && Sorted(Reready(q, prio', t), prio')
  {
    var prio' := prio[t := p];
    OthersSorted(q, prio, prio', t);
    InsertSorted(Without(q, t), prio', t);
    if !OutOfPlace(q, prio', IndexOf(q, t)) { InPlaceSorted(q, prio, t, p); }
  }

  lemma InPlaceSorted(q: seq<Task>, prio: map<Task, int>, t: Task, p: int)
    requires Known(q, prio) && Sorted(q, prio) && NoDup(q) && t in q && !OutOfPlace(q, prio[t := p], IndexOf(q, t))
    requires p < LINUX_PRIORITY
    ensures Sorted(q, prio[t := p])
  {
    var i := IndexOf(q, t);
    assert forall k :: 0 <= k < |q| && k != i ==> q[k] != t;
    BetweenNeighbours(q, prio, prio[t := p], i);
  }

  lemma BetweenNeighbours(q: seq<Task>, prio: map<Task, int>, prio': map<Task, int>, i: nat)
    requires Known(q, prio) && Known(q, prio') && Sorted(q, prio) && i < |q|
    requires forall k :: 0 <= k < |q| && k != i ==> prio'[q[k]] == prio[q[k]]
    requires (i > 0 ==> prio'[q[i - 1]] <= prio'[q[i]]) && (i + 1 < |q| ==> prio'[q[i]] <= prio'[q[i + 1]])
    ensures Sorted(q, prio')
  {
    forall a, b | 0 <= a < b < |q|
      ensures prio'[q[a]] <= prio'[q[b]]
    {
      if b == i {
        assert a < i - 1 ==> prio[q[a]] <= prio[q[i - 1]];
      } else if a == i {
        assert i + 1 < b ==> prio[q[i + 1]] <= prio[q[b]];
      }
    }
  }

  // ---------------------------------------------------------------------------------------------------
  // Order among the others
  // ---------------------------------------------------------------------------------------------------

  /** The members of `u` in the order in which they stand in `q`. */
  function Keep(q: seq<Task>, u: set<Task>): seq<Task> {
    if q == [] then [] else KeepOne(q[0], u) + Keep(q[1..], u)
  }

  function KeepOne(x: Task, u: set<Task>): seq<Task> {
    if x in u then [x] else []
  }

  lemma {:induction false} KeepConcat(a: seq<Task>, b: seq<Task>, u: set<Task>)
    ensures Keep(a + b, u) == Keep(a, u) + Keep(b, u)
  {
    if a == [] {
      assert a + b == b;
    } else {
      KeepConcat(a[1..], b, u);
      KeepConcatHead(a[0], a[1..], b, u);
      assert [a[0]] + a[1..] == a;
    }
  }

  lemma KeepConcatHead(x: Task, a: seq<Task>, b: seq<Task>, u: set<Task>)
    requires Keep(a + b, u) == Keep(a, u) + Keep(b, u)
    ensures Keep(([x] + a) + b, u) == Keep([x] + a, u) + Keep(b, u)
  {
    Regroup([x], a, b);
    KeepHead(x, a + b, u);
    KeepHead(x, a, u);
    Regroup(KeepOne(x, u), Keep(a, u), Keep(b, u));
  }

  lemma Regroup(x: seq<Task>, a: seq<Task>, b: seq<Task>)
    ensures (x + a) + b == x + (a + b)
  {
  }

  lemma KeepHead(x: Task, q: seq<Task>, u: set<Task>)
    ensures Keep([x] + q, u) == KeepOne(x, u) + Keep(q, u)
  {
    assert ([x] + q)[1..] == q;
  }

  lemma KeepDrops(a: seq<Task>, t: Task, b: seq<Task>, u: set<Task>)
    requires t !in u
    ensures Keep(a + [t] + b, u) == Keep(a + b, u)
  {
    KeepConcat(a + [t], b, u);
    KeepConcat(a, [t], u);
    KeepConcat(a, b, u);
  }

  lemma MoveKeeps(q: seq<Task>, prio: map<Task, int>, t: Task, u: set<Task>)
    requires t in q && NoDup(q) && Known(q, prio) && t !in u
    ensures Keep(Requeue(q, prio, t), u) == Keep(q, u) == Keep(Reready(q, prio, t), u)
  {
    WithoutMembers(q, t);
    WithoutKeeps(q, t, u);
    InsertKeeps(Without(q, t), prio, t, u);
  }

  lemma WithoutKeeps(q: seq<Task>, t: Task, u: set<Task>)
    requires t in q && t !in u
    ensures Keep(Without(q, t), u) == Keep(q, u)
  {
    var i := IndexOf(q, t);
    KeepDrops(q[..i], t, q[i + 1..], u);
    assert q == q[..i] + [t] + q[i + 1..];
  }

  lemma InsertKeeps(r: seq<Task>, prio: map<Task, int>, t: Task, u: set<Task>)
    requires Known(r, prio) && t in prio && t !in u
    ensures Keep(Insert(r, prio, t), u) == Keep(r, u)
  {
    var k := Pos(r, prio, prio[t]);
    KeepDrops(r[..k], t, r[k..], u);
    assert r == r[..k] + r[k..];
  }

  /** The wait queue of a resource, or the ready list. */
  function QueueOf(s: Sys, r: Option<Res>): seq<Task>
    requires r.Some? ==> r.value in s.waiters
  {
    if r.None? then s.ready else s.waiters[r.value]
  }

  lemma BoostKeepsOrder(s: Sys, t: Task, p: int, u: set<Task>, r: Option<Res>)
    requires WellFormed(s) && t in s.priority && 0 <= p < LINUX_PRIORITY && t !in u
    requires r.Some? ==> r.value in s.waiters && r.value in Boost(s, t, p).waiters
    ensures Keep(QueueOf(Boost(s, t, p), r), u) == Keep(QueueOf(s, r), u)
  {
    var prio := s.priority[t := p];
    if t in s.ready {
      MoveKeeps(s.ready, prio, t, u);
    } else if BlockedOnRes(s, t) {
      MoveKeeps(s.waiters[s.blockedOn[t]], prio, t, u);
    }
  }

  // --- First come first served among equals

  /** `y` stands before `x`. */
  ghost predicate Ahead(q: seq<Task>, y: Task, x: Task) {
    exists i, j :: 0 <= i < j < |q| && q[i] == y && q[j] == x
  }

  lemma WithoutAhead(q: seq<Task>, t: Task, y: Task, x: Task)
    requires t in q && Ahead(q, y, x) && y != t && x != t
    ensures Ahead(Without(q, t), y, x)
  {
    var k := IndexOf(q, t);
    var i, j :| 0 <= i < j < |q| && q[i] == y && q[j] == x;
    var r := Without(q, t);
    assert r[if i < k then i else i - 1] == y && r[if j < k then j else j - 1] == x;
  }

  lemma InsertAhead(q: seq<Task>, prio: map<Task, int>, t: Task, y: Task, x: Task)
    requires Known(q, prio) && t in prio && Ahead(q, y, x)
    ensures Ahead(Insert(q, prio, t), y, x)
  {
    var k := Pos(q, prio, prio[t]);
    var i, j :| 0 <= i < j < |q| && q[i] == y && q[j] == x;
    var r := Insert(q, prio, t);
    assert r[if i < k then i else i + 1] == y && r[if j < k then j else j + 1] == x;
  }

  /** Whoever is at least as urgent is before the newcomer, whoever is less urgent behind it. */
  lemma InsertBehindEquals(q: seq<Task>, prio: map<Task, int>, t: Task, y: Task)
    requires Known(q, prio) && t in prio && Sorted(q, prio) && y in q
    ensures prio[y] <= prio[t] ==> Ahead(Insert(q, prio, t), y, t)
    ensures prio[y] > prio[t] ==> Ahead(Insert(q, prio, t), t, y)
  {
    var k := Pos(q, prio, prio[t]);
    var i :| 0 <= i < |q| && q[i] == y;
    var r := Insert(q, prio, t);
    assert r[k] == t && r[if i < k then i else i + 1] == y;
    assert k < |q| && k <= i ==> prio[q[k]] <= prio[q[i]];
  }

  /** Taking priority `p` and the place that goes with it keeps a task behind everybody as urgent as `p`. */
  lemma MoveAhead(q: seq<Task>, prio: map<Task, int>, t: Task, p: int, y: Task, x: Task)
    requires Known(q, prio) && Sorted(q, prio) && NoDup(q) && t in q && p < prio[t]
    requires Ahead(q, y, x) && prio[y] <= p
    ensures Ahead(Requeue(q, prio[t := p], t), y, x) && Ahead(Reready(q, prio[t := p], t), y, x)
  {
    var prio' := prio[t := p];
    WithoutMembers(q, t);
    OthersSorted(q, prio, prio', t);
    if x == t {
      InsertBehindEquals(Without(q, t), prio', t, y);
    } else {
      AheadDiffers(q, y, x);
      WithoutAhead(q, t, y, x);
      InsertAhead(Without(q, t), prio', t, y, x);
    }
  }

  lemma AheadDiffers(q: seq<Task>, y: Task, x: Task)
    requires Ahead(q, y, x)
    ensures y in q && x in q && (NoDup(q) ==> y != x)
  {
  }

  ghost predicate AllSorted(s: Sys)
    requires WellFormed(s)
  {
    QueuesSorted(s) && Sorted(s.ready, s.priority)
  }

  lemma BoostKeepsAhead(s: Sys, t: Task, p: int, r: Option<Res>, y: Task, x: Task)
    requires WellFormed(s) && AllSorted(s) && t in s.priority && 0 <= p < s.priority[t]
    requires r.Some? ==> r.value in s.waiters && r.value in Boost(s, t, p).waiters
    requires Ahead(QueueOf(s, r), y, x) && y in s.priority && s.priority[y] <= p
    ensures Ahead(QueueOf(Boost(s, t, p), r), y, x)
  {
    if t in s.ready {
      if r.None? { MoveAhead(s.ready, s.priority, t, p, y, x); }
    } else if BlockedOnRes(s, t) && r == Some(s.blockedOn[t]) {
      MoveAhead(s.waiters[r.value], s.priority, t, p, y, x);
    }
  }

  lemma BoostAllSorted(s: Sys, t: Task, p: int)
    requires WellFormed(s) && AllSorted(s) && t in s.priority && 0 <= p < s.priority[t]
    ensures WellFormed(Boost(s, t, p)) && AllSorted(Boost(s, t, p))
  {
    BoostSorted(s, t, p);
    if t in s.ready {
      RereadySorted(s.ready, s.priority, t, p);
    } else {
      SortedAlike(s.ready, s.priority, s.priority[t := p], t);
    }
  }

  /** Nobody gets past a task that is as urgent as the passed priority. */
  lemma {:induction false} WalkKeepsAhead(s: Sys, to: Option<Task>, p: int, r: Option<Res>, y: Task, x: Task)
    requires WellFormed(s) && AllSorted(s) && (to.Some? ==> to.value in s.priority) && 0 <= p < LINUX_PRIORITY
    requires r.Some? ==> r.value in s.waiters
    requires Ahead(QueueOf(s, r), y, x) && y in s.priority && s.priority[y] <= p
    ensures r.Some? ==> r.value in Walk(s, to, p).waiters
    ensures Ahead(QueueOf(Walk(s, to, p), r), y, x)
    decreases LessUrgent(s.priority, p)
  {
    if to.Some? && s.priority[to.value] > p {
      var t := to.value;
      BoostAllSorted(s, t, p);
      var s' := Boost(s, t, p);
      WalkStep(s, t, p, s', Next(s', t));
      BoostKeepsAhead(s, t, p, r, y, x);
      WalkKeepsAhead(s', Next(s', t), p, r, y, x);
    }
  }

  /** A boosted task ends behind everybody in its queue who had the passed priority already or a more urgent one:
      first come first served among equals. */
  lemma BoostedBehindEquals(s: Sys, to: Option<Task>, p: int, r: Option<Res>, y: Task, x: Task)
    requires WellFormed(s) && AllSorted(s) && (to.Some? ==> to.value in s.priority) && 0 <= p < LINUX_PRIORITY
    requires (r.Some? ==> r.value in s.waiters && r.value in s.inherits) && x in QueueOf(s, r) && y in QueueOf(s, r)
    requires x in s.priority && y in s.priority && s.priority[y] <= p
    requires x in Walk(s, to, p).priority && Walk(s, to, p).priority[x] != s.priority[x]
    ensures r.Some? ==> r.value in Walk(s, to, p).waiters
    ensures Ahead(QueueOf(Walk(s, to, p), r), y, x)
  {
    WalkOnlyRaises(s, to, p);
    SortedAhead(QueueOf(s, r), s.priority, y, x);
    WalkKeepsAhead(s, to, p, r, y, x);
  }

  lemma SortedAhead(q: seq<Task>, prio: map<Task, int>, y: Task, x: Task)
    requires Known(q, prio) && Sorted(q, prio) && y in q && x in q && prio[y] < prio[x]
    ensures Ahead(q, y, x)
  {
    var i :| 0 <= i < |q| && q[i] == y;
    var j :| 0 <= j < |q| && q[j] == x;
  }

  /** A task that blocks stands behind every waiter of at most its own priority number and before all others, and the
      waiters keep their order. */
  lemma BlockBehindEquals(s: Sys, t: Task, r: Res, y: Task, x: Task)
    requires WellFormed(s) && t in s.priority && t !in s.blockedOn && r in s.waiters
    requires Known(s.waiters[r], s.priority) && Sorted(s.waiters[r], s.priority) && y in s.waiters[r]
    ensures s.priority[y] <= s.priority[t] ==> Ahead(Block(s, t, r).waiters[r], y, t)
    ensures s.priority[y] > s.priority[t] ==> Ahead(Block(s, t, r).waiters[r], t, y)
    ensures Ahead(s.waiters[r], y, x) ==> Ahead(Block(s, t, r).waiters[r], y, x)
  {
    InsertBehindEquals(s.waiters[r], s.priority, t, y);
    if Ahead(s.waiters[r], y, x) { InsertAhead(s.waiters[r], s.priority, t, y, x); }
  }

  ghost predicate Unboosted(prio: map<Task, int>, prio': map<Task, int>, u: set<Task>) {
    forall t :: t in u && t in prio ==> t in prio' && prio'[t] == prio[t]
  }

  lemma StillUnboosted(s: Sys, t: Task, p: int, u: set<Task>)
    requires WellFormed(s) && t in s.priority && 0 <= p < s.priority[t]
    requires Unboosted(s.priority, Walk(s, Some(t), p).priority, u)
    ensures WellFormed(Boost(s, t, p)) && SameLinks(s, Boost(s, t, p))
    ensures Unboosted(Boost(s, t, p).priority, Walk(Boost(s, t, p), Next(Boost(s, t, p), t), p).priority, u) && t !in u
  {
    BoostWellFormed(s, t, p);
    var s' := Boost(s, t, p);
    WalkStep(s, t, p, s', Next(s', t));
    WalkOnlyRaises(s', Next(s', t), p);
  }

  /** Tasks that the walk does not boost keep their order in every queue. */
  lemma {:induction false} WalkKeepsOrder(s: Sys, to: Option<Task>, p: int, u: set<Task>, r: Option<Res>)
    requires WellFormed(s) && (to.Some? ==> to.value in s.priority) && 0 <= p < LINUX_PRIORITY
    requires Unboosted(s.priority, Walk(s, to, p).priority, u)
    requires r.Some? ==> r.value in s.waiters
    ensures r.Some? ==> r.value in Walk(s, to, p).waiters
    ensures Keep(QueueOf(Walk(s, to, p), r), u) == Keep(QueueOf(s, r), u)
    decreases LessUrgent(s.priority, p)
  {
    if to.Some? && s.priority[to.value] > p {
      var t := to.value;
      BoostWellFormed(s, t, p);
      var s' := Boost(s, t, p);
      WalkStep(s, t, p, s', Next(s', t));
      StillUnboosted(s, t, p, u);
      BoostKeepsOrder(s, t, p, u, r);
      WalkKeepsOrder(s', Next(s', t), p, u, r);
    }
  }

  /** The do-loop of rt_change_prio: the first round is unconditional. */
  function ChangeWalk(s: Sys, t: Task, p: int): Sys
    requires WellFormed(s) && t in s.priority && 0 <= p < LINUX_PRIORITY
  {
    BoostWellFormed(s, t, p);
    var s' := Boost(s, t, p);
    Walk(s', Next(s', t), p)
  }

  /** Raising a task's urgency through rt_change_prio is the same walk as in pass_prio, so that under
      inheritance it keeps inheritance and boosts exactly the blocking chain of the task. */
  lemma ChangeRaises(s: Sys, t: Task, p: int, x: Task)
    requires Inheritance(s) && t in s.priority && 0 <= p < s.priority[t] && x in s.priority
    ensures ChangeWalk(s, t, p) == Walk(s, Some(t), p) && Inheritance(ChangeWalk(s, t, p))
    ensures x in ChangeWalk(s, t, p).priority
    ensures ChangeWalk(s, t, p).priority[x] == if OnChain(s, t, x) then Min(s.priority[x], p) else s.priority[x]
  {
    assert ChangeWalk(s, t, p) == Walk(s, Some(t), p);
    WalkKeepsInheritance(s, Some(t), p);
    WalkBoostsChain(s, t, p, x);
  }

  /** A blocked task that becomes less urgent through rt_change_prio: its queue stays sorted exactly when it is not in
      front or the one behind it is not more urgent now.  One in front is never moved back. */
  lemma LoweredQueueIff(s: Sys, t: Task, p: int)
    requires WellFormed(s) && QueuesSorted(s) && BlockedOnRes(s, t) && s.priority[t] <= p < LINUX_PRIORITY && 0 <= p
    ensures WellFormed(Boost(s, t, p))
    ensures var q, s' := s.waiters[s.blockedOn[t]], Boost(s, t, p);
            Sorted(s'.waiters[s.blockedOn[t]], s'.priority) <==> q[0] != t || |q| == 1 || p <= s.priority[q[1]]
  {
    BoostWellFormed(s, t, p);
    var q, prio' := s.waiters[s.blockedOn[t]], s.priority[t := p];
    assert Known(q, s.priority) && Sorted(q, s.priority);
    if q[0] == t {
      FrontLowered(q, s.priority, t, p);
    } else {
      OthersSorted(q, s.priority, prio', t);
      InsertSorted(Without(q, t), prio', t);
    }
  }

  lemma FrontLowered(q: seq<Task>, prio: map<Task, int>, t: Task, p: int)
    requires Known(q, prio) && Sorted(q, prio) && NoDup(q) && q != [] && q[0] == t && prio[t] <= p
    ensures Known(q, prio[t := p]) && (Sorted(q, prio[t := p]) <==> |q| == 1 || p <= prio[q[1]])
  {
    var prio' := prio[t := p];
    if Sorted(q, prio') && |q| > 1 { assert prio'[q[0]] <= prio'[q[1]] && q[1] != t; }
    if |q| == 1 || p <= prio[q[1]] {
      forall a, b | 0 <= a < b < |q|
        ensures prio'[q[a]] <= prio'[q[b]]
      {
        assert q[b] != t && (b > 1 ==> prio[q[1]] <= prio[q[b]]);
        assert a > 0 ==> q[a] != t && prio[q[a]] <= prio[q[b]];
      }
    }
  }

  /** It does happen: two waiters, and the first falls behind the second but stays in front. */
  lemma LoweredStaysInFront() returns (s: Sys, t: Task, p: int)
    ensures Inheritance(s) && BlockedOnRes(s, t) && s.priority[t] <= p < LINUX_PRIORITY
    ensures WellFormed(ChangeWalk(s, t, p)) && !QueuesSorted(ChangeWalk(s, t, p))
  {
    s := TwoWaiters();
    t, p := 1, 3;
    assert s.waiters[7] == [1, 2];
    LoweredQueueIff(s, t, p);
    BoostWellFormed(s, t, p);
    assert Next(Boost(s, t, p), t) == None;
  }

  lemma TwoWaiters() returns (s: Sys)
    ensures s == Sys(map[1 := 1, 2 := 2], [], map[7 := [1, 2]], map[1 := 7, 2 := 7], map[], {7}) && Inheritance(s)
  {
    s := Sys(map[1 := 1, 2 := 2], [], map[7 := [1, 2]], map[1 := 7, 2 := 7], map[], {7});
    var q := s.waiters[7];
    assert q == [1, 2] && Known(q, s.priority) && NoDup(q) && Sorted(q, s.priority);
  }

  /** Whichever way a priority changes, the ready list stays sorted. */
  lemma ChangeKeepsReady(s: Sys, t: Task, p: int)
    requires WellFormed(s) && Sorted(s.ready, s.priority) && t in s.priority && 0 <= p < LINUX_PRIORITY
    ensures WellFormed(ChangeWalk(s, t, p)) && Sorted(ChangeWalk(s, t, p).ready, ChangeWalk(s, t, p).priority)
  {
    BoostWellFormed(s, t, p);
    var s' := Boost(s, t, p);
    if t in s.ready {
      RereadySorted(s.ready, s.priority, t, p);
    } else {
      SortedAlike(s.ready, s.priority, s.priority[t := p], t);
    }
    WalkKeepsReady(s', Next(s', t), p);
  }

  // ---------------------------------------------------------------------------------------------------
  // The scheduler's code
  // ---------------------------------------------------------------------------------------------------

  const EINVAL: int := 22

  class Kernel {
    var priority: map<Task, int>
    var basePriority: map<Task, int>
    var ready: seq<Task>
    var waiters: map<Res, seq<Task>>
    var blockedOn: map<Task, Res>
    var owner: map<Res, Task>
    var inherits: set<Res>

    ghost function View(): Sys
      reads this
    {
      Sys(priority, ready, waiters, blockedOn, owner, inherits)
    }

    /** The scan for the first task that is less urgent than `p`. */
    method Scan(q: seq<Task>, p: int) returns (k: nat)
      requires Known(q, priority)
      ensures k == Pos(q, priority, p)
    {
      k := 0;
      while k < |q| && priority[q[k]] <= p
        invariant k <= |q| && forall i :: 0 <= i < k ==> priority[q[i]] <= p
      {
        k := k + 1;
      }
      PosIs(q, priority, p, k);
    }

    /** Takes `t` out of the queue and puts it in again behind the tasks that are at least as urgent. */
    method Relink(q: seq<Task>, t: Task, i: nat) returns (q': seq<Task>)
      requires t in q && i == IndexOf(q, t) && Known(q, priority) && Known(Without(q, t), priority)
      ensures q' == Insert(Without(q, t), priority, t)
    {
      var rest := q[..i] + q[i + 1..];
      assert rest == Without(q, t);
      var k := Scan(rest, priority[t]);
      q' := rest[..k] + [t] + rest[k..];
    }

    /** Relinks READY task `t` behind the ready tasks that are at least as urgent, if its neighbours show that
        it is out of place. */
    method RequeueReady(t: Task)
      requires t in ready && Known(ready, priority) && NoDup(ready)
      modifies this`ready
      ensures ready == Reready(old(ready), priority, t)
    {
      var i := IndexOf(ready, t);
      WithoutMembers(ready, t);
      if OutOfPlace(ready, priority, i) {
        ready := Relink(ready, t, i);
      }
    }

    /** Relinks blocked task `t` in its wait queue unless it is in front already; says whether it is then. */
    method RequeueBlocked(t: Task) returns (front: bool)
      requires t in blockedOn && blockedOn[t] in waiters
      requires var q := waiters[blockedOn[t]]; t in q && Known(q, priority) && NoDup(q)
      modifies this`waiters
      ensures waiters == old(waiters)[blockedOn[t] := Requeue(old(waiters)[blockedOn[t]], priority, t)]
      ensures front == (Requeue(old(waiters)[blockedOn[t]], priority, t)[0] == t)
    {
      var r := blockedOn[t];
      var q := waiters[r];
      RequeueMembers(q, priority, t);
      WithoutMembers(q, t);
      front := true;
      if q[0] != t {
        var q' := Relink(q, t, IndexOf(q, t));
        waiters := waiters[r := q'];
        front := q'[0] == t;
      } else {
        assert waiters == waiters[r := q];
      }
    }

    /** One round of the walk: gives `t` priority `p` and returns whom to visit next. */
    method Round(t: Task, p: int) returns (n: Option<Task>)
      requires WellFormed(View()) && t in priority && 0 <= p < LINUX_PRIORITY
      modifies this`priority, this`ready, this`waiters
      ensures View() == Boost(old(View()), t, p) && WellFormed(View())
      ensures n == Next(View(), t)
    {
      n := None;
      BoostWellFormed(View(), t, p);
      NewPriority(View(), t, p);
      priority := priority[t := p];
      if t in ready {
        RequeueReady(t);
      } else if t in blockedOn && blockedOn[t] in inherits {
        var front := RequeueBlocked(t);
        if front && blockedOn[t] in owner {
          n := Some(owner[blockedOn[t]]);
        }
      }
    }

    /** The loop of both services: walks on from `to` while that task is less urgent than `p`. */
    method WalkFrom(to: Option<Task>, p: int)
      requires WellFormed(View()) && (to.Some? ==> to.value in priority) && 0 <= p < LINUX_PRIORITY
      modifies this`priority, this`ready, this`waiters
      ensures View() == Walk(old(View()), to, p)
    {
      ghost var s := View();
      var t := to;
      while t.Some? && priority[t.value] > p
        invariant WellFormed(View()) && (t.Some? ==> t.value in priority)
        invariant Walk(View(), t, p) == Walk(s, to, p)
        decreases LessUrgent(priority, p)
      {
        ghost var before := View();
        var n := Round(t.value, p);
        WalkStep(before, t.value, p, View(), n);
        t := n;
      }
    }

    /** pass_prio: `to` and whoever it waits for inherit the priority of `from`, which itself never changes on
        the way because only less urgent tasks are visited. */
    method PassPrio(to: Option<Task>, from: Task)
      requires WellFormed(View()) && from in priority && (to.Some? ==> to.value in priority)
      modifies this`priority, this`ready, this`waiters
      ensures View() == Walk(old(View()), to, old(priority)[from])
      ensures from in priority && priority[from] == old(priority)[from]
    {
      WalkOnlyRaises(View(), to, priority[from]);
      WalkFrom(to, priority[from]);
    }

    /** rt_change_prio for hard tasks: returns the previous base priority. */
    method RtChangePrio(task: Task, prio: int) returns (r: int)
      requires WellFormed(View()) && task in priority && task in basePriority && prio < LINUX_PRIORITY
      modifies this`basePriority, this`priority, this`ready, this`waiters
      ensures prio < 0 ==> r == -EINVAL && View() == old(View()) && basePriority == old(basePriority)
      ensures prio >= 0 ==> r == old(basePriority)[task] && basePriority == old(basePriority)[task := prio]
      ensures prio >= 0 && (old(basePriority)[task] == old(priority)[task] || prio < old(priority)[task]) ==>
                View() == ChangeWalk(old(View()), task, prio)
      ensures old(basePriority)[task] != old(priority)[task] <= prio ==> View() == old(View())
    {
      if prio < 0 {
        return -EINVAL;
      }
      r := basePriority[task];
      basePriority := basePriority[task := prio];
      if r == priority[task] || prio < priority[task] {
        var t := Round(task, prio);
        WalkFrom(t, prio);
      }
    }
  }

  lemma {:induction false} PosIs(q: seq<Task>, prio: map<Task, int>, p: int, k: nat)
    requires Known(q, prio) && k <= |q| && (forall i :: 0 <= i < k ==> prio[q[i]] <= p) && (k < |q| ==> prio[q[k]] > p)
    ensures Pos(q, prio, p) == k
  {
  }
}
