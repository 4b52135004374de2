/** The hashed name registry: two open-addressing tables, by name and by address, interleaved in one array of
    slots 1..n, with tombstones, cyclic probing and cross links.  It refines a map from names to records. */
module Registry {

  const TOMBSTONE: nat := 1   // NONAME and NOADR

  datatype Entry = Entry(name: nat, adr: nat, nlink: nat, alink: nat, typ: int, count: nat)

  /** What a caller sees of a registered object. */
  datatype Rec = Rec(adr: nat, typ: int, count: nat)

  /** Which of the two tables a probe works on. */
  datatype Table = ByName | ByAdr

  function Key(x: Entry, t: Table): nat {
    if t.ByName? then x.name else x.adr
  }

  // ---------------------------------------------------------------------------------------------------
  // One probing table: the keys in slots 1..n; 0 is an empty slot
  // ---------------------------------------------------------------------------------------------------

  function HashFun(m: nat, n: nat): (h: nat)
    requires n > 0
    ensures 1 <= h <= n
  {
    m % n + 1
  }

  function Succ(k: nat, n: nat): nat {
    if k + 1 > n then 1 else k + 1
  }

  /** Slot `m` lies on the cyclic path from `h` up to, not including, `k`. */
  predicate OnPath(h: nat, k: nat, m: nat) {
    if h <= k then h <= m < k else h <= m || m < k
  }

  /** A probe for `x` in a table of `size - 1` slots looks at slot `m` before it gets to slot `k`. */
  predicate Before(size: nat, x: nat, k: nat, m: nat)
    requires size >= 2
  {
    OnPath(HashFun(x, size - 1), k, m)
  }

  /** The slot that a probe for `x` looks at in its `d`th step: the slots in order, from the remainder of `x` on. */
  function ProbeStep(size: nat, x: nat, d: nat): nat
    requires size >= 2
  {
    var h := x % (size - 1) + 1;
    if h + d < size then h + d else h + d - (size - 1)
  }

  /** Linear probing: the slots looked at before slot `k` are those of the steps before the step to `k`. */
  lemma LinearProbing(size: nat, x: nat, k: nat) returns (d: nat)
    requires size >= 2 && 1 <= k < size
    ensures d < size - 1 && k == ProbeStep(size, x, d)
    ensures forall j: nat :: j < size - 1 ==> (Before(size, x, k, ProbeStep(size, x, j)) <==> j < d)
  {
    var h := HashFun(x, size - 1);
    d := if k >= h then k - h else k + (size - 1) - h;
  }

  /** `slot` names the slot of each live key, so that live keys are unique. */
  ghost predicate SlotsOk(e: seq<Entry>, t: Table, slot: map<nat, nat>) {
    && (forall k {:trigger Key(e[k], t)} :: 1 <= k < |e| && Key(e[k], t) > TOMBSTONE ==> Key(e[k], t) in slot && slot[Key(e[k], t)] == k)
    && (forall x :: x in slot ==> x > TOMBSTONE && 1 <= slot[x] < |e| && Key(e[slot[x]], t) == x)
  }

  /** No probe for a live key meets an empty slot before it meets the key. */
  ghost predicate Reachable(e: seq<Entry>, t: Table, slot: map<nat, nat>)
    requires |e| >= 2
  {
    forall x, m {:trigger Before(|e|, x, slot[x], m)} :: x in slot && 1 <= m < |e| && Before(|e|, x, slot[x], m) ==> Key(e[m], t) != 0
  }

  ghost predicate TableOk(e: seq<Entry>, t: Table, slot: map<nat, nat>) {
    |e| >= 2 && SlotsOk(e, t, slot) && Reachable(e, t, slot)
  }

  /** The slots on the path from the hash of `x` up to `k` hold keys above `stop` and different from `x`. */
  ghost predicate Passed(e: seq<Entry>, t: Table, x: nat, k: nat, stop: nat)
    requires |e| >= 2
  {
    forall m {:trigger Before(|e|, x, k, m)} :: 1 <= m < |e| && Before(|e|, x, k, m) ==> Key(e[m], t) > stop && Key(e[m], t) != x
  }

  /** A probe that stopped at an empty slot or at `x` itself has decided whether `x` is live. */
  lemma ProbeDecides(e: seq<Entry>, t: Table, slot: map<nat, nat>, x: nat, k: nat)
    requires TableOk(e, t, slot) && x > TOMBSTONE && 1 <= k < |e| && (Key(e[k], t) == 0 || Key(e[k], t) == x)
    requires Passed(e, t, x, k, 0)
    ensures x in slot <==> Key(e[k], t) == x
    ensures x in slot ==> slot[x] == k
  {
    if x in slot {
      Trichotomy(|e|, x, slot[x], k);
    }
  }

  /** A probe that came full circle saw only keys above `stop` and different from `x`. */
  ghost predicate Misses(e: seq<Entry>, t: Table, x: nat, stop: nat) {
    forall m {:trigger Key(e[m], t)} :: 1 <= m < |e| ==> Key(e[m], t) > stop && Key(e[m], t) != x
  }

  lemma FullCircle(e: seq<Entry>, t: Table, slot: map<nat, nat>, x: nat, stop: nat)
    requires SlotsOk(e, t, slot) && Misses(e, t, x, stop)
    ensures x !in slot && (stop >= TOMBSTONE ==> AllLive(e, t))
  {
  }

  lemma Trichotomy(size: nat, x: nat, j: nat, k: nat)
    requires size >= 2
    ensures Before(size, x, j, k) || Before(size, x, k, j) || j == k
  {
  }

  /** Writing a key into a free slot that its probe reached over live slots keeps the table right. */
  lemma InsertOk(e: seq<Entry>, e': seq<Entry>, t: Table, slot: map<nat, nat>, x: nat, k: nat)
    requires TableOk(e, t, slot) && x > TOMBSTONE && x !in slot && 1 <= k < |e| && Key(e[k], t) <= TOMBSTONE
    requires Passed(e, t, x, k, TOMBSTONE)
    requires |e'| == |e| && Key(e'[k], t) == x && forall m {:trigger Key(e'[m], t)} :: 1 <= m < |e| && m != k ==> Key(e'[m], t) == Key(e[m], t)
    ensures TableOk(e', t, slot[x := k])
  {
  }

  /** What removal writes over the key in slot `k`. */
  function Cleared(e: seq<Entry>, t: Table, k: nat): nat
    requires |e| >= 2 && k < |e|
  {
    if Key(e[Succ(k, |e| - 1)], t) == 0 then 0 else TOMBSTONE
  }

  /** Clearing a key leaves a tombstone, or an empty slot when the next slot is empty: no other key's probe
      passes here then, because it would meet the empty slot. */
  lemma RemoveOk(e: seq<Entry>, e': seq<Entry>, t: Table, slot: map<nat, nat>, x: nat)
    requires TableOk(e, t, slot) && x in slot
    requires |e'| == |e| && Key(e'[slot[x]], t) == Cleared(e, t, slot[x])
    requires forall m {:trigger Key(e'[m], t)} :: 1 <= m < |e| && m != slot[x] ==> Key(e'[m], t) == Key(e[m], t)
    ensures TableOk(e', t, slot - {x})
  {
    var n := |e| - 1;
    var k := slot[x];
    forall y, m | y in slot - {x} && 1 <= m < |e'| && Before(|e|, y, slot[y], m)
      ensures Key(e'[m], t) != 0
    {
      assert Key(e[m], t) != 0;
      if m == k && Key(e[Succ(k, n)], t) == 0 {
        NextOnPath(|e|, y, slot[y], k);
      }
    }
  }

  lemma NextOnPath(size: nat, x: nat, j: nat, k: nat)
    requires size >= 2 && 1 <= j < size && 1 <= k < size && Before(size, x, j, k)
    ensures Succ(k, size - 1) == j || Before(size, x, j, Succ(k, size - 1))
  {
  }

  lemma SameTable(e: seq<Entry>, e': seq<Entry>, t: Table, slot: map<nat, nat>)
    requires TableOk(e, t, slot) && |e'| == |e| && forall m {:trigger Key(e'[m], t)} {:trigger Key(e[m], t)} :: 1 <= m < |e| ==> Key(e'[m], t) == Key(e[m], t)
    ensures TableOk(e', t, slot)
  {
  }

  // ---------------------------------------------------------------------------------------------------
  // Counting live slots
  // ---------------------------------------------------------------------------------------------------

  function Slots(n: nat): (s: set<nat>)
    ensures forall k :: k in s <==> 1 <= k <= n
    ensures |s| == n
  {
    if n == 0 then {} else Slots(n - 1) + {n}
  }

  lemma {:induction false} InjectiveImage(slot: map<nat, nat>, s: set<nat>)
    requires forall x :: x in slot ==> slot[x] in s
    requires forall x, y :: x in slot && y in slot && slot[x] == slot[y] ==> x == y
    ensures |slot| <= |s|
    ensures |slot| == |s| ==> forall k :: k in s ==> k in slot.Values
    decreases |slot|
  {
    if |slot| > 0 {
      var x :| x in slot;
      var rest := slot - {x};
      assert slot == rest[x := slot[x]] && |rest| == |slot| - 1;
      InjectiveImage(rest, s - {slot[x]});
      if |slot| == |s| {
        forall k | k in s
          ensures k in slot.Values
        {
          if k != slot[x] {
            assert k in rest.Values;
            var y :| y in rest && rest[y] == k;
            assert slot[y] == k;
          }
        }
      }
    }
  }

  ghost predicate AllLive(e: seq<Entry>, t: Table) {
    forall k {:trigger Key(e[k], t)} :: 1 <= k < |e| ==> Key(e[k], t) > TOMBSTONE
  }

  lemma KeysCounted(e: seq<Entry>, t: Table, slot: map<nat, nat>)
    requires |e| >= 2 && SlotsOk(e, t, slot)
    ensures |slot| <= |e| - 1 && (|slot| == |e| - 1 ==> AllLive(e, t))
  {
    InjectiveImage(slot, Slots(|e| - 1));
    if |slot| == |e| - 1 {
      forall k | 1 <= k < |e|
        ensures Key(e[k], t) > TOMBSTONE
      {
        assert k in Slots(|e| - 1);
        assert k in slot.Values;
      }
    }
  }

  lemma LiveCounted(e: seq<Entry>, t: Table, slot: map<nat, nat>)
    requires |e| >= 2 && SlotsOk(e, t, slot) && AllLive(e, t)
    ensures |slot| == |e| - 1
  {
    KeysCounted(e, t, slot);
    var back := map k | k in Slots(|e| - 1) :: Key(e[k], t);
    forall k | k in back
      ensures back[k] in slot.Keys && slot[back[k]] == k
    {
    }
    InjectiveImage(back, slot.Keys);
    assert back.Keys == Slots(|e| - 1);
    assert |back| == |back.Keys| && |slot| == |slot.Keys|;
  }

  // ---------------------------------------------------------------------------------------------------
  // Both tables together
  // ---------------------------------------------------------------------------------------------------

  /** Live names and live addresses point at each other. */
  ghost predicate Linked(e: seq<Entry>) {
    && (forall k {:trigger NameLinked(e, k)} :: 1 <= k < |e| && e[k].name > TOMBSTONE ==> NameLinked(e, k))
    && (forall j {:trigger AdrLinked(e, j)} :: 1 <= j < |e| && e[j].adr > TOMBSTONE ==> AdrLinked(e, j))
  }

  ghost predicate NameLinked(e: seq<Entry>, k: nat)
    requires k < |e|
  {
    1 <= e[k].alink < |e| && e[e[k].alink].adr > TOMBSTONE && e[e[k].alink].nlink == k && e[k].count > 0
  }

  ghost predicate AdrLinked(e: seq<Entry>, j: nat)
    requires j < |e|
  {
    1 <= e[j].nlink < |e| && e[e[j].nlink].name > TOMBSTONE && e[e[j].nlink].alink == j
  }

  ghost predicate EntriesOk(e: seq<Entry>, nameSlot: map<nat, nat>, adrSlot: map<nat, nat>) {
    TableOk(e, ByName, nameSlot) && TableOk(e, ByAdr, adrSlot) && Linked(e) && |nameSlot| == |adrSlot|
  }

  /** The record of live name `x`. */
  function RecOf(e: seq<Entry>, k: nat): Rec
    requires k < |e| && e[k].alink < |e|
  {
    Rec(e[e[k].alink].adr, e[k].typ, e[k].count)
  }

  /** `m` is the registry as a map from names to records. */
  ghost predicate Shows(e: seq<Entry>, ns: map<nat, nat>, m: map<nat, Rec>) {
    m.Keys == ns.Keys && forall x {:trigger ShowsAt(e, ns, m, x)} :: x in ns ==> ShowsAt(e, ns, m, x)
  }

  ghost predicate ShowsAt(e: seq<Entry>, ns: map<nat, nat>, m: map<nat, Rec>, x: nat)
    requires x in ns && x in m
  {
    ns[x] < |e| && e[ns[x]].alink < |e| && m[x] == RecOf(e, ns[x])
  }

  /** Two live names never share a slot. */
  lemma SlotsDiffer(e: seq<Entry>, t: Table, slot: map<nat, nat>, x: nat, y: nat)
    requires SlotsOk(e, t, slot) && x in slot && y in slot && x != y
    ensures slot[x] != slot[y]
  {
  }

  // --- Changing a reference count touches one record only

  lemma CountLinked(e: seq<Entry>, e': seq<Entry>, k: nat, c: nat)
    requires Linked(e) && 1 <= k < |e| && e' == e[k := e[k].(count := c)] && c > 0
    ensures Linked(e')
  {
    forall i | 1 <= i < |e'| && e'[i].name > TOMBSTONE
      ensures NameLinked(e', i)
    {
      assert NameLinked(e, i);
    }
    forall j | 1 <= j < |e'| && e'[j].adr > TOMBSTONE
      ensures AdrLinked(e', j)
    {
      assert AdrLinked(e, j);
    }
  }

  lemma CountShows(e: seq<Entry>, e': seq<Entry>, ns: map<nat, nat>, m: map<nat, Rec>, x: nat, c: nat)
    requires SlotsOk(e, ByName, ns) && Shows(e, ns, m) && x in ns && e' == e[ns[x] := e[ns[x]].(count := c)]
    ensures Shows(e', ns, m[x := m[x].(count := c)])
  {
    var m' := m[x := m[x].(count := c)];
    forall y | y in ns
      ensures ShowsAt(e', ns, m', y)
    {
      assert ShowsAt(e, ns, m, y);
      if y != x { SlotsDiffer(e, ByName, ns, x, y); }
    }
  }

  lemma CountOk(e: seq<Entry>, e': seq<Entry>, ns: map<nat, nat>, as_: map<nat, nat>, m: map<nat, Rec>, x: nat, c: nat)
    requires EntriesOk(e, ns, as_) && Shows(e, ns, m) && x in ns && c > 0
    requires e' == e[ns[x] := e[ns[x]].(count := c)]
    ensures EntriesOk(e', ns, as_) && Shows(e', ns, m[x := m[x].(count := c)])
  {
    SameTable(e, e', ByName, ns);
    SameTable(e, e', ByAdr, as_);
    CountLinked(e, e', ns[x], c);
    CountShows(e, e', ns, m, x, c);
  }

  // --- Entering a name in slot `k` and its address in slot `j`

  function Entered(e: seq<Entry>, x: nat, a: nat, typ: int, k: nat, j: nat): (r: seq<Entry>)
    requires k < |e| && j < |e|
    ensures |r| == |e|
  {
    var e1 := e[k := e[k].(name := x, typ := typ, count := 1, alink := 0)];
    var e2 := e1[j := e1[j].(adr := a, nlink := k)];
    e2[k := e2[k].(alink := j)]
  }

  lemma EnterLinked(e: seq<Entry>, e': seq<Entry>, x: nat, a: nat, typ: int, k: nat, j: nat)
    requires Linked(e) && 1 <= k < |e| && 1 <= j < |e| && e' == Entered(e, x, a, typ, k, j)
    requires e[k].name <= TOMBSTONE && e[j].adr <= TOMBSTONE && x > TOMBSTONE && a > TOMBSTONE
    ensures Linked(e')
  {
    forall i | 1 <= i < |e'| && e'[i].name > TOMBSTONE
      ensures NameLinked(e', i)
    {
      if i != k { assert NameLinked(e, i); }
    }
    forall i | 1 <= i < |e'| && e'[i].adr > TOMBSTONE
      ensures AdrLinked(e', i)
    {
      if i != j { assert AdrLinked(e, i); }
    }
  }

  lemma EnterShows(e: seq<Entry>, e': seq<Entry>, ns: map<nat, nat>, m: map<nat, Rec>, x: nat, a: nat, typ: int, k: nat, j: nat)
    requires Linked(e) && SlotsOk(e, ByName, ns) && Shows(e, ns, m) && x !in ns
    requires 1 <= k < |e| && 1 <= j < |e| && e[k].name <= TOMBSTONE && e[j].adr <= TOMBSTONE
    requires e' == Entered(e, x, a, typ, k, j)
    ensures Shows(e', ns[x := k], m[x := Rec(a, typ, 1)])
  {
    var ns' := ns[x := k];
    forall y | y in ns'
      ensures ShowsAt(e', ns', m[x := Rec(a, typ, 1)], y)
    {
      if y != x {
        assert ShowsAt(e, ns, m, y);
        assert NameLinked(e, ns[y]);
      }
    }
  }

  lemma EnterOk(e: seq<Entry>, e': seq<Entry>, ns: map<nat, nat>, as_: map<nat, nat>, m: map<nat, Rec>,
                x: nat, a: nat, typ: int, k: nat, j: nat)
    requires EntriesOk(e, ns, as_) && Shows(e, ns, m) && x > TOMBSTONE && a > TOMBSTONE && x !in ns && a !in as_
    requires 1 <= k < |e| && e[k].name <= TOMBSTONE && Passed(e, ByName, x, k, TOMBSTONE)
    requires 1 <= j < |e| && e[j].adr <= TOMBSTONE && Passed(e, ByAdr, a, j, TOMBSTONE)
    requires e' == Entered(e, x, a, typ, k, j)
    ensures EntriesOk(e', ns[x := k], as_[a := j])
    ensures Shows(e', ns[x := k], m[x := Rec(a, typ, 1)])
  {
    InsertOk(e, e', ByName, ns, x, k);
    InsertOk(e, e', ByAdr, as_, a, j);
    EnterLinked(e, e', x, a, typ, k, j);
    EnterShows(e, e', ns, m, x, a, typ, k, j);
    assert |ns[x := k]| == |ns| + 1 && |as_[a := j]| == |as_| + 1;
  }

  // --- Clearing the name in slot `k`, whose count becomes `c`, and the address in slot `j`

  function Removed(e: seq<Entry>, k: nat, j: nat, c: nat): (r: seq<Entry>)
    requires |e| >= 2 && k < |e| && j < |e|
    ensures |r| == |e|
  {
    var e1 := e[k := e[k].(name := Cleared(e, ByName, k), count := c)];
    e1[j := e1[j].(adr := Cleared(e1, ByAdr, j))]
  }

  lemma RemovedCells(e: seq<Entry>, e': seq<Entry>, k: nat, j: nat, c: nat)
    requires |e| >= 2 && k < |e| && j < |e| && e' == Removed(e, k, j, c)
    ensures |e'| == |e| && e'[k].count == c && e'[j].nlink == e[j].nlink
  {
  }

  /** A removed key leaves an empty slot exactly when the next slot of its table is empty, and a tombstone otherwise. */
  lemma EmptiedIff(e: seq<Entry>, e': seq<Entry>, k: nat, j: nat, c: nat)
    requires |e| >= 2 && 1 <= k < |e| && 1 <= j < |e| && e' == Removed(e, k, j, c)
    ensures e'[k].name == if e[if k + 1 < |e| then k + 1 else 1].name == 0 then 0 else TOMBSTONE
    ensures e'[j].adr == if e[if j + 1 < |e| then j + 1 else 1].adr == 0 then 0 else TOMBSTONE
  {
    assert Key(e[Succ(k, |e| - 1)], ByName) == e[Succ(k, |e| - 1)].name;
  }

  lemma RemovedTables(e: seq<Entry>, e': seq<Entry>, ns: map<nat, nat>, as_: map<nat, nat>, x: nat, a: nat, c: nat)
    requires TableOk(e, ByName, ns) && TableOk(e, ByAdr, as_) && x in ns && a in as_
    requires e' == Removed(e, ns[x], as_[a], c)
    ensures TableOk(e', ByName, ns - {x}) && TableOk(e', ByAdr, as_ - {a})
  {
    RemoveOk(e, e', ByName, ns, x);
    RemoveOk(e, e', ByAdr, as_, a);
  }

  lemma RemovedLinked(e: seq<Entry>, e': seq<Entry>, k: nat, j: nat, c: nat)
    requires Linked(e) && |e| >= 2 && 1 <= k < |e| && e[k].name > TOMBSTONE && j == e[k].alink < |e|
    requires e' == Removed(e, k, j, c)
    ensures Linked(e')
  {
    assert NameLinked(e, k);
    forall i | 1 <= i < |e'| && e'[i].name > TOMBSTONE
      ensures NameLinked(e', i)
    {
      assert NameLinked(e, i);
    }
    forall i | 1 <= i < |e'| && e'[i].adr > TOMBSTONE
      ensures AdrLinked(e', i)
    {
      assert AdrLinked(e, i);
    }
  }

  lemma RemovedShows(e: seq<Entry>, e': seq<Entry>, ns: map<nat, nat>, m: map<nat, Rec>, x: nat, j: nat, c: nat)
    requires Linked(e) && SlotsOk(e, ByName, ns) && |e| >= 2 && Shows(e, ns, m) && x in ns && j == e[ns[x]].alink < |e|
    requires e' == Removed(e, ns[x], j, c)
    ensures Shows(e', ns - {x}, m - {x})
  {
    assert NameLinked(e, ns[x]);
    forall y | y in ns - {x}
      ensures ShowsAt(e', ns - {x}, m - {x}, y)
    {
      assert ShowsAt(e, ns, m, y);
      SlotsDiffer(e, ByName, ns, x, y);
      assert NameLinked(e, ns[y]);
    }
  }

  /** A live name's address is live, in the slot the name's link gives. */
  lemma AdrOfName(e: seq<Entry>, ns: map<nat, nat>, as_: map<nat, nat>, m: map<nat, Rec>, x: nat)
    requires EntriesOk(e, ns, as_) && Shows(e, ns, m) && x in ns
    ensures NameLinked(e, ns[x]) && ShowsAt(e, ns, m, x)
    ensures m[x].adr in as_ && as_[m[x].adr] == e[ns[x]].alink
  {
    assert Key(e[ns[x]], ByName) == x;
    assert NameLinked(e, ns[x]) && ShowsAt(e, ns, m, x);
    assert Key(e[e[ns[x]].alink], ByAdr) == m[x].adr;
  }

  lemma NameOfAdr(e: seq<Entry>, ns: map<nat, nat>, as_: map<nat, nat>, m: map<nat, Rec>, a: nat)
    requires EntriesOk(e, ns, as_) && Shows(e, ns, m) && a in as_
    ensures 1 <= as_[a] < |e| && AdrLinked(e, as_[a]) && e[as_[a]].adr == a
    ensures var x := e[e[as_[a]].nlink].name; x in m && ns[x] == e[as_[a]].nlink && m[x].adr == a
  {
    var j := as_[a];
    assert Key(e[j], ByAdr) == a;
    assert AdrLinked(e, j);
    var x := Key(e[e[j].nlink], ByName);
    assert x in ns && ns[x] == e[j].nlink;
    assert ShowsAt(e, ns, m, x);
  }

  lemma SetThenWithout(m: map<nat, Rec>, x: nat, r: Rec)
    ensures m[x := r] - {x} == m - {x}
  {
  }

  lemma DomainShrinks(f: map<nat, nat>, x: nat)
    requires x in f
    ensures |f - {x}| == |f| - 1
  {
    assert f == (f - {x})[x := f[x]];
  }

  lemma RemovedOk(e: seq<Entry>, e': seq<Entry>, ns: map<nat, nat>, as_: map<nat, nat>, m: map<nat, Rec>, x: nat, j: nat, c: nat)
    requires EntriesOk(e, ns, as_) && Shows(e, ns, m) && x in ns && x in m
    requires j == e[ns[x]].alink < |e| && e' == Removed(e, ns[x], j, c)
    ensures EntriesOk(e', ns - {x}, as_ - {m[x].adr}) && Shows(e', ns - {x}, m - {x})
  {
    AdrOfName(e, ns, as_, m, x);
    RemovedTables(e, e', ns, as_, x, m[x].adr, c);
    RemovedLinked(e, e', ns[x], j, c);
    RemovedShows(e, e', ns, m, x, j, c);
    DomainShrinks(ns, x);
    DomainShrinks(as_, m[x].adr);
  }

  // ---------------------------------------------------------------------------------------------------
  // The registry itself
  // ---------------------------------------------------------------------------------------------------

  /** How far a probe that started at `h` still has to go from `k`. */
  function Distance(h: nat, k: nat, n: nat): nat
    requires 1 <= h <= n && 1 <= k <= n
  {
    if k >= h then n + h - k else h - k
  }

  lemma StepOnPath(size: nat, x: nat, k: nat)
    requires size >= 2 && 1 <= k < size
    ensures var h := HashFun(x, size - 1);
            var k' := Succ(k, size - 1);
            && (k' != h ==> forall m :: 1 <= m < size && Before(size, x, k', m) ==> Before(size, x, k, m) || m == k)
            && (k' == h ==> forall m :: 1 <= m < size ==> Before(size, x, k, m) || m == k)
  {
  }

  class Registry {
    const list: array<Entry>   // entry 0 is never used by a probe
    ghost var nameSlot: map<nat, nat>
    ghost var adrSlot: map<nat, nat>
    ghost var objects: map<nat, Rec>

    ghost predicate Valid()
      reads this, list
    {
      EntriesOk(list[..], nameSlot, adrSlot) && Shows(list[..], nameSlot, objects)
    }

    ghost predicate AdrTaken(adr: nat)
      reads this
    {
      exists x :: x in objects && objects[x].adr == adr
    }

    constructor (slots: nat)
      requires slots >= 1
      ensures Valid() && objects == map[] && list.Length == slots + 1
    {
      list := new Entry[slots + 1](_ => Entry(0, 0, 0, 0, 0, 0));
      nameSlot, adrSlot, objects := map[], map[], map[];
    }

    lemma TakenIffLive(adr: nat)
      requires Valid() && adr > TOMBSTONE
      ensures adr in adrSlot <==> AdrTaken(adr)
      ensures adr in adrSlot ==>
                && 1 <= adrSlot[adr] < list.Length && AdrLinked(list[..], adrSlot[adr])
                && var x := list[list[adrSlot[adr]].nlink].name;
                   x in objects && nameSlot[x] == list[adrSlot[adr]].nlink && objects[x].adr == adr
    {
      var e := list[..];
      if adr in adrSlot {
        NameOfAdr(e, nameSlot, adrSlot, objects, adr);
      }
      if AdrTaken(adr) {
        var x :| x in objects && objects[x].adr == adr;
        AdrOfName(e, nameSlot, adrSlot, objects, x);
      }
    }

    lemma SlotOfName(name: nat)
      requires Valid() && name in objects
      ensures name in nameSlot && 1 <= nameSlot[name] < list.Length && 1 <= list[nameSlot[name]].alink < list.Length
      ensures var k := nameSlot[name];
              && list[k].name == name && list[k].count == objects[name].count && list[k].count > 0
              && list[list[k].alink].adr == objects[name].adr && list[list[k].alink].nlink == k
    {
      AdrOfName(list[..], nameSlot, adrSlot, objects, name);
      assert Key(list[nameSlot[name]], ByName) == name;
    }

    /** The shared probing loop: it stops at a key not above `stop`, at `x`, or after a full circle. */
    method Probe(x: nat, t: Table, stop: nat) returns (k: nat, stopped: bool)
      requires list.Length >= 2
      ensures stopped ==> 1 <= k < list.Length && Passed(list[..], t, x, k, stop)
      ensures stopped ==> Key(list[k], t) <= stop || Key(list[k], t) == x
      ensures !stopped ==> Misses(list[..], t, x, stop)
    {
      var n := list.Length - 1;
      var i := HashFun(x, n);
      k := i;
      while Key(list[k], t) > stop && Key(list[k], t) != x
        invariant 1 <= k <= n && Passed(list[..], t, x, k, stop)
        decreases Distance(i, k, n)
      {
        StepOnPath(n + 1, x, k);
        ghost var here := k;
        k := k + 1;
        if k > n {
          k := 1;
        }
        assert k == Succ(here, n);
        if k == i {
          forall m | 1 <= m < list.Length
            ensures Key(list[..][m], t) > stop && Key(list[..][m], t) != x
          {
            assert Before(list.Length, x, here, m) || m == here;
          }
          return 0, false;
        }
      }
      return k, true;
    }

    method HashFindName(name: nat, inc: bool) returns (adr: nat)
      requires Valid() && name > TOMBSTONE
      modifies this, list
      ensures Valid()
      ensures adr == if name in old(objects) then old(objects)[name].adr else 0
      ensures name in old(objects) && inc ==>
                objects - {name} == old(objects) - {name} && name in objects &&
                objects[name] == Rec(old(objects)[name].adr, old(objects)[name].typ, old(objects)[name].count + 1)
      ensures name !in old(objects) || !inc ==> objects == old(objects)
    {
      var k, stopped := Probe(name, ByName, 0);
      if !stopped {
        FullCircle(list[..], ByName, nameSlot, name, 0);
        return 0;
      }
      ProbeDecides(list[..], ByName, nameSlot, name, k);
      if list[k].name == name {
        SlotOfName(name);
        adr := list[list[k].alink].adr;
        if inc {
          Raise(name, k);
        }
      } else {
        adr := 0;
      }
    }

    /** The name of a registered address and the slot of that name, or 0 twice. */
    method LookUpAdr(adr: nat) returns (name: nat, j: nat)
      requires Valid() && adr > TOMBSTONE
      ensures !AdrTaken(adr) ==> name == 0 && j == 0
      ensures AdrTaken(adr) ==> name in objects && objects[name].adr == adr && j == nameSlot[name] && 1 <= j < list.Length
    {
      TakenIffLive(adr);
      name, j := 0, 0;
      var k, stopped := Probe(adr, ByAdr, 0);
      if !stopped {
        FullCircle(list[..], ByAdr, adrSlot, adr, 0);
        return;
      }
      ProbeDecides(list[..], ByAdr, adrSlot, adr, k);
      if list[k].adr == adr {
        j := list[k].nlink;
        name := list[j].name;
      }
    }

    method HashFindAdr(adr: nat, inc: bool) returns (name: nat)
      requires Valid() && adr > TOMBSTONE
      modifies this, list
      ensures Valid()
      ensures !old(AdrTaken(adr)) ==> name == 0
      ensures old(AdrTaken(adr)) ==> name in old(objects) && old(objects)[name].adr == adr
      ensures old(AdrTaken(adr)) && inc ==>
                objects - {name} == old(objects) - {name} && name in objects &&
                objects[name] == Rec(old(objects)[name].adr, old(objects)[name].typ, old(objects)[name].count + 1)
      ensures !old(AdrTaken(adr)) || !inc ==> objects == old(objects)
    {
      var j;
      name, j := LookUpAdr(adr);
      if j != 0 && inc {
        Raise(name, j);
      }
    }

    /** Stores a live name's reference count. */
    method SetCount(ghost name: nat, k: nat, c: nat)
      requires Valid() && name in objects && k == nameSlot[name] && c > 0
      modifies this`objects, list
      ensures Valid() && objects == old(objects)[name := old(objects)[name].(count := c)]
      ensures list[..] == old(list[..])[k := old(list[k]).(count := c)]
    {
      list[k] := list[k].(count := c);
      CountOk(old(list[..]), list[..], nameSlot, adrSlot, objects, name, c);
      objects := objects[name := objects[name].(count := c)];
    }

    /** One more reference to a live name. */
    method Raise(ghost name: nat, k: nat)
      requires Valid() && name in objects && k == nameSlot[name] && k < list.Length
      modifies this`objects, list
      ensures Valid() && objects - {name} == old(objects) - {name} && name in objects
      ensures objects[name] == Rec(old(objects)[name].adr, old(objects)[name].typ, old(objects)[name].count + 1)
    {
      SlotOfName(name);
      ghost var m := objects;
      SetCount(name, k, list[k].count + 1);
      SetThenWithout(m, name, objects[name]);
    }

    /** One reference less, with some left. */
    method Lower(ghost name: nat, k: nat)
      requires Valid() && name in objects && k == nameSlot[name] && k < list.Length && objects[name].count > 1
      modifies this`objects, list
      ensures Valid() && objects - {name} == old(objects) - {name} && name in objects
      ensures objects[name] == Rec(old(objects)[name].adr, old(objects)[name].typ, old(objects)[name].count - 1)
      ensures list[k].count == old(list[k].count) - 1
      ensures old(list[k].alink) < list.Length && list[old(list[k].alink)].nlink == k
    {
      SlotOfName(name);
      ghost var m := objects;
      SetCount(name, k, list[k].count - 1);
      SetThenWithout(m, name, objects[name]);
    }

    method HashInsAdr(adr: nat, nlink: nat) returns (r: int)
      requires TableOk(list[..], ByAdr, adrSlot) && adr > TOMBSTONE && 1 <= nlink < list.Length
      modifies list
      ensures r < 0 ==> list[..] == old(list[..]) && adr in adrSlot && adrSlot[adr] == -r
      ensures r == 0 ==> list[..] == old(list[..]) && adr !in adrSlot && AllLive(list[..], ByAdr)
      ensures r > 0 ==>
                && r < list.Length && Key(old(list[r]), ByAdr) <= TOMBSTONE
                && Passed(old(list[..]), ByAdr, adr, r, TOMBSTONE)
                && var e := old(list[..])[r := old(list[r]).(adr := adr, nlink := nlink)];
                   list[..] == e[nlink := e[nlink].(alink := r)]
    {
      var k, stopped := Probe(adr, ByAdr, TOMBSTONE);
      if !stopped {
        FullCircle(list[..], ByAdr, adrSlot, adr, TOMBSTONE);
        return 0;
      }
      if list[k].adr == adr {
        ProbeDecides(list[..], ByAdr, adrSlot, adr, k);
        return -(k as int);
      }
      list[k] := list[k].(adr := adr, nlink := nlink);
      list[nlink] := list[nlink].(alink := k);
      return k;
    }

    /** Minus the slot of a live name, 0 when every slot is live, or the free slot that its probe reached. */
    method PlaceForName(name: nat) returns (r: int)
      requires Valid() && name > TOMBSTONE
      requires name in nameSlot ==> Passed(list[..], ByName, name, nameSlot[name], TOMBSTONE)
      ensures r < 0 ==> name in objects && name in nameSlot && nameSlot[name] == -r && -r < list.Length
      ensures r == 0 ==> name !in objects && |objects| == list.Length - 1
      ensures r > 0 ==> name !in objects && name !in nameSlot && r < list.Length && list[r].name <= TOMBSTONE
      ensures r > 0 ==> Passed(list[..], ByName, name, r, TOMBSTONE)
    {
      ghost var e := list[..];
      assert |objects| == |objects.Keys| && |nameSlot| == |nameSlot.Keys|;
      var k, stopped := Probe(name, ByName, TOMBSTONE);
      if !stopped {
        FullCircle(e, ByName, nameSlot, name, TOMBSTONE);
        LiveCounted(e, ByName, nameSlot);
        return 0;
      }
      if list[k].name == name {
        ProbeDecides(e, ByName, nameSlot, name, k);
        return -(k as int);
      }
      FreeMeansNew(e, nameSlot, name, k);
      return k;
    }

    /** A live name only has its count raised, provided that its probe meets no tombstone; a new name is entered
        with its address unless every slot is live. */
    method HashInsName(name: nat, adr: nat, typ: int, inc: bool) returns (r: int)
      requires Valid() && name > TOMBSTONE && adr > TOMBSTONE && !AdrTaken(adr)
      requires name in nameSlot ==> Passed(list[..], ByName, name, nameSlot[name], TOMBSTONE)
      modifies this, list
      ensures Valid()
      ensures r < 0 <==> name in old(objects)
      ensures r == 0 <==> name !in old(objects) && |old(objects)| == list.Length - 1
      ensures r > 0 ==> objects == old(objects)[name := Rec(adr, typ, 1)]
      ensures r < 0 && inc ==>
                objects - {name} == old(objects) - {name} && name in objects &&
                objects[name] == Rec(old(objects)[name].adr, old(objects)[name].typ, old(objects)[name].count + 1)
      ensures r == 0 || (r < 0 && !inc) ==> objects == old(objects)
    {
      r := PlaceForName(name);
      if r < 0 {
        if inc {
          Raise(name, -r);
        }
      } else if r > 0 {
        TakenIffLive(adr);
        Enter(name, adr, typ, r);
      }
    }

    /** Fills the free slot `k` with a new name; its address always finds a slot too. */
    method Enter(name: nat, adr: nat, typ: int, k: nat)
      requires Valid() && name > TOMBSTONE && adr > TOMBSTONE && name !in nameSlot && adr !in adrSlot
      requires 1 <= k < list.Length && list[k].name <= TOMBSTONE && Passed(list[..], ByName, name, k, TOMBSTONE)
      modifies this, list
      ensures Valid() && objects == old(objects)[name := Rec(adr, typ, 1)]
      ensures |old(objects)| < list.Length - 1
    {
      ghost var e := list[..];
      RoomForAdr(e, nameSlot, adrSlot, k);
      assert |objects| == |objects.Keys| && |nameSlot| == |nameSlot.Keys|;
      list[k] := list[k].(name := name, typ := typ, count := 1, alink := 0);
      ghost var e1 := list[..];
      SameTable(e, e1, ByAdr, adrSlot);
      RoomStays(e, e1, ByAdr);
      var j := HashInsAdr(adr, k);
      PassedSame(e, e1, ByAdr, adr, j);
      EnterOk(e, list[..], nameSlot, adrSlot, objects, name, adr, typ, k, j);
      nameSlot, adrSlot, objects := nameSlot[name := k], adrSlot[adr := j], objects[name := Rec(adr, typ, 1)];
    }

    method RtRegister(name: nat, adr: nat, typ: int) returns (r: nat)
      requires Valid() && name > TOMBSTONE && adr > TOMBSTONE && !AdrTaken(adr)
      modifies this, list
      ensures Valid()
      ensures r == 0 <==> name in old(objects) || |old(objects)| == list.Length - 1
      ensures objects == if r == 0 then old(objects) else old(objects)[name := Rec(adr, typ, 1)]
    {
      var found := HashFindName(name, false);
      AdrsAreReal();
      if found != 0 {
        return 0;
      }
      var k := HashInsName(name, adr, typ, true);
      return k;
    }

    lemma AdrsAreReal()
      requires Valid()
      ensures forall x :: x in objects ==> objects[x].adr > TOMBSTONE && objects[x].count > 0
    {
      forall x | x in objects
        ensures objects[x].adr > TOMBSTONE && objects[x].count > 0
      {
        AdrOfName(list[..], nameSlot, adrSlot, objects, x);
      }
    }

    /** Clears the name in slot `k`, decremented first when `dec` is not 0, and then the address it links to. */
    method ClearByName(k: nat, dec: int)
      requires list.Length >= 2 && k < list.Length && 1 <= list[k].alink < list.Length && list[k].count > 0
      modifies list
      ensures list[..] == Removed(old(list[..]), k, old(list[k].alink), old(list[k].count) - if dec == 0 then 0 else 1)
    {
      var n := list.Length - 1;
      if dec != 0 {
        list[k] := list[k].(count := list[k].count - 1);
      }
      var i := if k + 1 > n then 1 else k + 1;
      list[k] := list[k].(name := if list[i].name == 0 then 0 else TOMBSTONE);
      var j := list[k].alink;
      if j != 0 {
        i := if j + 1 > n then 1 else j + 1;
        list[j] := list[j].(adr := if list[i].adr == 0 then 0 else TOMBSTONE);
      }
    }

    /** Clears the address in slot `k`, and then the name it links to. */
    method ClearByAdr(k: nat, dec: int)
      requires list.Length >= 2 && k < list.Length && list[k].nlink < list.Length && list[list[k].nlink].count > 0
      modifies list
      ensures var j := old(list[k].nlink);
              list[..] == Removed(old(list[..]), j, k, old(list[list[k].nlink].count) - if dec == 0 then 0 else 1)
    {
      var n := list.Length - 1;
      var j := list[k].nlink;
      if dec != 0 {
        list[j] := list[j].(count := list[j].count - 1);
      }
      var i := if k + 1 > n then 1 else k + 1;
      list[k] := list[k].(adr := if list[i].adr == 0 then 0 else TOMBSTONE);
      i := if j + 1 > n then 1 else j + 1;
      list[j] := list[j].(name := if list[i].name == 0 then 0 else TOMBSTONE);
    }

    /** Takes a live name out of the books once its slots are cleared. */
    ghost method Forget(e: seq<Entry>, name: nat, j: nat, c: nat)
      requires EntriesOk(e, nameSlot, adrSlot) && Shows(e, nameSlot, objects) && name in objects
      requires j == e[nameSlot[name]].alink < |e| && list[..] == Removed(e, nameSlot[name], j, c)
      modifies this`nameSlot, this`adrSlot, this`objects
      ensures Valid() && objects == old(objects) - {name}
    {
      RemovedOk(e, list[..], nameSlot, adrSlot, objects, name, j, c);
      nameSlot, adrSlot, objects := nameSlot - {name}, adrSlot - {objects[name].adr}, objects - {name};
    }

    method Clear(k: nat, dec: int, viaAdr: bool)
      requires list.Length >= 2 && k < list.Length && 1 <= list[k].alink < list.Length && list[k].count > 0
      requires list[list[k].alink].nlink == k
      modifies list
      ensures list[..] == Removed(old(list[..]), k, old(list[k].alink), old(list[k].count) - if dec == 0 then 0 else 1)
    {
      if viaAdr {
        ClearByAdr(list[k].alink, dec);
      } else {
        ClearByName(k, dec);
      }
    }

    /** Clears both slots of a live name and takes it out of the books. */
    method Strike(ghost name: nat, k: nat, dec: int, viaAdr: bool)
      requires Valid() && name in objects && k == nameSlot[name] && k < list.Length
      modifies this, list
      ensures Valid() && name !in objects && objects - {name} == old(objects) - {name}
      ensures list[k].count == old(list[k].count) - if dec == 0 then 0 else 1
      ensures old(list[k].alink) < list.Length && list[old(list[k].alink)].nlink == k
    {
      SlotOfName(name);
      ghost var e, j, c := list[..], list[k].alink, list[k].count - if dec == 0 then 0 else 1;
      Clear(k, dec, viaAdr);
      RemovedCells(e, list[..], k, j, c);
      Forget(e, name, j, c);
    }

    /** Gives up one reference to a live name, or all of them when `dec` is 0. */
    method Release(ghost name: nat, k: nat, dec: int, viaAdr: bool)
      requires Valid() && name in objects && k == nameSlot[name] && k < list.Length && list[k].count == objects[name].count
      modifies this, list
      ensures Valid() && objects - {name} == old(objects) - {name}
      ensures name in objects <==> dec != 0 && old(objects)[name].count > 1
      ensures name in objects ==> objects[name] == Rec(old(objects)[name].adr, old(objects)[name].typ, old(objects)[name].count - 1)
      ensures list[k].count == old(list[k].count) - if dec == 0 then 0 else 1
      ensures old(list[k].alink) < list.Length && list[old(list[k].alink)].nlink == k
    {
      if dec != 0 && list[k].count > 1 {
        Lower(name, k);
      } else {
        Strike(name, k, dec, viaAdr);
      }
    }

    /** Removal by name: at once when `dec` is 0, otherwise when the last reference goes. */
    method HashRemName(name: nat, dec: int) returns (r: int)
      requires Valid() && name > TOMBSTONE
      modifies this, list
      ensures Valid()
      ensures objects - {name} == old(objects) - {name}
      ensures name in objects <==> name in old(objects) && dec != 0 && old(objects)[name].count > 1
      ensures name in objects ==> objects[name] == Rec(old(objects)[name].adr, old(objects)[name].typ, old(objects)[name].count - 1)
      ensures name !in old(objects) ==> r == dec || r == 0
      ensures name in old(objects) ==> if dec == 0 then r > 0 else r == old(objects)[name].count - 1
    {
      var k, stopped := Probe(name, ByName, 0);
      if !stopped {
        FullCircle(list[..], ByName, nameSlot, name, 0);
        return 0;
      }
      ProbeDecides(list[..], ByName, nameSlot, name, k);
      if list[k].name == name {
        SlotOfName(name);
        Release(name, k, dec, false);
        return if dec != 0 then list[k].count else k;
      }
      return dec;
    }

    /** Removal by address, likewise. */
    method HashRemAdr(adr: nat, dec: int) returns (r: int, ghost name: nat)
      requires Valid() && adr > TOMBSTONE
      modifies this, list
      ensures Valid()
      ensures !old(AdrTaken(adr)) ==> objects == old(objects) && (r == dec || r == 0)
      ensures old(AdrTaken(adr)) ==> name in old(objects) && old(objects)[name].adr == adr
      ensures old(AdrTaken(adr)) ==> objects - {name} == old(objects) - {name}
      ensures old(AdrTaken(adr)) ==> (name in objects <==> dec != 0 && old(objects)[name].count > 1)
      ensures old(AdrTaken(adr)) && name in objects ==>
                objects[name] == Rec(old(objects)[name].adr, old(objects)[name].typ, old(objects)[name].count - 1)
      ensures old(AdrTaken(adr)) ==> if dec == 0 then r > 0 else r == old(objects)[name].count - 1
    {
      TakenIffLive(adr);
      name := 0;
      var k, stopped := Probe(adr, ByAdr, 0);
      if !stopped {
        FullCircle(list[..], ByAdr, adrSlot, adr, 0);
        return 0, 0;
      }
      ProbeDecides(list[..], ByAdr, adrSlot, adr, k);
      if list[k].adr == adr {
        var j := list[k].nlink;
        name := list[j].name;
        SlotOfName(name);
        Release(name, j, dec, true);
        r := if dec != 0 then list[list[k].nlink].count else k;
      } else {
        r := dec;
      }
    }
  }

  /** While a name slot is free, some address slot is free: as many addresses are live as names. */
  lemma RoomForAdr(e: seq<Entry>, ns: map<nat, nat>, as_: map<nat, nat>, k: nat)
    requires EntriesOk(e, ns, as_) && 1 <= k < |e| && e[k].name <= TOMBSTONE
    ensures |ns| < |e| - 1 && !AllLive(e, ByAdr)
  {
    assert Key(e[k], ByName) <= TOMBSTONE;
    KeysCounted(e, ByName, ns);
    if AllLive(e, ByAdr) {
      LiveCounted(e, ByAdr, as_);
    }
  }

  lemma RoomStays(e: seq<Entry>, e': seq<Entry>, t: Table)
    requires |e'| == |e| && !AllLive(e, t)
    requires forall m {:trigger Key(e'[m], t)} {:trigger Key(e[m], t)} :: 1 <= m < |e| ==> Key(e'[m], t) == Key(e[m], t)
    ensures !AllLive(e', t)
  {
  }

  /** A probe that reached a free slot passed no live slot of its key, if that key's own path has no tombstone. */
  lemma FreeMeansNew(e: seq<Entry>, slot: map<nat, nat>, x: nat, k: nat)
    requires TableOk(e, ByName, slot) && x > TOMBSTONE && 1 <= k < |e| && e[k].name <= TOMBSTONE
    requires Passed(e, ByName, x, k, TOMBSTONE)
    requires x in slot ==> Passed(e, ByName, x, slot[x], TOMBSTONE)
    ensures x !in slot
  {
    if x in slot {
      assert Key(e[slot[x]], ByName) == x && Key(e[k], ByName) <= TOMBSTONE;
      Trichotomy(|e|, x, slot[x], k);
    }
  }

  lemma PassedSame(e: seq<Entry>, e': seq<Entry>, t: Table, x: nat, k: nat)
    requires |e| >= 2 && |e'| == |e| && Passed(e', t, x, k, TOMBSTONE)
    requires forall m {:trigger Key(e'[m], t)} {:trigger Key(e[m], t)} :: 1 <= m < |e| ==> Key(e'[m], t) == Key(e[m], t)
    ensures Passed(e, t, x, k, TOMBSTONE)
  {
  }
}
