/** The frequency cache: a heap of entries, at most one for each key, and the
    set of keys that it holds. */
module LFU {
  import opened Common
  import opened Heap
  import opened EntryHeaps

  // ----- the cache as a table ---------------------------------------------------------------

  /** The item of a key. */
  function Lookup(s: seq<Item>, key: string): Option<Item> {
    match IndexOfKey(s, key)
    case None => None
    case Some(i) => Some(s[i])
  }

  predicate Clash(a: Item, b: Item) {
    a != b && a.key == b.key
  }

  /** No item twice, and no two items with one key. */
  ghost predicate Keyed(m: multiset<Item>) {
    && (forall a :: m[a] <= 1)
    && (forall a, b {:trigger Clash(a, b)} :: a in m && b in m ==> !Clash(a, b))
  }

  ghost predicate HasKey(m: multiset<Item>, key: string) {
    exists a :: a in m && a.key == key
  }

  /** What is found depends on the items only, not on where they are in the heap. */
  lemma LookupIs(s: seq<Item>, key: string, a: Item)
    requires Keyed(multiset(s)) && a in multiset(s) && a.key == key
    ensures Lookup(s, key) == Some(a)
  {
    NoIndex(s, key);
    assert a in s;
    var i := IndexOfKey(s, key).value;
    assert s[i] in multiset(s);
    assert !Clash(a, s[i]);
  }

  lemma LookupNone(s: seq<Item>, key: string)
    ensures Lookup(s, key).None? <==> !HasKey(multiset(s), key)
    ensures Lookup(s, key).Some? ==> Lookup(s, key).value in multiset(s) && Lookup(s, key).value.key == key
  {
    NoIndex(s, key);
    forall i | 0 <= i < |s| ensures s[i] in multiset(s) {
    }
    if HasKey(multiset(s), key) {
      var a :| a in multiset(s) && a.key == key;
      assert a in s;
    }
  }

  lemma LookupCong(s: seq<Item>, t: seq<Item>, key: string)
    requires Keyed(multiset(s)) && Keyed(multiset(t))
    requires forall a: Item :: a.key == key ==> (a in multiset(s) <==> a in multiset(t))
    ensures Lookup(s, key) == Lookup(t, key)
  {
    LookupNone(s, key);
    LookupNone(t, key);
    if Lookup(s, key).Some? {
      LookupIs(t, key, Lookup(s, key).value);
    }
  }

  lemma KeyedAdd(m: multiset<Item>, x: Item)
    requires Keyed(m) && !HasKey(m, x.key)
    ensures Keyed(m + multiset{x})
  {
    assert x !in m;
  }

  lemma KeyedRemove(m: multiset<Item>, x: Item)
    requires Keyed(m) && x in m
    ensures Keyed(m - multiset{x}) && !HasKey(m - multiset{x}, x.key)
  {
    var fewer := m - multiset{x};
    forall a | a in fewer ensures a.key != x.key {
      assert !Clash(a, x);
      assert m[x] == 1;
    }
  }

  // ----- the operations on the sequence of items ----------------------------------------------

  function Accessed(x: Item): Item {
    x.(count := x.count + 1)
  }

  function Touch(s: seq<Item>, key: string, now: int): seq<Item> {
    match IndexOfKey(s, key)
    case None => Push(s, Item(key, 1, now))
    case Some(i) => Settle(s[i := Accessed(s[i])], i, |s|)
  }

  function Drop(s: seq<Item>, key: string): seq<Item> {
    match IndexOfKey(s, key)
    case None => s
    case Some(i) => Remove(s, i)
  }

  ghost predicate GoodCache(s: seq<Item>) {
    IsHeap(s, |s|) && Keyed(multiset(s))
  }

  /** The item that an access leaves for its key. */
  function AfterTouch(was: Option<Item>, key: string, now: int): Item {
    if was.Some? then Accessed(was.value) else Item(key, 1, now)
  }

  lemma TouchItems(s: seq<Item>, key: string, now: int)
    requires GoodCache(s)
    ensures GoodCache(Touch(s, key, now))
    ensures var was := Lookup(s, key);
            multiset(Touch(s, key, now)) ==
            (if was.Some? then multiset(s) - multiset{was.value} else multiset(s))
            + multiset{AfterTouch(was, key, now)}
    ensures |Touch(s, key, now)| == |s| + (if Lookup(s, key).Some? then 0 else 1)
  {
    LookupNone(s, key);
    match IndexOfKey(s, key)
    case None =>
      PushKeeps(s, Item(key, 1, now));
      KeyedAdd(multiset(s), Item(key, 1, now));
    case Some(i) =>
      FixKeeps(s, i, Accessed(s[i]));
      KeyedRemove(multiset(s), s[i]);
      KeyedAdd(multiset(s) - multiset{s[i]}, Accessed(s[i]));
  }

  /** An access counts one more for a key that is there, and starts a new entry
      for one that is not; it touches no other key. */
  lemma TouchLookup(s: seq<Item>, key: string, now: int, other: string)
    requires GoodCache(s)
    ensures Lookup(Touch(s, key, now), other) ==
            if other == key then Some(AfterTouch(Lookup(s, key), key, now)) else Lookup(s, other)
  {
    TouchItems(s, key, now);
    LookupNone(s, key);
    if other == key {
      LookupIs(Touch(s, key, now), key, AfterTouch(Lookup(s, key), key, now));
    } else {
      LookupCong(Touch(s, key, now), s, other);
    }
  }

  lemma DropItems(s: seq<Item>, key: string)
    requires GoodCache(s)
    ensures GoodCache(Drop(s, key))
    ensures multiset(Drop(s, key)) ==
            (if Lookup(s, key).Some? then multiset(s) - multiset{Lookup(s, key).value} else multiset(s))
    ensures |Drop(s, key)| == |s| - (if Lookup(s, key).Some? then 1 else 0)
  {
    LookupNone(s, key);
    match IndexOfKey(s, key)
    case None =>
    case Some(i) =>
      RemoveKeeps(s, i);
      KeyedRemove(multiset(s), s[i]);
  }

  lemma RemovedLookup(s: seq<Item>, t: seq<Item>, x: Item, other: string)
    requires Keyed(multiset(s)) && x in multiset(s) && multiset(t) == multiset(s) - multiset{x}
    ensures Lookup(t, other) == if other == x.key then None else Lookup(s, other)
  {
    KeyedRemove(multiset(s), x);
    if other == x.key {
      LookupNone(t, other);
    } else {
      LookupCong(t, s, other);
    }
  }

  lemma DropLookup(s: seq<Item>, key: string, other: string)
    requires GoodCache(s)
    ensures Lookup(Drop(s, key), other) == if other == key then None else Lookup(s, other)
  {
    DropItems(s, key);
    LookupNone(s, key);
    if Lookup(s, key).Some? {
      RemovedLookup(s, Drop(s, key), Lookup(s, key).value, other);
    }
  }

  lemma PopGood(s: seq<Item>)
    requires GoodCache(s) && s != []
    ensures GoodCache(Pop(s))
  {
    PopKeeps(s);
    assert s[0] in multiset(s);
    KeyedRemove(multiset(s), s[0]);
  }

  /** A pop removes exactly one key, the one on top. */
  lemma PopLookup(s: seq<Item>, other: string)
    requires GoodCache(s) && s != []
    ensures Lookup(Pop(s), other) == if other == s[0].key then None else Lookup(s, other)
    ensures Lookup(s, s[0].key) == Some(s[0])
  {
    PopKeeps(s);
    assert s[0] in multiset(s);
    LookupIs(s, s[0].key, s[0]);
    RemovedLookup(s, Pop(s), s[0], other);
  }

  /** No key in the cache is to be evicted before the one on top. */
  lemma PopIsFirst(s: seq<Item>, other: string)
    requires GoodCache(s) && s != [] && Lookup(s, other).Some?
    ensures var cached := Lookup(s, other).value;
            s[0].count < cached.count || (s[0].count == cached.count && s[0].time >= cached.time)
  {
    LookupNone(s, other);
    PopKeeps(s);
    assert !Before(Lookup(s, other).value, s[0]);
  }

  lemma NoneGoesBefore(s: seq<Item>)
    requires GoodCache(s) && s != []
    ensures forall x <- s :: s[0].count < x.count || (s[0].count == x.count && s[0].time >= x.time)
  {
    PopKeeps(s);
    forall x | x in s ensures !Before(x, s[0]) {
      assert x in multiset(s);
    }
  }

  /** Draining lists every key of the table once, by ascending count, newest first on ties. */
  lemma DrainLists(s: seq<Item>)
    requires GoodCache(s)
    ensures forall i, j :: 0 <= i < j < |s| ==>
              var first, second := Drain(s)[i], Drain(s)[j];
              && first.key != second.key
              && (first.count < second.count || (first.count == second.count && first.time >= second.time))
    ensures forall x :: x in Drain(s) <==> Lookup(s, x.key) == Some(x)
  {
    DrainSorts(s);
    var d := Drain(s);
    assert forall x :: x in d <==> x in multiset(d);
    forall x ensures x in d <==> Lookup(s, x.key) == Some(x) {
      LookupNone(s, x.key);
      if x in multiset(s) {
        LookupIs(s, x.key, x);
      }
    }
    forall i, j | 0 <= i < j < |d|
      ensures d[i].key != d[j].key
      ensures d[i].count < d[j].count || (d[i].count == d[j].count && d[i].time >= d[j].time)
    {
      assert !Before(d[j], d[i]);
      if d[i] == d[j] {
        TwiceInSequence(d, i, j);
        assert false;
      }
      assert d[i] in multiset(d) && d[j] in multiset(d);
      assert !Clash(d[i], d[j]);
    }
  }

  lemma TwiceInSequence(d: seq<Item>, i: nat, j: nat)
    requires i < j < |d| && d[i] == d[j]
    ensures multiset(d)[d[i]] >= 2
  {
    assert d == d[..j] + [d[j]] + d[j + 1..];
    assert d[..j][i] == d[i];
    assert d[i] in multiset(d[..j]);
  }

  // ----- runs -----------------------------------------------------------------------------------------

  datatype Op =
    | Update(key: string, now: int)
    | Delete(key: string)
    | PopFirst

  function Step(s: seq<Item>, op: Op): seq<Item> {
    match op
    case Update(key, now) => Touch(s, key, now)
    case Delete(key) => Drop(s, key)
    case PopFirst => if s == [] then s else Pop(s)
  }

  function Run(ops: seq<Op>): seq<Item> {
    if ops == [] then [] else Step(Run(ops[..|ops| - 1]), ops[|ops| - 1])
  }

  /** Whether the operation makes `key` leave a cache that holds `s`. */
  predicate Evicts(s: seq<Item>, op: Op, key: string) {
    match op
    case Update(_, _) => false
    case Delete(deleted) => deleted == key
    case PopFirst => s != [] && s[0].key == key
  }

  /** The number of `Update(key)` calls since the key last entered, 0 if it is out. */
  function Accesses(ops: seq<Op>, key: string): nat {
    if ops == [] then 0
    else
      var before, last := ops[..|ops| - 1], ops[|ops| - 1];
      if Evicts(Run(before), last, key) then 0
      else Accesses(before, key) + if last.Update? && last.key == key then 1 else 0
  }

  /** When the key last entered. */
  function Entered(ops: seq<Op>, key: string): int {
    if ops == [] then 0
    else
      var before, last := ops[..|ops| - 1], ops[|ops| - 1];
      if last.Update? && last.key == key && Accesses(before, key) == 0 then last.now
      else Entered(before, key)
  }

  /** The entry that the calls so far should have left for the key. */
  function Expected(ops: seq<Op>, key: string): Option<Item> {
    if Accesses(ops, key) == 0 then None
    else Some(Item(key, Accesses(ops, key), Entered(ops, key)))
  }

  lemma StepGood(s: seq<Item>, op: Op)
    requires GoodCache(s)
    ensures GoodCache(Step(s, op))
  {
    match op
    case Update(key, now) => TouchItems(s, key, now);
    case Delete(key) => DropItems(s, key);
    case PopFirst => if s != [] { PopGood(s); }
  }

  /** The entry of `key` after an operation on a cache that holds `s`. */
  function AfterOp(s: seq<Item>, op: Op, was: Option<Item>, key: string): Option<Item> {
    if Evicts(s, op, key) then None
    else if op.Update? && op.key == key then Some(AfterTouch(was, key, op.now))
    else was
  }

  lemma StepLookup(s: seq<Item>, op: Op, key: string)
    requires GoodCache(s)
    ensures Lookup(Step(s, op), key) == AfterOp(s, op, Lookup(s, key), key)
  {
    match op
    case Update(k, now) => TouchLookup(s, k, now, key);
    case Delete(k) => DropLookup(s, k, key);
    case PopFirst => if s != [] { PopLookup(s, key); }
  }

  lemma ExpectedLast(ops: seq<Op>, key: string)
    requires ops != []
    ensures Expected(ops, key) ==
            AfterOp(Run(ops[..|ops| - 1]), ops[|ops| - 1], Expected(ops[..|ops| - 1], key), key)
  {
  }

  /** After every run the cache is a heap with one entry a key, and each entry
      carries the number of accesses since the key entered and the time it entered. */
  lemma {:induction false} RunCounts(ops: seq<Op>)
    ensures GoodCache(Run(ops))
    ensures forall key :: Lookup(Run(ops), key) == Expected(ops, key)
  {
    if ops != [] {
      RunCounts(ops[..|ops| - 1]);
      StepGood(Run(ops[..|ops| - 1]), ops[|ops| - 1]);
      forall key ensures Lookup(Run(ops), key) == Expected(ops, key) {
        StepLookup(Run(ops[..|ops| - 1]), ops[|ops| - 1], key);
        ExpectedLast(ops, key);
      }
    }
  }

  /** After every run, the key popped next has been accessed no more often than any other
      cached key, and among those accessed as often it has entered last. */
  lemma RunPopsLeastUsed(ops: seq<Op>, other: string)
    requires Run(ops) != [] && 0 < Accesses(ops, other)
    ensures var popped := Run(ops)[0].key;
            && 0 < Accesses(ops, popped) <= Accesses(ops, other)
            && (Accesses(ops, popped) == Accesses(ops, other) ==> Entered(ops, popped) >= Entered(ops, other))
  {
    RunCounts(ops);
    var popped := Run(ops)[0].key;
    PopLookup(Run(ops), popped);
    PopIsFirst(Run(ops), other);
    assert Lookup(Run(ops), popped) == Expected(ops, popped) && Lookup(Run(ops), other) == Expected(ops, other);
  }

  lemma OneMoreUpdate(ops: seq<Op>, key: string, now: int, other: string)
    ensures Accesses(ops + [Update(key, now)], other) == Accesses(ops, other) + (if other == key then 1 else 0)
  {
    assert (ops + [Update(key, now)])[..|ops|] == ops;
  }

  /** Of two keys the one accessed less often is popped. */
  lemma LessUsedGoesFirst(once: string, often: string, now: int)
    requires once != often
    ensures var ops := [] + [Update(often, now)] + [Update(once, now)] + [Update(often, now)];
            Run(ops) != [] && Run(ops)[0].key == once
  {
    var one := [] + [Update(often, now)];
    var two := one + [Update(once, now)];
    var ops := two + [Update(often, now)];
    RunCounts(ops);
    OnceCounts(once, often, now, once);
    assert Lookup(Run(ops), once) == Expected(ops, once);
    var popped := Run(ops)[0].key;
    OnceCounts(once, often, now, popped);
    RunPopsLeastUsed(ops, once);
  }

  lemma OnceCounts(once: string, often: string, now: int, key: string)
    requires once != often
    ensures Accesses([] + [Update(often, now)] + [Update(once, now)] + [Update(often, now)], key) ==
            if key == once then 1 else if key == often then 2 else 0
  {
    OneMoreUpdate([], often, now, key);
    OneMoreUpdate([] + [Update(often, now)], once, now, key);
    OneMoreUpdate([] + [Update(often, now)] + [Update(once, now)], often, now, key);
  }

  // ----- the key set ---------------------------------------------------------------------------------------

  ghost predicate KeysOf(s: seq<Item>, keys: set<string>) {
    forall key :: key in keys <==> Lookup(s, key).Some?
  }

  lemma TouchKeys(s: seq<Item>, keys: set<string>, key: string, now: int)
    requires GoodCache(s) && KeysOf(s, keys)
    ensures GoodCache(Touch(s, key, now)) && KeysOf(Touch(s, key, now), keys + {key})
    ensures key in keys <==> IndexOfKey(s, key).Some?
    ensures key in keys ==> keys + {key} == keys
    ensures key !in keys ==> Touch(s, key, now) == Push(s, Item(key, 1, now))
  {
    TouchItems(s, key, now);
    forall k ensures k in keys + {key} <==> Lookup(Touch(s, key, now), k).Some? {
      TouchLookup(s, key, now, k);
    }
  }

  lemma PopKeys(s: seq<Item>, keys: set<string>)
    requires GoodCache(s) && KeysOf(s, keys) && s != []
    ensures GoodCache(Pop(s)) && KeysOf(Pop(s), keys - {s[0].key})
    ensures PopLayout(s)[|s| - 1] == s[0]
  {
    PopKeeps(s);
    PopGood(s);
    forall k ensures k in keys - {s[0].key} <==> Lookup(Pop(s), k).Some? {
      PopLookup(s, k);
    }
  }

  lemma DropKeys(s: seq<Item>, keys: set<string>, key: string)
    requires GoodCache(s) && KeysOf(s, keys)
    ensures GoodCache(Drop(s, key)) && KeysOf(Drop(s, key), keys - {key})
    ensures match IndexOfKey(s, key)
            case None => keys - {key} == keys
            case Some(i) => RemoveLayout(s, i)[|s| - 1] == s[i]
  {
    DropItems(s, key);
    if IndexOfKey(s, key).Some? {
      RemoveKeeps(s, IndexOfKey(s, key).value);
    }
    forall k ensures k in keys - {key} <==> Lookup(Drop(s, key), k).Some? {
      DropLookup(s, key, k);
    }
  }

  // ----- the cache -----------------------------------------------------------------------------------------

  class CacheLFU {
    var keys: set<string>
    const heap: EntryHeap

    constructor ()
      ensures Valid() && fresh(Repr())
      ensures heap.Items() == [] && keys == {}
    {
      keys := {};
      heap := new EntryHeap();
    }

    ghost function Repr(): set<object>
      reads heap
    {
      {this, heap} + heap.Objects()
    }

    ghost predicate Valid()
      reads this, heap, heap.Objects()
    {
      && heap.Valid()
      && GoodCache(heap.Items())
      && KeysOf(heap.Items(), keys)
    }

    ghost function Items(): seq<Item>
      requires Valid()
      reads this, heap, heap.Objects()
    {
      heap.Items()
    }

    method GetCount(key: string) returns (count: Option<int>)
      requires Valid()
      ensures count == if Lookup(Items(), key).Some? then Some(Lookup(Items(), key).value.count) else None
    {
      var slot := heap.IndexOf(key);
      match slot
      case None => count := None;
      case Some(i) => count := Some(heap.entries[i].count);
    }

    /** `heap.Push` on the cache. */
    method HeapPush(key: string, now: int)
      requires Valid() && key !in keys
      modifies Repr()
      ensures Valid() && fresh(Repr() - old(Repr()))
      ensures Items() == Touch(old(Items()), key, now)
    {
      TouchKeys(Items(), keys, key, now);
      heap.Append(key, 1, now);
      keys := keys + {key};
      heap.SiftUp(|heap.entries| - 1);
    }

    /** `heap.Pop` on the cache. */
    method HeapPop() returns (key: string)
      requires Valid() && Items() != []
      modifies Repr()
      ensures Valid() && Repr() <= old(Repr())
      ensures key == old(Items())[0].key
      ensures Items() == Pop(old(Items()))
      ensures forall x <- old(Items()) ::
                old(Items())[0].count < x.count
                || (old(Items())[0].count == x.count && old(Items())[0].time >= x.time)
    {
      NoneGoesBefore(Items());
      PopKeys(Items(), keys);
      key := heap.PopEntry();
      keys := keys - {key};
    }

    method Update(key: string, now: int)
      requires Valid()
      modifies Repr()
      ensures Valid() && fresh(Repr() - old(Repr()))
      ensures Items() == Touch(old(Items()), key, now)
    {
      if key !in keys {
        HeapPush(key, now);
      } else {
        CountAccess(key, now);
      }
    }

    /** One access more for a key that is there; `now` is not stored. */
    method CountAccess(key: string, ghost now: int)
      requires Valid() && key in keys
      modifies heap, heap.Objects()
      ensures Valid() && heap.Objects() == old(heap.Objects())
      ensures Items() == Touch(old(Items()), key, now)
    {
      TouchKeys(Items(), keys, key, now);
      var slot := heap.IndexOf(key);
      var i := slot.value;
      heap.ReviseEntry(i, heap.entries[i].count + 1, heap.entries[i].time);
    }

    method Delete(key: string)
      requires Valid()
      modifies Repr()
      ensures Valid() && Repr() <= old(Repr())
      ensures Items() == Drop(old(Items()), key)
    {
      var slot := heap.IndexOf(key);
      if slot.Some? {
        RemoveAt(key, slot.value);
      }
    }

    /** `heap.Remove` on the cache. */
    method RemoveAt(key: string, slot: nat)
      requires Valid() && IndexOfKey(Items(), key) == Some(slot)
      modifies Repr()
      ensures Valid() && Repr() <= old(Repr())
      ensures Items() == Drop(old(Items()), key)
    {
      DropKeys(Items(), keys, key);
      var removed := heap.RemoveEntry(slot);
      keys := keys - {removed};
    }

    /** Flushing leaves a cache that can still be used exactly when it was empty:
        the slots are zeroed, not removed. */
    method Flush()
      modifies this, heap
      ensures keys == {} && |heap.entries| == |old(heap.entries)| && Repr() == {this, heap}
      ensures Valid() <==> old(heap.entries) == []
    {
      keys := {};
      heap.Clear();
      if heap.entries == [] {
        assert heap.Items() == [];
      } else {
        assert heap.entries[0] == null;
      }
    }
  }
}
