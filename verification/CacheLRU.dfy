/** The recency cache.  Its key set is never filled, so every access pushes one
    more entry: a key has as many entries as it had accesses. */
module LRU {
  import opened Common
  import opened Heap
  import opened EntryHeaps
  import LFU

  function Refreshed(x: Item, now: int): Item {
    x.(time := now)
  }

  function RefreshedFirst(s: seq<Item>, key: string, now: int): seq<Item> {
    match IndexOfKey(s, key)
    case None => s
    case Some(i) => Settle(s[i := Refreshed(s[i], now)], i, |s|)
  }

  /** An access reads the clock twice: for the pushed entry, and then for the
      first entry of the key in the slice, which need not be the pushed one. */
  function Touch(s: seq<Item>, key: string, pushed: int, now: int): seq<Item> {
    RefreshedFirst(Push(s, Item(key, 0, pushed)), key, now)
  }

  /** Entries without a count: `Before` is then the source's Less, by which the later
      time is evicted first. */
  ghost predicate GoodCache(s: seq<Item>) {
    IsHeap(s, |s|) && forall x :: x in multiset(s) ==> x.count == 0
  }

  lemma TouchItems(s: seq<Item>, key: string, pushed: int, now: int) returns (y: Item)
    requires GoodCache(s)
    ensures y in multiset(s) + multiset{Item(key, 0, pushed)} && y.key == key
    ensures GoodCache(Touch(s, key, pushed, now)) && |Touch(s, key, pushed, now)| == |s| + 1
    ensures multiset(Touch(s, key, pushed, now)) ==
            multiset(s) + multiset{Item(key, 0, pushed)} - multiset{y} + multiset{Refreshed(y, now)}
    ensures IndexOfKey(Push(s, Item(key, 0, pushed)), key).Some?
  {
    var x := Item(key, 0, pushed);
    var t := Push(s, x);
    PushKeeps(s, x);
    LFU.LookupNone(t, key);
    assert x in multiset(t);
    var i := IndexOfKey(t, key).value;
    y := t[i];
    FixKeeps(t, i, Refreshed(t[i], now));
  }

  lemma TouchGood(s: seq<Item>, key: string, pushed: int, now: int)
    requires GoodCache(s)
    ensures GoodCache(Touch(s, key, pushed, now))
    ensures IndexOfKey(Push(s, Item(key, 0, pushed)), key).Some?
  {
    var _ := TouchItems(s, key, pushed, now);
  }

  lemma PushGood(s: seq<Item>, x: Item)
    requires GoodCache(s) && x.count == 0
    ensures GoodCache(Push(s, x))
  {
    PushKeeps(s, x);
  }

  lemma PopGood(s: seq<Item>)
    requires GoodCache(s) && s != []
    ensures GoodCache(Pop(s)) && PopLayout(s)[|s| - 1] == s[0]
  {
    PopKeeps(s);
  }

  lemma RemoveGood(s: seq<Item>, i: nat)
    requires GoodCache(s) && i < |s|
    ensures GoodCache(Remove(s, i))
  {
    RemoveKeeps(s, i);
  }

  // ----- runs of accesses ------------------------------------------------------------------------

  datatype Access = Access(key: string, pushed: int, now: int)

  function Run(accesses: seq<Access>): seq<Item> {
    if accesses == [] then []
    else
      var last := accesses[|accesses| - 1];
      Touch(Run(accesses[..|accesses| - 1]), last.key, last.pushed, last.now)
  }

  ghost predicate ClockRuns(accesses: seq<Access>) {
    && (forall i :: 0 <= i < |accesses| ==> accesses[i].pushed <= accesses[i].now)
    && (forall i, j :: 0 <= i < j < |accesses| ==> accesses[i].now <= accesses[j].pushed)
  }

  function LastAccess(accesses: seq<Access>, key: string): Option<int> {
    if accesses == [] then None
    else if accesses[|accesses| - 1].key == key then Some(accesses[|accesses| - 1].now)
    else LastAccess(accesses[..|accesses| - 1], key)
  }

  /** The entries of `key` are no later than `last`, and one of them is that late. */
  ghost predicate Latest(m: multiset<Item>, key: string, last: Option<int>) {
    match last
    case None => forall x :: x in m ==> x.key != key
    case Some(t) =>
      && (forall x :: x in m && x.key == key ==> x.time <= t)
      && (exists x :: x in m && x.key == key && x.time == t)
  }

  lemma LatestOther(m: multiset<Item>, m': multiset<Item>, key: string, last: Option<int>)
    requires forall x: Item :: x.key == key ==> m[x] == m'[x]
    requires Latest(m, key, last)
    ensures Latest(m', key, last)
  {
    if last.Some? {
      var x :| x in m && x.key == key && x.time == last.value;
      assert x in m';
    }
  }

  ghost predicate NoLaterThan(m: multiset<Item>, now: int) {
    forall x :: x in m ==> x.time <= now
  }

  lemma TouchBounded(s: seq<Item>, key: string, pushed: int, now: int)
    requires GoodCache(s) && pushed <= now && NoLaterThan(multiset(s), now)
    ensures NoLaterThan(multiset(Touch(s, key, pushed, now)), now)
    ensures Latest(multiset(Touch(s, key, pushed, now)), key, Some(now))
  {
    var y := TouchItems(s, key, pushed, now);
    var m' := multiset(Touch(s, key, pushed, now));
    forall x | x in m' ensures x.time <= now {
      assert x in multiset(s) || x == Item(key, 0, pushed) || x == Refreshed(y, now);
    }
    assert Refreshed(y, now) in m';
  }

  lemma TouchLatest(s: seq<Item>, key: string, pushed: int, now: int, other: string, last: Option<int>)
    requires GoodCache(s) && pushed <= now && NoLaterThan(multiset(s), now)
    requires Latest(multiset(s), other, last)
    ensures Latest(multiset(Touch(s, key, pushed, now)), other, if other == key then Some(now) else last)
  {
    if other == key {
      TouchBounded(s, key, pushed, now);
    } else {
      var y := TouchItems(s, key, pushed, now);
      LatestOther(multiset(s), multiset(Touch(s, key, pushed, now)), other, last);
    }
  }

  lemma ClockSoFar(accesses: seq<Access>)
    requires ClockRuns(accesses) && accesses != []
    ensures ClockRuns(accesses[..|accesses| - 1])
    ensures accesses[|accesses| - 1].pushed <= accesses[|accesses| - 1].now
    ensures 1 < |accesses| ==> accesses[|accesses| - 2].now <= accesses[|accesses| - 1].now
  {
  }

  ghost predicate AllLatest(accesses: seq<Access>) {
    forall key :: Latest(multiset(Run(accesses)), key, LastAccess(accesses, key))
  }

  /** After any run of accesses under a clock that never goes back: a heap, one
      entry an access, and the latest entry of each key has its last access time. */
  lemma {:induction false} RunLatest(accesses: seq<Access>)
    requires ClockRuns(accesses)
    ensures GoodCache(Run(accesses)) && |Run(accesses)| == |accesses| && AllLatest(accesses)
    ensures accesses != [] ==> NoLaterThan(multiset(Run(accesses)), accesses[|accesses| - 1].now)
  {
    if accesses != [] {
      var n := |accesses| - 1;
      ClockSoFar(accesses);
      RunLatest(accesses[..n]);
      assert NoLaterThan(multiset(Run(accesses[..n])), accesses[n].now);
      RunLatestStep(accesses);
    }
  }

  lemma RunLatestStep(accesses: seq<Access>)
    requires accesses != []
    requires var before, last := accesses[..|accesses| - 1], accesses[|accesses| - 1];
             && GoodCache(Run(before)) && |Run(before)| == |before| && AllLatest(before)
             && last.pushed <= last.now && NoLaterThan(multiset(Run(before)), last.now)
    ensures GoodCache(Run(accesses)) && |Run(accesses)| == |accesses| && AllLatest(accesses)
    ensures NoLaterThan(multiset(Run(accesses)), accesses[|accesses| - 1].now)
  {
    var before, last := accesses[..|accesses| - 1], accesses[|accesses| - 1];
    var s := Run(before);
    var _ := TouchItems(s, last.key, last.pushed, last.now);
    TouchBounded(s, last.key, last.pushed, last.now);
    forall key ensures Latest(multiset(Run(accesses)), key, LastAccess(accesses, key)) {
      TouchLatest(s, last.key, last.pushed, last.now, key, LastAccess(before, key));
    }
  }

  ghost predicate FirstAppearance(d: seq<Item>, i: nat) {
    i < |d| && forall j :: 0 <= j < i ==> d[j].key != d[i].key
  }

  ghost predicate ByTime(d: seq<Item>) {
    forall i, j :: 0 <= i < j < |d| ==> d[i].time >= d[j].time
  }

  lemma DrainByTime(s: seq<Item>)
    requires GoodCache(s)
    ensures |Drain(s)| == |s| && ByTime(Drain(s))
    ensures forall x :: x in Drain(s) <==> x in multiset(s)
  {
    DrainSorts(s);
    var d := Drain(s);
    assert forall x :: x in d <==> x in multiset(d);
    forall i, j | 0 <= i < j < |d| ensures d[i].time >= d[j].time {
      assert d[i] in d && d[j] in d;
      assert !Before(d[j], d[i]);
    }
  }

  /** Draining gives times that never increase, and where a key appears first
      it carries its last access time. */
  lemma DrainIsByRecency(accesses: seq<Access>, i: nat)
    requires ClockRuns(accesses) && FirstAppearance(Drain(Run(accesses)), i)
    ensures |Drain(Run(accesses))| == |accesses| && ByTime(Drain(Run(accesses)))
    ensures LastAccess(accesses, Drain(Run(accesses))[i].key) == Some(Drain(Run(accesses))[i].time)
  {
    var d := Drain(Run(accesses));
    RunLatest(accesses);
    DrainByTime(Run(accesses));
    assert Latest(multiset(Run(accesses)), d[i].key, LastAccess(accesses, d[i].key));
    FirstIsLatest(Run(accesses), d, i, LastAccess(accesses, d[i].key));
  }

  /** Every accessed key appears; so first appearances list the accessed keys,
      each once, the most recently accessed first. */
  lemma AccessedKeyAppears(accesses: seq<Access>, key: string) returns (i: nat)
    requires ClockRuns(accesses) && LastAccess(accesses, key).Some?
    ensures FirstAppearance(Drain(Run(accesses)), i) && Drain(Run(accesses))[i].key == key
  {
    var d := Drain(Run(accesses));
    RunLatest(accesses);
    DrainByTime(Run(accesses));
    assert Latest(multiset(Run(accesses)), key, LastAccess(accesses, key));
    var x: Item :| x in multiset(Run(accesses)) && x.key == key;
    assert x in d;
    var k :| 0 <= k < |d| && d[k] == x;
    i := FindFirst(d, k);
  }

  lemma FirstIsLatest(s: seq<Item>, d: seq<Item>, i: nat, last: Option<int>)
    requires forall x :: x in d <==> x in multiset(s)
    requires ByTime(d)
    requires FirstAppearance(d, i) && Latest(multiset(s), d[i].key, last)
    ensures last == Some(d[i].time)
  {
    assert d[i] in d;
    var x: Item :| x in multiset(s) && x.key == d[i].key && x.time == last.value;
    assert x in d;
    var k :| 0 <= k < |d| && d[k] == x;
    assert i <= k;
  }

  lemma {:induction false} FindFirst(d: seq<Item>, k: nat) returns (i: nat)
    requires k < |d|
    ensures FirstAppearance(d, i) && d[i].key == d[k].key
  {
    i := k;
    if j: nat :| j < k && d[j].key == d[k].key {
      i := FindFirst(d, j);
    }
  }

  // ----- which key goes first --------------------------------------------------------------------------

  predicate Accessed(accesses: seq<Access>, key: string) {
    LastAccess(accesses, key).Some?
  }

  /** No key was last accessed before `key`: what a least-recently-used policy evicts. */
  ghost predicate LeastRecent(accesses: seq<Access>, key: string) {
    && Accessed(accesses, key)
    && forall other :: Accessed(accesses, other) ==>
         LastAccess(accesses, key).value <= LastAccess(accesses, other).value
  }

  ghost predicate AllAtOnce(accesses: seq<Access>) {
    forall k, k' :: Accessed(accesses, k) && Accessed(accesses, k') ==>
      LastAccess(accesses, k) == LastAccess(accesses, k')
  }

  /** The popped key is a most recently accessed one. */
  lemma PopIsMostRecent(accesses: seq<Access>, other: string)
    requires ClockRuns(accesses) && accesses != [] && Accessed(accesses, other)
    ensures |Run(accesses)| == |accesses| && Accessed(accesses, Run(accesses)[0].key)
    ensures LastAccess(accesses, other).value <= LastAccess(accesses, Run(accesses)[0].key).value
  {
    RunLatest(accesses);
    var s := Run(accesses);
    PopKeeps(s);
    assert s[0] in multiset(s);
    assert Latest(multiset(s), s[0].key, LastAccess(accesses, s[0].key));
    assert Latest(multiset(s), other, LastAccess(accesses, other));
    var x: Item :| x in multiset(s) && x.key == other && x.time == LastAccess(accesses, other).value;
    assert !Before(x, s[0]);
  }

  /** So it is a least recently accessed one exactly when all keys were last accessed
      at one time. */
  lemma PopsLeastRecentIff(accesses: seq<Access>)
    requires ClockRuns(accesses) && accesses != []
    ensures |Run(accesses)| == |accesses|
    ensures LeastRecent(accesses, Run(accesses)[0].key) <==> AllAtOnce(accesses)
  {
    var last := accesses[|accesses| - 1].key;
    PopIsMostRecent(accesses, last);
    var popped := Run(accesses)[0].key;
    forall other | Accessed(accesses, other)
      ensures LastAccess(accesses, other).value <= LastAccess(accesses, popped).value
    {
      PopIsMostRecent(accesses, other);
    }
  }

  /** Two keys, one accessed after the other: the later one goes first. */
  lemma LaterGoesFirst(first: string, second: string, now: int, later: int)
    requires first != second && now < later
    ensures var accesses := [Access(first, now, now), Access(second, later, later)];
            && ClockRuns(accesses) && |Run(accesses)| == 2
            && Run(accesses)[0].key == second && !LeastRecent(accesses, second)
  {
    var accesses := [Access(first, now, now), Access(second, later, later)];
    var one := [Access(first, now, now)];
    assert accesses[..1] == one && one[..0] == [];
    PopIsMostRecent(accesses, second);
    PopsLeastRecentIff(accesses);
    var popped := Run(accesses)[0].key;
    assert LastAccess(one, popped) == if popped == first then Some(now) else None;
    assert LastAccess(one, first) == Some(now) && LastAccess(accesses, second) == Some(later);
    assert Accessed(accesses, first) && LastAccess(accesses, first).value < LastAccess(accesses, second).value;
  }

  // ----- the cache -----------------------------------------------------------------------------------

  class CacheLRU {
    var keys: set<string>
    const heap: EntryHeap

    constructor ()
      ensures Valid() && fresh(Repr())
      ensures heap.Items() == []
    {
      keys := {};
      heap := new EntryHeap();
    }

    ghost function Repr(): set<object>
      reads heap
    {
      {this, heap} + heap.Objects()
    }

    ghost predicate Valid()
      reads this, heap, heap.Objects()
    {
      heap.Valid() && GoodCache(heap.Items()) && keys == {}
    }

    ghost function Items(): seq<Item>
      requires Valid()
      reads this, heap, heap.Objects()
    {
      heap.Items()
    }

    /** `heap.Push` on the cache: the key set is not told. */
    method HeapPush(key: string, pushed: int)
      requires Valid()
      modifies Repr()
      ensures Valid() && fresh(Repr() - old(Repr()))
      ensures Items() == Push(old(Items()), Item(key, 0, pushed))
    {
      PushGood(Items(), Item(key, 0, pushed));
      heap.Append(key, 0, pushed);
      heap.SiftUp(|heap.entries| - 1);
    }

    method Update(key: string, pushed: int, now: int)
      requires Valid()
      modifies Repr()
      ensures Valid() && fresh(Repr() - old(Repr()))
      ensures Items() == Touch(old(Items()), key, pushed, now)
    {
      TouchGood(Items(), key, pushed, now);
      if key !in keys {
        HeapPush(key, pushed);
      }
      RefreshFirst(key, now);
    }

    /** The first entry of the key gets the time of access. */
    method RefreshFirst(key: string, now: int)
      requires Valid() && IndexOfKey(Items(), key).Some?
      requires GoodCache(RefreshedFirst(Items(), key, now))
      modifies heap, heap.Objects()
      ensures Valid() && heap.Objects() == old(heap.Objects())
      ensures Items() == RefreshedFirst(old(Items()), key, now)
    {
      var slot := heap.IndexOf(key);
      heap.ReviseEntry(slot.value, heap.entries[slot.value].count, now);
    }

    /** `heap.Pop` on the cache. */
    method HeapPop() returns (key: string)
      requires Valid() && Items() != []
      modifies Repr()
      ensures Valid() && Repr() <= old(Repr())
      ensures key == old(Items())[0].key
      ensures Items() == Pop(old(Items()))
    {
      ghost var items := Items();
      PopGood(items);
      key := heap.PopEntry();
      keys := keys - {key};
      assert keys == {} && heap.Items() == Pop(items);
    }

    /** Removes one entry of the key, the first in the slice. */
    method Delete(key: string)
      requires Valid()
      modifies Repr()
      ensures Valid() && Repr() <= old(Repr())
      ensures Items() == LFU.Drop(old(Items()), key)
    {
      var slot := heap.IndexOf(key);
      if slot.Some? {
        RemoveAt(slot.value);
      }
    }

    /** `heap.Remove` on the cache. */
    method RemoveAt(slot: nat)
      requires Valid() && slot < |Items()|
      modifies Repr()
      ensures Valid() && Repr() <= old(Repr())
      ensures Items() == Remove(old(Items()), slot)
    {
      RemoveGood(Items(), slot);
      var removed := heap.RemoveEntry(slot);
      keys := keys - {removed};
    }

    /** As of the frequency cache: the slots are zeroed, not removed. */
    method Flush()
      modifies this, heap
      ensures keys == {} && |heap.entries| == |old(heap.entries)| && Repr() == {this, heap}
      ensures Valid() <==> old(heap.entries) == []
    {
      keys := {};
      heap.Clear();
      if heap.entries == [] {
        assert heap.Items() == [];
      } else {
        assert heap.entries[0] == null;
      }
    }
  }
}
