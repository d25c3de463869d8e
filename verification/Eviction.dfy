/** Evicting the least frequently used keys until memory is under the limit. */
module Eviction {
  import opened Common
  import opened Database
  import opened Keyspace
  import Heap
  import LFU

  type Items = seq<Heap.Item>

  // ----- the limit -------------------------------------------------------------------------

  const TWO_TO_64: int := 0x1_0000_0000_0000_0000

  /** Go's conversion of an int64 to uint64. */
  function ToUint64(n: int): int {
    if n < 0 then n + TWO_TO_64 else n
  }

  predicate UnderLimit(memUsed: int, maxMemory: nat) {
    ToUint64(memUsed) < maxMemory
  }

  // ----- evictions as functions ----------------------------------------------------------------

  function PopMany(items: Items, n: nat): Items
    requires n <= |items|
    decreases n
  {
    if n == 0 then items else PopMany(Heap.Pop(items), n - 1)
  }

  function KeysIn(items: Items): seq<string> {
    seq(|items|, i requires 0 <= i < |items| => items[i].key)
  }

  /** The keys in the order in which the heap gives them up. */
  function DrainKeys(items: Items): (r: seq<string>)
    ensures |r| == |items|
  {
    KeysIn(Heap.Drain(items))
  }

  function DeleteMany(s: Data, database: int, keys: seq<string>): Data
    decreases |keys|
  {
    if keys == [] then s else DeleteMany(Deleted(s, database, keys[0]), database, keys[1..])
  }

  lemma DrainKeysNext(items: Items, n: nat)
    requires 0 < n <= |items|
    ensures DrainKeys(items)[..n] == [items[0].key] + DrainKeys(Heap.Pop(items))[..n - 1]
  {
    assert DrainKeys(items)[1..] == DrainKeys(Heap.Pop(items));
    assert DrainKeys(items)[0] == items[0].key;
  }

  lemma {:induction false} PopManyKeepsGood(items: Items, n: nat)
    requires LFU.GoodCache(items) && n <= |items|
    ensures LFU.GoodCache(PopMany(items, n))
    decreases n
  {
    if 0 < n {
      LFU.PopGood(items);
      PopManyKeepsGood(Heap.Pop(items), n - 1);
    }
  }

  lemma {:induction false} PopManyLookup(items: Items, n: nat, key: string)
    requires LFU.GoodCache(items) && n <= |items|
    ensures LFU.Lookup(PopMany(items, n), key) ==
            if key in DrainKeys(items)[..n] then None else LFU.Lookup(items, key)
    decreases n
  {
    if 0 < n {
      var rest, first := Heap.Pop(items), items[0].key;
      assert LFU.GoodCache(rest) by {
        LFU.PopGood(items);
      }
      PopManyLookup(rest, n - 1, key);
      DrainKeysNext(items, n);
      assert key in DrainKeys(items)[..n] <==> key == first || key in DrainKeys(rest)[..n - 1];
      assert LFU.Lookup(rest, key) == if key == first then None else LFU.Lookup(items, key) by {
        LFU.PopLookup(items, key);
      }
    }
  }

  lemma PopManyGood(items: Items, n: nat)
    requires LFU.GoodCache(items) && n <= |items|
    ensures LFU.GoodCache(PopMany(items, n))
    ensures forall key :: LFU.Lookup(PopMany(items, n), key) ==
                          if key in DrainKeys(items)[..n] then None else LFU.Lookup(items, key)
  {
    PopManyKeepsGood(items, n);
    forall key
      ensures LFU.Lookup(PopMany(items, n), key) ==
              if key in DrainKeys(items)[..n] then None else LFU.Lookup(items, key)
    {
      PopManyLookup(items, n, key);
    }
  }

  // ----- the loop ----------------------------------------------------------------------------------

  datatype Outcome = WithinLimit | CacheEmpty | DeleteFailed

  datatype Evicted = Evicted(data: Data, items: Items, outcome: Outcome)

  /** The loop pops, deletes and then looks at the limit.  The pop comes before the
      deletion is tried, so a deletion that fails still costs the cache its first key. */
  function EvictLoop(s: Data, database: int, items: Items, maxMemory: nat): Evicted
    decreases |items|
  {
    if items == [] then Evicted(s, items, CacheEmpty)
    else
      var key, rest := items[0].key, Heap.Pop(items);
      if !Deletable(s, database, key) then Evicted(s, rest, DeleteFailed)
      else
        var s' := Deleted(s, database, key);
        if UnderLimit(s'.memUsed, maxMemory) then Evicted(s', rest, WithinLimit)
        else EvictLoop(s', database, rest, maxMemory)
  }

  /** What a turn leaves of a recency cache: the popped entry is gone, and the deletion of
      its key has removed one more entry of that key, if there is one. */
  function AfterTurn(items: Items): (r: Items)
    requires items != []
    ensures |r| < |items|
  {
    LFU.Drop(Heap.Pop(items), items[0].key)
  }

  /** The loop over a recency cache. */
  function RecencyLoop(s: Data, database: int, items: Items, maxMemory: nat): Evicted
    decreases |items|
  {
    if items == [] then Evicted(s, items, CacheEmpty)
    else
      var key := items[0].key;
      if !Deletable(s, database, key) then Evicted(s, Heap.Pop(items), DeleteFailed)
      else
        var s' := Deleted(s, database, key);
        if UnderLimit(s'.memUsed, maxMemory) then Evicted(s', AfterTurn(items), WithinLimit)
        else RecencyLoop(s', database, AfterTurn(items), maxMemory)
  }

  function Adjusted(s: Data, database: int, items: Items, maxMemory: nat): Evicted {
    if maxMemory == 0 || UnderLimit(s.memUsed, maxMemory) then Evicted(s, items, WithinLimit)
    else EvictLoop(s, database, items, maxMemory)
  }

  /** Both loops report success exactly when memory has come under the limit. */
  lemma {:induction false} LoopReports(s: Data, database: int, items: Items, maxMemory: nat)
    requires !UnderLimit(s.memUsed, maxMemory)
    ensures var e := EvictLoop(s, database, items, maxMemory);
            && (e.outcome == WithinLimit <==>
                  (if e.data.memUsed < 0 then e.data.memUsed + 0x1_0000_0000_0000_0000 else e.data.memUsed) < maxMemory)
            && (e.outcome == CacheEmpty ==> e.items == [])
    decreases |items|
  {
    if items != [] && Deletable(s, database, items[0].key) {
      var s' := Deleted(s, database, items[0].key);
      if !UnderLimit(s'.memUsed, maxMemory) {
        LoopReports(s', database, Heap.Pop(items), maxMemory);
      }
    }
  }

  lemma {:induction false} RecencyLoopReports(s: Data, database: int, items: Items, maxMemory: nat)
    requires !UnderLimit(s.memUsed, maxMemory)
    ensures var e := RecencyLoop(s, database, items, maxMemory);
            && (e.outcome == WithinLimit <==>
                  (if e.data.memUsed < 0 then e.data.memUsed + 0x1_0000_0000_0000_0000 else e.data.memUsed) < maxMemory)
            && (e.outcome == CacheEmpty ==> e.items == [])
    decreases |items|
  {
    if items != [] && Deletable(s, database, items[0].key) {
      var s' := Deleted(s, database, items[0].key);
      if !UnderLimit(s'.memUsed, maxMemory) {
        RecencyLoopReports(s', database, AfterTurn(items), maxMemory);
      }
    }
  }

  /** The data after the first `m` keys of the drain order are evicted. */
  function AfterEvicting(s: Data, database: int, items: Items, m: nat): Data
    requires m <= |items|
  {
    DeleteMany(s, database, DrainKeys(items)[..m])
  }

  lemma AfterEvictingOne(s: Data, database: int, items: Items, m: nat)
    requires 0 < m <= |items|
    ensures AfterEvicting(s, database, items, m) ==
            AfterEvicting(Deleted(s, database, items[0].key), database, Heap.Pop(items), m - 1)
    ensures DrainKeys(items)[m - 1] == if m == 1 then items[0].key else DrainKeys(Heap.Pop(items))[m - 2]
  {
    var keys := DrainKeys(items)[..m];
    assert DrainKeys(items)[1..] == DrainKeys(Heap.Pop(items));
    assert keys[1..] == DrainKeys(Heap.Pop(items))[..m - 1];
    assert keys[0] == items[0].key;
  }

  lemma {:induction false} LoopTakesPrefix(s: Data, database: int, items: Items, maxMemory: nat) returns (n: nat)
    ensures n <= |items|
    ensures var e := EvictLoop(s, database, items, maxMemory);
            && e.data == AfterEvicting(s, database, items, n)
            && (e.outcome == WithinLimit ==>
                  0 < n && e.items == PopMany(items, n) && UnderLimit(e.data.memUsed, maxMemory))
            && (e.outcome == CacheEmpty ==> n == |items| && e.items == [])
            && (e.outcome == DeleteFailed ==>
                  n < |items| && e.items == PopMany(items, n + 1)
                  && !Deletable(e.data, database, DrainKeys(items)[n]))
    ensures forall m :: 0 < m <= n && (m < n || EvictLoop(s, database, items, maxMemory).outcome != WithinLimit) ==>
              !UnderLimit(AfterEvicting(s, database, items, m).memUsed, maxMemory)
    decreases |items|
  {
    if items == [] {
      return 0;
    }
    var key, rest := items[0].key, Heap.Pop(items);
    assert DrainKeys(items)[0] == key && DrainKeys(items)[..0] == [];
    assert PopMany(rest, 0) == rest && PopMany(items, 1) == rest;
    if !Deletable(s, database, key) {
      return 0;
    }
    var s' := Deleted(s, database, key);
    AfterEvictingOne(s, database, items, 1);
    assert DrainKeys(rest)[..0] == [];
    if UnderLimit(s'.memUsed, maxMemory) {
      return 1;
    }
    var k := LoopTakesPrefix(s', database, rest, maxMemory);
    n := k + 1;
    AfterEvictingOne(s, database, items, n);
    forall m | 0 < m <= n && (m < n || EvictLoop(s, database, items, maxMemory).outcome != WithinLimit)
      ensures !UnderLimit(AfterEvicting(s, database, items, m).memUsed, maxMemory)
    {
      AfterEvictingOne(s, database, items, m);
      assert DrainKeys(rest)[..0] == [];
    }
    if k < |rest| {
      AfterEvictingOne(s, database, items, k + 2);
    }
  }

  /** The loop evicts exactly a prefix, `n` long, of the drain order, and stops at
      the first point under the limit; it reports success only there, and
      otherwise the cache is empty or one key would not be deleted. */
  lemma LoopEvictsPrefix(s: Data, database: int, items: Items, maxMemory: nat) returns (n: nat)
    ensures n <= |items|
    ensures var e := EvictLoop(s, database, items, maxMemory);
            && e.data == AfterEvicting(s, database, items, n)
            && (e.outcome == WithinLimit ==>
                  0 < n && e.items == PopMany(items, n)
                  && (if e.data.memUsed < 0 then e.data.memUsed + 0x1_0000_0000_0000_0000
                      else e.data.memUsed) < maxMemory)
            && (e.outcome == CacheEmpty ==> n == |items| && e.items == [])
            && (e.outcome == DeleteFailed ==>
                  n < |items| && e.items == PopMany(items, n + 1)
                  && !Deletable(e.data, database, DrainKeys(items)[n]))
    ensures forall m :: 0 < m <= n && (m < n || EvictLoop(s, database, items, maxMemory).outcome != WithinLimit) ==>
              var used := AfterEvicting(s, database, items, m).memUsed;
              maxMemory <= if used < 0 then used + 0x1_0000_0000_0000_0000 else used
  {
    n := LoopTakesPrefix(s, database, items, maxMemory);
    var e := EvictLoop(s, database, items, maxMemory);
    assert e.outcome == WithinLimit ==> UnderLimit(e.data.memUsed, maxMemory);
    forall m | 0 < m <= n && (m < n || e.outcome != WithinLimit)
      ensures var used := AfterEvicting(s, database, items, m).memUsed;
              maxMemory <= if used < 0 then used + 0x1_0000_0000_0000_0000 else used
    {
      assert !UnderLimit(AfterEvicting(s, database, items, m).memUsed, maxMemory);
    }
  }

  // ----- what a run of evictions takes away ------------------------------------------------------

  ghost function CostOf(keys: Keys, evicted: seq<string>): int {
    if evicted == [] then 0
    else CostOf(keys, evicted[1..]) + (if evicted[0] in keys then EntryCost(evicted[0], keys[evicted[0]]) else 0)
  }

  ghost predicate AllDeletable(s: Data, database: int, keys: seq<string>) {
    forall k :: k in keys ==> Deletable(s, database, k)
  }

  lemma {:induction false} CostOfOthers(keys: Keys, evicted: seq<string>, key: string)
    requires key !in evicted
    ensures CostOf(keys - {key}, evicted) == CostOf(keys, evicted)
  {
    if evicted != [] {
      CostOfOthers(keys, evicted[1..], key);
    }
  }

  /** Store, tracker and the count of memory lose exactly the keys deleted;
      every other database, and every other key, keeps what it had. */
  lemma {:induction false} DeleteManyTakes(s: Data, database: int, keys: seq<string>)
    requires database in s.store && Distinct(keys) && AllDeletable(s, database, keys)
    requires forall k :: k in keys ==> k in s.store[database]
    ensures var s' := DeleteMany(s, database, keys);
            && s'.store == s.store[database := s.store[database] - Elems(keys)]
            && s'.memUsed == s.memUsed - CostOf(s.store[database], keys)
            && (forall d :: d != database ==> Tracked(s', d) == Tracked(s, d))
            && (forall k :: k in Tracked(s', database) <==> k in Tracked(s, database) && k !in keys)
    decreases |keys|
  {
    if keys == [] {
      assert s.store[database] - Elems(keys) == s.store[database];
      assert s.store[database := s.store[database]] == s.store;
    } else {
      var first, rest := keys[0], keys[1..];
      var s1 := Deleted(s, database, first);
      assert first in keys && first !in rest;
      DeleteOneTakes(s, database, first);
      forall k | k in rest ensures k in s1.store[database] && Deletable(s1, database, k) {
        assert k in keys && Deletable(s, database, k);
      }
      DeleteManyTakes(s1, database, rest);
      CostOfOthers(s.store[database], rest, first);
      assert Elems(keys) == {first} + Elems(rest);
      assert s.store[database] - Elems(keys) == s1.store[database] - Elems(rest);
    }
  }

  lemma DeleteOneTakes(s: Data, database: int, key: string)
    requires database in s.store && key in s.store[database] && Deletable(s, database, key)
    ensures var s' := Deleted(s, database, key);
            && s'.store == s.store[database := s.store[database] - {key}]
            && s'.memUsed == s.memUsed - EntryCost(key, s.store[database][key])
            && (forall d :: d != database ==> Tracked(s', d) == Tracked(s, d))
            && (forall k :: k in Tracked(s', database) <==> k in Tracked(s, database) && k != key)
            && (forall k :: k != key ==> Deletable(s', database, k) == Deletable(s, database, k))
  {
  }

  // ----- the caches agree with the store over whole runs --------------------------------------------

  /** Every cached key is in the store. */
  ghost predicate CachedPresent(s: Data, database: int, items: Items) {
    forall key :: LFU.Lookup(items, key).Some? ==> Lookup(s.store, database, key).Some?
  }

  datatype Server = Server(data: Data, caches: map<int, Items>)

  datatype Act =
    | Alter(op: Op)
    | Access(database: int, key: string, now: int)
    | Evict(database: int)

  function Cache(s: Server, database: int): Items {
    if database in s.caches then s.caches[database] else []
  }

  /** Under a volatile policy only keys with an expiry time are cached. */
  predicate Cacheable(s: Data, database: int, key: string, volatile: bool) {
    var e := Lookup(s.store, database, key);
    e.Some? && (volatile ==> e.value.expireAt.Some?)
  }

  function Perform(s: Server, act: Act, volatile: bool): Server {
    match act
    case Alter(op) =>
      Server(Step(s.data, op),
             match op
             case Create(database) => s.caches[database := []]
             case Delete(database, key) =>
               if Deletable(s.data, database, key)
               then s.caches[database := LFU.Drop(Cache(s, database), key)] else s.caches
             case _ => s.caches)
    case Access(database, key, now) =>
      if Cacheable(s.data, database, key, volatile)
      then s.(caches := s.caches[database := LFU.Touch(Cache(s, database), key, now)]) else s
    case Evict(database) =>
      var items := Cache(s, database);
      if items == [] then s
      else Server(Deleted(s.data, database, items[0].key), s.caches[database := Heap.Pop(items)])
  }

  function Performed(acts: seq<Act>, volatile: bool): Server {
    if acts == [] then Server(EMPTY, map[])
    else Perform(Performed(acts[..|acts| - 1], volatile), acts[|acts| - 1], volatile)
  }

  ghost predicate Agrees(s: Server) {
    forall d :: LFU.GoodCache(Cache(s, d)) && CachedPresent(s.data, d, Cache(s, d))
  }

  lemma DropAgrees(s: Data, database: int, items: Items, key: string)
    requires LFU.GoodCache(items) && CachedPresent(s, database, items)
    ensures LFU.GoodCache(LFU.Drop(items, key))
    ensures Deletable(s, database, key) ==> CachedPresent(Deleted(s, database, key), database, LFU.Drop(items, key))
  {
    LFU.DropItems(items, key);
    forall k | LFU.Lookup(LFU.Drop(items, key), k).Some?
      ensures Deletable(s, database, key) ==> Lookup(Deleted(s, database, key).store, database, k).Some?
    {
      LFU.DropLookup(items, key, k);
    }
  }

  lemma PopAgrees(s: Data, database: int, items: Items)
    requires items != [] && LFU.GoodCache(items) && CachedPresent(s, database, items)
    ensures LFU.GoodCache(Heap.Pop(items))
    ensures CachedPresent(Deleted(s, database, items[0].key), database, Heap.Pop(items))
  {
    LFU.PopGood(items);
    forall k | LFU.Lookup(Heap.Pop(items), k).Some?
      ensures Lookup(Deleted(s, database, items[0].key).store, database, k).Some?
    {
      LFU.PopLookup(items, k);
    }
  }

  lemma TouchAgrees(s: Data, database: int, items: Items, key: string, now: int)
    requires LFU.GoodCache(items) && CachedPresent(s, database, items)
    requires Lookup(s.store, database, key).Some?
    ensures LFU.GoodCache(LFU.Touch(items, key, now))
    ensures CachedPresent(s, database, LFU.Touch(items, key, now))
  {
    LFU.TouchItems(items, key, now);
    forall k | LFU.Lookup(LFU.Touch(items, key, now), k).Some? ensures Lookup(s.store, database, k).Some? {
      LFU.TouchLookup(items, key, now, k);
    }
  }

  lemma StillPresent(s: Data, op: Op, d: int, items: Items)
    requires CachedPresent(s, d, items)
    requires op.Create? || op.Delete? || op.Flush? ==> op.database != d
    ensures CachedPresent(Step(s, op), d, items)
  {
    forall k | LFU.Lookup(items, k).Some? ensures Lookup(Step(s, op).store, d, k).Some? {
      assert Lookup(s.store, d, k).Some?;
    }
  }

  lemma AlterAgrees(s: Server, op: Op, volatile: bool, d: int)
    requires Agrees(s) && Enabled(s.data, op) && !op.Flush?
    ensures var s' := Perform(s, Alter(op), volatile);
            LFU.GoodCache(Cache(s', d)) && CachedPresent(s'.data, d, Cache(s', d))
  {
    if op.database == d && op.Create? {
    } else if op.database == d && op.Delete? {
      DropAgrees(s.data, d, Cache(s, d), op.key);
    } else {
      StillPresent(s.data, op, d, Cache(s, d));
    }
  }

  lemma PerformAgrees(s: Server, act: Act, volatile: bool)
    requires Agrees(s) && (act.Alter? ==> Enabled(s.data, act.op) && !act.op.Flush?)
    ensures Agrees(Perform(s, act, volatile))
  {
    var s' := Perform(s, act, volatile);
    forall d ensures LFU.GoodCache(Cache(s', d)) && CachedPresent(s'.data, d, Cache(s', d)) {
      assert LFU.GoodCache(Cache(s, d)) && CachedPresent(s.data, d, Cache(s, d));
      match act
      case Alter(op) => AlterAgrees(s, op, volatile, d);
      case Access(database, key, now) =>
        if d == database && Cacheable(s.data, database, key, volatile) {
          TouchAgrees(s.data, d, Cache(s, d), key, now);
        }
      case Evict(database) =>
        var items := Cache(s, database);
        if items != [] {
          if d == database {
            PopAgrees(s.data, d, items);
          } else {
            StillPresent(s.data, Delete(database, items[0].key), d, Cache(s, d));
          }
        }
    }
  }

  ghost predicate LegalActs(acts: seq<Act>, volatile: bool) {
    acts != [] ==>
      var before, last := acts[..|acts| - 1], acts[|acts| - 1];
      && LegalActs(before, volatile)
      && (last.Alter? ==> Enabled(Performed(before, volatile).data, last.op) && !last.op.Flush?)
  }

  /** After every run without flushes each cache is a good one and names present keys only. */
  lemma {:induction false} CachesAgreeWithStore(acts: seq<Act>, volatile: bool)
    requires LegalActs(acts, volatile)
    ensures Agrees(Performed(acts, volatile))
  {
    if acts != [] {
      CachesAgreeWithStore(acts[..|acts| - 1], volatile);
      PerformAgrees(Performed(acts[..|acts| - 1], volatile), acts[|acts| - 1], volatile);
    }
  }

  /** What evicting the first `n` keys of an agreeing cache takes away: these keys
      and nothing else from the store, the cache and the tracker, and their cost. */
  lemma EvictionTakesExactly(s: Data, database: int, items: Items, n: nat)
    requires LFU.GoodCache(items) && CachedPresent(s, database, items) && n <= |items|
    requires database in s.store && AllDeletable(s, database, DrainKeys(items)[..n])
    ensures var evicted := DrainKeys(items)[..n];
            var s' := DeleteMany(s, database, evicted);
            && Distinct(evicted)
            && s'.store == s.store[database := s.store[database] - Elems(evicted)]
            && s'.memUsed == s.memUsed - CostOf(s.store[database], evicted)
            && (forall k :: k in Tracked(s', database) <==> k in Tracked(s, database) && k !in evicted)
            && (forall k :: LFU.Lookup(PopMany(items, n), k) ==
                            if k in evicted then None else LFU.Lookup(items, k))
  {
    var evicted := DrainKeys(items)[..n];
    LFU.DrainLists(items);
    forall k | k in evicted ensures k in s.store[database] {
      var i :| 0 <= i < n && evicted[i] == k;
      assert Heap.Drain(items)[i] in Heap.Drain(items);
      assert LFU.Lookup(items, k).Some?;
      assert Lookup(s.store, database, k).Some?;
    }
    DeleteManyTakes(s, database, evicted);
    PopManyGood(items, n);
  }

  /** Eviction goes by ascending access count, the newest entry first on ties:
      no key that stays was to go before one that went. */
  lemma EvictedFirst(items: Items, n: nat, gone: string, kept: string)
    requires LFU.GoodCache(items) && n <= |items|
    requires gone in DrainKeys(items)[..n]
    requires LFU.Lookup(items, kept).Some? && kept !in DrainKeys(items)[..n]
    ensures LFU.Lookup(items, gone).Some?
    ensures var went, stays := LFU.Lookup(items, gone).value, LFU.Lookup(items, kept).value;
            went.count < stays.count || (went.count == stays.count && went.time >= stays.time)
  {
    LFU.DrainLists(items);
    var d := Heap.Drain(items);
    var i :| 0 <= i < n && DrainKeys(items)[i] == gone;
    assert d[i] in d;
    LFU.LookupNone(items, kept);
    assert LFU.Lookup(items, kept).value in d;
    var j :| 0 <= j < |d| && d[j] == LFU.Lookup(items, kept).value;
    assert DrainKeys(items)[j] == kept;
    assert forall k :: 0 <= k < n ==> DrainKeys(items)[..n][k] == DrainKeys(items)[k];
    assert n <= j;
  }

  // ----- the loop at a reachable state -----------------------------------------------------------

  predicate SupportedAct(act: Act) {
    act.Alter? && act.op.Set? ==> act.op.value.mem.Some?
  }

  ghost predicate AllSupported(s: Data) {
    forall d, k :: Deletable(s, d, k)
  }

  lemma SupportedStep(s: Server, act: Act, volatile: bool)
    requires AllSupported(s.data) && SupportedAct(act)
    ensures AllSupported(Perform(s, act, volatile).data)
  {
    forall d, k ensures Deletable(Perform(s, act, volatile).data, d, k) {
      assert Deletable(s.data, d, k);
    }
  }

  lemma {:induction false} SupportedRun(acts: seq<Act>, volatile: bool)
    requires forall act <- acts :: SupportedAct(act)
    ensures AllSupported(Performed(acts, volatile).data)
  {
    if acts != [] {
      var before, last := acts[..|acts| - 1], acts[|acts| - 1];
      SupportedRun(before, volatile);
      assert SupportedAct(last);
      SupportedStep(Performed(before, volatile), last, volatile);
    }
  }

  function Evictions(database: int, n: nat): seq<Act> {
    seq(n, _ => Evict(database))
  }

  lemma EvictOnce(acts: seq<Act>, volatile: bool, database: int)
    requires Cache(Performed(acts, volatile), database) != []
    ensures var s, s' := Performed(acts, volatile), Performed(acts + [Evict(database)], volatile);
            && s'.data == Deleted(s.data, database, Cache(s, database)[0].key)
            && Cache(s', database) == Heap.Pop(Cache(s, database))
  {
    assert (acts + [Evict(database)])[..|acts|] == acts;
  }

  /** Turns of the loop are acts of a run. */
  lemma {:induction false} EvictTurns(acts: seq<Act>, volatile: bool, database: int, n: nat)
    requires n <= |Cache(Performed(acts, volatile), database)|
    ensures var s, s' := Performed(acts, volatile), Performed(acts + Evictions(database, n), volatile);
            && s'.data == AfterEvicting(s.data, database, Cache(s, database), n)
            && Cache(s', database) == PopMany(Cache(s, database), n)
    decreases n
  {
    var s := Performed(acts, volatile);
    if n == 0 {
      assert acts + Evictions(database, 0) == acts;
      assert DrainKeys(Cache(s, database))[..0] == [];
    } else {
      assert acts + Evictions(database, n) == acts + [Evict(database)] + Evictions(database, n - 1);
      EvictOnce(acts, volatile, database);
      EvictTurns(acts + [Evict(database)], volatile, database, n - 1);
      TurnsAfterOne(s, Performed(acts + [Evict(database)], volatile),
                    Performed(acts + Evictions(database, n), volatile), database, n);
    }
  }

  lemma TurnsAfterOne(s: Server, once: Server, s': Server, database: int, n: nat)
    requires 0 < n <= |Cache(s, database)|
    requires once.data == Deleted(s.data, database, Cache(s, database)[0].key)
    requires Cache(once, database) == Heap.Pop(Cache(s, database))
    requires s'.data == AfterEvicting(once.data, database, Cache(once, database), n - 1)
    requires Cache(s', database) == PopMany(Cache(once, database), n - 1)
    ensures s'.data == AfterEvicting(s.data, database, Cache(s, database), n)
    ensures Cache(s', database) == PopMany(Cache(s, database), n)
  {
    AfterEvictingOne(s.data, database, Cache(s, database), n);
  }

  /** Evicting the first `n` keys leaves the store, the count, the lists and the cache
      without these keys and their cost, and otherwise as they were. */
  ghost predicate Lost(s: Data, items: Items, database: int, n: nat, e: Evicted)
    requires n <= |items| && database in s.store
  {
    var gone := DrainKeys(items)[..n];
    && e.data.store == s.store[database := s.store[database] - Elems(gone)]
    && e.data.memUsed == s.memUsed - CostOf(s.store[database], gone)
    && (forall k :: k in Tracked(e.data, database) <==> k in Tracked(s, database) && k !in gone)
    && (forall k :: LFU.Lookup(e.items, k) == if k in gone then None else LFU.Lookup(items, k))
  }

  /** The loop over an agreeing cache whose keys can all be deleted never fails on one. */
  lemma LoopNeverFails(s: Data, database: int, items: Items, maxMemory: nat) returns (n: nat)
    requires AllSupported(s) && LFU.GoodCache(items) && CachedPresent(s, database, items) && database in s.store
    requires maxMemory != 0 && !UnderLimit(s.memUsed, maxMemory)
    ensures n <= |items| && (items != [] ==> 0 < n)
    ensures var e := EvictLoop(s, database, items, maxMemory);
            && e.data == AfterEvicting(s, database, items, n) && e.items == PopMany(items, n)
            && (e.outcome == WithinLimit <==> UnderLimit(e.data.memUsed, maxMemory))
            && (e.outcome != WithinLimit ==> e.outcome == CacheEmpty && e.items == [])
    ensures forall m :: 0 <= m < n ==> !UnderLimit(AfterEvicting(s, database, items, m).memUsed, maxMemory)
  {
    n := LoopEvictsPrefix(s, database, items, maxMemory);
    assert DrainKeys(items)[..0] == [];
    if n < |items| {
      StillDeletable(s, database, DrainKeys(items)[..n], DrainKeys(items)[n]);
    } else {
      PopAll(items);
    }
  }

  lemma {:induction false} PopAll(items: Items)
    ensures PopMany(items, |items|) == []
    decreases |items|
  {
    if items != [] {
      PopAll(Heap.Pop(items));
    }
  }

  lemma {:induction false} StillDeletable(s: Data, database: int, keys: seq<string>, key: string)
    requires AllSupported(s)
    ensures Deletable(DeleteMany(s, database, keys), database, key)
    decreases |keys|
  {
    if keys == [] {
      assert Deletable(s, database, key);
    } else {
      forall d, k ensures Deletable(Deleted(s, database, keys[0]), d, k) {
        assert Deletable(s, d, k);
      }
      StillDeletable(Deleted(s, database, keys[0]), database, keys[1..], key);
    }
  }

  /** At the end of any run without flushes and unsupported values: adjusting the memory
      of a database takes away the shortest prefix of the drain order that brings memory
      under the limit, and nothing else; it fails only with an empty cache.  What it does
      is a run of evictions, so whatever holds over runs holds after it. */
  lemma AdjustTakesShortestPrefix(acts: seq<Act>, volatile: bool, database: int, maxMemory: nat) returns (n: nat)
    requires LegalActs(acts, volatile) && forall act <- acts :: SupportedAct(act)
    requires database in Performed(acts, volatile).data.store
    ensures n <= |Cache(Performed(acts, volatile), database)|
    ensures var s := Performed(acts, volatile);
            var e := Adjusted(s.data, database, Cache(s, database), maxMemory);
            var s' := Performed(acts + Evictions(database, n), volatile);
            && e.data == s'.data && e.items == Cache(s', database)
            && Lost(s.data, Cache(s, database), database, n, e)
            && (e.outcome == WithinLimit <==>
                  var used := e.data.memUsed;
                  maxMemory == 0 || (if used < 0 then used + 0x1_0000_0000_0000_0000 else used) < maxMemory)
            && (e.outcome != WithinLimit ==> e.outcome == CacheEmpty && e.items == [])
    ensures forall m :: 0 <= m < n ==>
              var used := Performed(acts + Evictions(database, m), volatile).data.memUsed;
              0 < maxMemory <= if used < 0 then used + 0x1_0000_0000_0000_0000 else used
  {
    var s := Performed(acts, volatile);
    var items := Cache(s, database);
    CachesAgreeWithStore(acts, volatile);
    SupportedRun(acts, volatile);
    assert LFU.GoodCache(items) && CachedPresent(s.data, database, items);
    if maxMemory == 0 || UnderLimit(s.data.memUsed, maxMemory) {
      n := 0;
    } else {
      n := LoopNeverFails(s.data, database, items, maxMemory);
    }
    EvictTurns(acts, volatile, database, n);
    EvictionTakesExactly(s.data, database, items, n);
    assert AfterEvicting(s.data, database, items, 0) == s.data by {
      assert DrainKeys(items)[..0] == [];
    }
    forall m | 0 <= m < n
      ensures !UnderLimit(Performed(acts + Evictions(database, m), volatile).data.memUsed, maxMemory)
    {
      EvictTurns(acts, volatile, database, m);
    }
  }

  // ----- the loop over a recency cache ----------------------------------------------------------------

  lemma TurnKeeps(items: Items)
    requires items != [] && Heap.IsHeap(items, |items|)
    ensures Heap.IsHeap(AfterTurn(items), |AfterTurn(items)|)
    ensures forall x <- AfterTurn(items) :: x in items
    ensures |AfterTurn(items)| == |items| - (if LFU.Lookup(Heap.Pop(items), items[0].key).Some? then 2 else 1)
  {
    var rest := Heap.Pop(items);
    Heap.PopKeeps(items);
    forall x | x in rest ensures x in items {
      assert x in multiset(rest);
    }
    match Heap.IndexOfKey(rest, items[0].key)
    case None =>
    case Some(i) =>
      Heap.RemoveKeeps(rest, i);
      forall x | x in AfterTurn(items) ensures x in rest {
        assert x in multiset(AfterTurn(items));
      }
  }

  /** The loop deletes some cached keys, each time one whose entry was on top, and stops at
      the first point under the limit; it reports success only there, and otherwise the
      cache is empty or a key would not be deleted. */
  lemma {:induction false} RecencyLoopDeletes(s: Data, database: int, items: Items, maxMemory: nat)
    returns (keys: seq<string>)
    requires Heap.IsHeap(items, |items|)
    ensures var e := RecencyLoop(s, database, items, maxMemory);
            && e.data == DeleteMany(s, database, keys)
            && (e.outcome == WithinLimit ==>
                  keys != []
                  && (if e.data.memUsed < 0 then e.data.memUsed + 0x1_0000_0000_0000_0000
                      else e.data.memUsed) < maxMemory)
            && (e.outcome == CacheEmpty ==> e.items == [])
            && (e.outcome == DeleteFailed ==> exists k <- KeysIn(items) :: !Deletable(e.data, database, k))
    ensures forall k <- keys :: k in KeysIn(items)
    ensures keys != [] ==> items != [] && keys[0] == items[0].key
    ensures forall m ::
              0 < m <= |keys| && (m < |keys| || RecencyLoop(s, database, items, maxMemory).outcome != WithinLimit) ==>
                var used := DeleteMany(s, database, keys[..m]).memUsed;
                maxMemory <= if used < 0 then used + 0x1_0000_0000_0000_0000 else used
    decreases |items|
  {
    keys := [];
    if items == [] {
      return;
    }
    var key := items[0].key;
    assert KeysIn(items)[0] == key;
    if !Deletable(s, database, key) {
      return;
    }
    var s', rest := Deleted(s, database, key), AfterTurn(items);
    TurnKeeps(items);
    if UnderLimit(s'.memUsed, maxMemory) {
      keys := [key];
      assert keys[1..] == [];
      return;
    }
    var more := RecencyLoopDeletes(s', database, rest, maxMemory);
    keys := [key] + more;
    assert keys[1..] == more;
    KeysAreOf(rest, items);
    forall m | 0 < m <= |keys| && (m < |keys| || RecencyLoop(s, database, items, maxMemory).outcome != WithinLimit)
      ensures !UnderLimit(DeleteMany(s, database, keys[..m]).memUsed, maxMemory)
    {
      assert keys[..m][1..] == more[..m - 1] && keys[..m][0] == key;
    }
  }

  lemma KeysAreOf(rest: Items, items: Items)
    requires forall x <- rest :: x in items
    ensures forall k <- KeysIn(rest) :: k in KeysIn(items)
  {
    forall k | k in KeysIn(rest) ensures k in KeysIn(items) {
      var i :| 0 <= i < |rest| && KeysIn(rest)[i] == k;
      assert rest[i] in items;
      var j :| 0 <= j < |items| && items[j] == rest[i];
      assert KeysIn(items)[j] == k;
    }
  }

  ghost function Excess(s: Data): int {
    s.memUsed - LiveCost(s.store)
  }

  lemma DeletedExcess(s: Data, database: int, key: string)
    requires database in s.store && AllSupported(s)
    ensures var s' := Deleted(s, database, key);
            && s'.store == s.store[database := s.store[database] - {key}] && AllSupported(s')
            && (key in s.store[database] ==> Excess(s') == Excess(s))
            && (key !in s.store[database] ==> Excess(s') < Excess(s))
  {
    assert Deletable(s, database, key);
    DeletedCost(s, database, key);
    forall d, k ensures Deletable(Deleted(s, database, key), d, k) {
      assert Deletable(s, d, k);
    }
  }

  /** Deleting keys keeps the count in step with what is stored exactly when no key is
      deleted twice and all are there; otherwise the count ends too low. */
  lemma {:induction false} DeletesKeepCountIff(s: Data, database: int, keys: seq<string>)
    requires database in s.store && AllSupported(s)
    ensures Excess(DeleteMany(s, database, keys)) <= Excess(s)
    ensures Excess(DeleteMany(s, database, keys)) == Excess(s)
       <==> Distinct(keys) && forall k <- keys :: k in s.store[database]
    decreases |keys|
  {
    if keys != [] {
      var key, rest := keys[0], keys[1..];
      var s' := Deleted(s, database, key);
      DeletedExcess(s, database, key);
      DeletesKeepCountIff(s', database, rest);
      assert s'.store[database] == s.store[database] - {key};
      DistinctHead(keys);
      assert forall k <- keys :: k == key || k in rest;
    }
  }

  lemma DistinctHead(keys: seq<string>)
    requires keys != []
    ensures Distinct(keys) <==> keys[0] !in keys[1..] && Distinct(keys[1..])
  {
    if keys[0] !in keys[1..] && Distinct(keys[1..]) {
      forall i, j | 0 <= i < j < |keys| ensures keys[i] != keys[j] {
        assert keys[j] == keys[1..][j - 1] && keys[j] in keys[1..];
        if 0 < i {
          assert keys[i] == keys[1..][i - 1];
        }
      }
    }
    if Distinct(keys) {
      assert forall i, j :: 0 <= i < j < |keys[1..]| ==> keys[1..][i] == keys[i + 1] && keys[1..][j] == keys[j + 1];
    }
  }

  /** A key accessed three times has three entries; the first turn deletes the key and two
      of them.  If memory is still over the limit, the next turn deletes the key again, and
      takes the cost of a nil value off the count: the loop may report that memory is under
      the limit while what is stored is not. */
  lemma PhantomEviction(s: Data, database: int, items: Items, key: string, maxMemory: nat)
    requires |items| == 3 && Heap.IsHeap(items, 3) && forall x <- items :: x.key == key
    requires database in s.store && key in s.store[database] && Deletable(s, database, key)
    requires s.memUsed == LiveCost(s.store)
    requires var left := Deleted(s, database, key).memUsed;
             0 <= left - EntryCost(key, KeyData(NIL, None)) < maxMemory <= left
    ensures var e := RecencyLoop(s, database, items, maxMemory);
            && e.outcome == WithinLimit
            && e.data.memUsed == LiveCost(e.data.store) - EntryCost(key, KeyData(NIL, None))
            && 0 <= e.data.memUsed < maxMemory <= LiveCost(e.data.store)
  {
    var once := Deleted(s, database, key);
    TwoGoAtOnce(items, key);
    assert items[0] in items;
    DeletedCost(s, database, key);
    DeletedCost(once, database, key);
    assert Lookup(once.store, database, key) == None;
  }

  lemma TwoGoAtOnce(items: Items, key: string)
    requires |items| == 3 && Heap.IsHeap(items, 3) && forall x <- items :: x.key == key
    ensures |AfterTurn(items)| == 1 && AfterTurn(items)[0].key == key
  {
    var rest := Heap.Pop(items);
    assert items[0] in items;
    Heap.PopKeeps(items);
    LFU.LookupNone(rest, key);
    assert rest[0] in multiset(rest);
    assert rest[0] in items;
    TurnKeeps(items);
    assert AfterTurn(items)[0] in AfterTurn(items);
  }
}
