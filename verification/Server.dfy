/** The standalone server's keyspace methods, with the two caches of each database. */
module Servers {
  import opened Common
  import opened Database
  import opened Keyspace
  import opened Eviction
  import Heap
  import LFU
  import LRU

  datatype Policy = NoEviction | AllKeysLFU | VolatileLFU | AllKeysLRU | VolatileLRU | Other

  /** What an access leaves of a cache. */
  function Touched(frequency: bool, items: Items, key: string, pushed: int, now: int): Items {
    if frequency then LFU.Touch(items, key, now) else LRU.Touch(items, key, pushed, now)
  }

  /** The frequency and the recency cache of one database. */
  class Caches {
    const lfu: LFU.CacheLFU
    const lru: LRU.CacheLRU
    // All the objects of both.
    ghost var footprint: set<object>

    constructor ()
      ensures Apart() && fresh(footprint)
      ensures lfu.Valid() && lfu.Items() == [] && lru.Valid() && lru.Items() == []
    {
      lfu := new LFU.CacheLFU();
      lru := new LRU.CacheLRU();
      new;
      footprint := {this} + lfu.Repr() + lru.Repr();
    }

    ghost predicate Apart()
      reads this, lfu.heap, lru.heap
    {
      && footprint == {this} + lfu.Repr() + lru.Repr()
      && this !in lfu.Repr() && this !in lru.Repr() && lfu.Repr() !! lru.Repr()
    }

    method TouchLFU(key: string, now: int)
      requires Apart() && lfu.Valid()
      modifies this, lfu.Repr()
      ensures Apart() && lfu.Valid() && fresh(footprint - old(footprint))
      ensures lfu.Items() == LFU.Touch(old(lfu.Items()), key, now)
    {
      lfu.Update(key, now);
      footprint := {this} + lfu.Repr() + lru.Repr();
    }

    method TouchLRU(key: string, pushed: int, now: int)
      requires Apart() && lru.Valid()
      modifies this, lru.Repr()
      ensures Apart() && lru.Valid() && fresh(footprint - old(footprint))
      ensures lru.Items() == LRU.Touch(old(lru.Items()), key, pushed, now)
    {
      lru.Update(key, pushed, now);
      footprint := {this} + lfu.Repr() + lru.Repr();
    }

    method DropLFU(key: string)
      requires Apart() && lfu.Valid()
      modifies this, lfu.Repr()
      ensures Apart() && lfu.Valid() && lfu.Repr() <= old(lfu.Repr()) && footprint <= old(footprint)
      ensures lfu.Items() == LFU.Drop(old(lfu.Items()), key)
    {
      lfu.Delete(key);
      footprint := {this} + lfu.Repr() + lru.Repr();
    }

    method DropLRU(key: string)
      requires Apart() && lru.Valid()
      modifies this, lru.Repr()
      ensures Apart() && lru.Valid() && lru.Repr() <= old(lru.Repr()) && footprint <= old(footprint)
      ensures lru.Items() == LFU.Drop(old(lru.Items()), key)
    {
      lru.Delete(key);
      footprint := {this} + lfu.Repr() + lru.Repr();
    }

    method PopLFU() returns (key: string)
      requires Apart() && lfu.Valid() && lfu.Items() != []
      modifies this, lfu.Repr()
      ensures Apart() && lfu.Valid() && lfu.Repr() <= old(lfu.Repr()) && footprint <= old(footprint)
      ensures key == old(lfu.Items())[0].key && lfu.Items() == Heap.Pop(old(lfu.Items()))
    {
      key := lfu.HeapPop();
      footprint := {this} + lfu.Repr() + lru.Repr();
    }

    method PopLRU() returns (key: string)
      requires Apart() && lru.Valid() && lru.Items() != []
      modifies this, lru.Repr()
      ensures Apart() && lru.Valid() && lru.Repr() <= old(lru.Repr()) && footprint <= old(footprint)
      ensures key == old(lru.Items())[0].key && lru.Items() == Heap.Pop(old(lru.Items()))
    {
      key := lru.HeapPop();
      footprint := {this} + lfu.Repr() + lru.Repr();
    }

    // ----- the cache that is used: the frequency cache or the recency cache -----

    ghost predicate Usable(frequency: bool)
      reads lfu, lfu.heap, lfu.heap.Objects(), lru, lru.heap, lru.heap.Objects()
    {
      if frequency then lfu.Valid() else lru.Valid()
    }

    ghost function Items(frequency: bool): Items
      requires Usable(frequency)
      reads lfu, lfu.heap, lfu.heap.Objects(), lru, lru.heap, lru.heap.Objects()
    {
      if frequency then lfu.Items() else lru.Items()
    }

    ghost function Used(frequency: bool): set<object>
      reads lfu.heap, lru.heap
    {
      {this} + if frequency then lfu.Repr() else lru.Repr()
    }

    predicate IsEmpty(frequency: bool)
      reads lfu.heap, lru.heap
    {
      (if frequency then lfu.heap.entries else lru.heap.entries) == []
    }

    /** The recency cache reads the clock twice, the frequency cache once. */
    method Touch(frequency: bool, key: string, pushed: int, now: int)
      requires Apart() && Usable(frequency)
      modifies Used(frequency)
      ensures Apart() && Usable(frequency) && fresh(footprint - old(footprint))
      ensures Items(frequency) == Touched(frequency, old(Items(frequency)), key, pushed, now)
    {
      if frequency {
        TouchLFU(key, now);
      } else {
        TouchLRU(key, pushed, now);
      }
    }

    method Drop(frequency: bool, key: string)
      requires Apart() && Usable(frequency)
      modifies Used(frequency)
      ensures Apart() && Usable(frequency)
      ensures Used(frequency) <= old(Used(frequency)) && footprint <= old(footprint)
      ensures Items(frequency) == LFU.Drop(old(Items(frequency)), key)
    {
      if frequency {
        DropLFU(key);
      } else {
        DropLRU(key);
      }
    }

    method Pop(frequency: bool) returns (key: string)
      requires Apart() && Usable(frequency) && Items(frequency) != []
      modifies Used(frequency)
      ensures Apart() && Usable(frequency)
      ensures Used(frequency) <= old(Used(frequency)) && footprint <= old(footprint)
      ensures key == old(Items(frequency))[0].key && Items(frequency) == Heap.Pop(old(Items(frequency)))
    {
      if frequency {
        key := PopLFU();
      } else {
        key := PopLRU();
      }
    }

    method Flush()
      requires Apart()
      modifies this, lfu, lfu.heap, lru, lru.heap
      ensures Apart() && footprint <= old(footprint)
      ensures lfu.Valid() <==> old(lfu.heap.entries) == []
      ensures lru.Valid() <==> old(lru.heap.entries) == []
    {
      lfu.Flush();
      lru.Flush();
      footprint := {this} + lfu.Repr() + lru.Repr();
    }
  }

  class SugarDB {
    var store: State
    var memUsed: int
    var keysWithExpiry: Tracker
    var caches: map<int, Caches>
    const maxMemory: nat
    const policy: Policy

    constructor (maxMemory: nat, policy: Policy)
      ensures Valid() && View() == EMPTY && caches == map[]
      ensures this.maxMemory == maxMemory && this.policy == policy
    {
      store := map[];
      memUsed := 0;
      keysWithExpiry := map[];
      caches := map[];
      this.maxMemory := maxMemory;
      this.policy := policy;
    }

    function View(): Data
      reads this
    {
      Data(store, memUsed, keysWithExpiry)
    }

    predicate UsesLFU() {
      policy.AllKeysLFU? || policy.VolatileLFU?
    }

    predicate UsesLRU() {
      policy.AllKeysLRU? || policy.VolatileLRU?
    }

    /** The policy uses a cache at all. */
    predicate Caching() {
      UsesLFU() || UsesLRU()
    }

    predicate Volatile() {
      policy.VolatileLFU? || policy.VolatileLRU?
    }

    /** Each database has its own caches: no two databases share an object. */
    ghost predicate Valid()
      reads this, set d | d in caches :: caches[d]
      reads set d | d in caches :: caches[d].lfu.heap, set d | d in caches :: caches[d].lru.heap
    {
      caches.Keys == store.Keys && OwnCaches()
    }

    ghost predicate OwnCaches()
      reads this`caches, set d | d in caches :: caches[d]
      reads set d | d in caches :: caches[d].lfu.heap, set d | d in caches :: caches[d].lru.heap
    {
      && (forall d :: d in caches ==> this !in caches[d].footprint && caches[d].Apart())
      && (forall d, e :: d in caches && e in caches && d != e ==> caches[d].footprint !! caches[e].footprint)
    }

    /** The cache that the policy uses can be used: no Flush has left empty slots in it. */
    ghost predicate Usable(database: int)
      reads this`caches
      reads if database in caches then caches[database].lfu.Repr() + caches[database].lru.Repr() else {}
      reads if database in caches then {caches[database].lfu.heap, caches[database].lru.heap} else {}
    {
      database in caches && caches[database].Usable(UsesLFU())
    }

    /** What it holds. */
    ghost function Cached(database: int): Items
      requires Usable(database)
      reads this`caches, caches[database].lfu.Repr() + caches[database].lru.Repr()
    {
      caches[database].Items(UsesLFU())
    }

    /** The caches that there were are still there; whether they changed is not said. */
    twostate predicate CachesStay()
      reads this`caches
    {
      forall d :: d in old(caches) ==> d in caches && caches[d] == old(caches)[d]
    }

    predicate MaxMemoryExceeded()
      reads this
    {
      maxMemory != 0 && !UnderLimit(memUsed, maxMemory)
    }

    predicate Refuses()
      reads this
    {
      MaxMemoryExceeded() && policy.NoEviction?
    }

    method CreateDatabase(database: int)
      requires Valid()
      modifies this
      ensures Valid()
      ensures View() == Created(old(View()), database)
      ensures store == old(store)[database := map[]] && memUsed == old(memUsed)
      ensures keysWithExpiry == old(keysWithExpiry)[database := []]
      ensures caches.Keys == old(caches).Keys + {database}
      ensures forall d :: d in old(caches) && d != database ==> caches[d] == old(caches)[d]
      ensures NewCaches(database)
    {
      store := store[database := map[]];
      keysWithExpiry := keysWithExpiry[database := []];
      AddCaches(database);
    }

    method AddCaches(database: int)
      requires OwnCaches()
      modifies this`caches
      ensures OwnCaches() && caches.Keys == old(caches).Keys + {database}
      ensures forall d :: d in old(caches) && d != database ==> caches[d] == old(caches)[d]
      ensures NewCaches(database)
    {
      var both := new Caches();
      caches := caches[database := both];
    }

    /** The database is created if it is not there yet. */
    method EnsureDatabase(database: int)
      requires Valid()
      modifies this
      ensures Valid() && CachesStay() && caches.Keys == old(caches).Keys + {database}
      ensures View() == Ensured(old(View()), database)
      ensures database !in old(caches) ==> NewCaches(database)
    {
      if database !in store {
        CreateDatabase(database);
      }
    }

    twostate predicate NewCaches(database: int)
      reads this`caches
      reads if database in caches then {caches[database], caches[database].lfu.heap, caches[database].lru.heap} else {}
      reads if database in caches then caches[database].lfu.Repr() + caches[database].lru.Repr() else {}
    {
      && Usable(database) && fresh(caches[database].footprint)
      && caches[database].lfu.Valid() && caches[database].lfu.Items() == []
      && caches[database].lru.Valid() && caches[database].lru.Items() == []
    }

    method SetValues(database: int, entries: map<string, Value>) returns (ok: bool, ghost order: seq<string>)
      requires Valid()
      modifies this
      ensures Valid() && CachesStay()
      ensures Lists(order, entries.Keys)
      ensures old(Refuses()) <==>
                && policy.NoEviction? && 0 < maxMemory
                && maxMemory <= if old(memUsed) < 0 then old(memUsed) + 0x1_0000_0000_0000_0000 else old(memUsed)
      ensures ok <==> !old(Refuses()) && forall k :: k in entries ==> entries[k].mem.Some?
      ensures old(Refuses()) ==> View() == old(View()) && caches == old(caches)
      ensures !old(Refuses()) ==> View() == SetInOrder(Ensured(old(View()), database), database, entries, order)
      ensures ok ==> forall d, k ::
                Lookup(store, d, k) ==
                if d == database && k in entries
                then Some(KeyData(entries[k], if Lookup(old(store), d, k).Some?
                                              then Lookup(old(store), d, k).value.expireAt else None))
                else Lookup(old(store), d, k)
      ensures !old(Refuses()) && database !in old(caches) ==> NewCaches(database)
    {
      var keys := RangeOrder(entries.Keys);
      if Refuses() {
        return false, keys;
      }
      ok := SetInto(database, entries, keys);
      order := keys;
      if ok {
        AllAreSet(old(View()), database, entries, keys);
      }
    }

    static lemma AllAreSet(s: Data, database: int, entries: map<string, Value>, order: seq<string>)
      requires Lists(order, entries.Keys) && forall k <- order :: entries[k].mem.Some?
      ensures forall d, k ::
                Lookup(SetInOrder(Ensured(s, database), database, entries, order).store, d, k) ==
                if d == database && k in entries
                then Some(KeyData(entries[k], if Lookup(s.store, d, k).Some?
                                              then Lookup(s.store, d, k).value.expireAt else None))
                else Lookup(s.store, d, k)
    {
      assert order[..|order|] == order;
      forall d, k
        ensures Lookup(SetInOrder(Ensured(s, database), database, entries, order).store, d, k) ==
                if d == database && k in entries then Some(KeyData(entries[k], HeldExpiry(s.store, d, k)))
                else Lookup(s.store, d, k)
      {
        SetInOrderLookup(Ensured(s, database), database, entries, order, d, k);
        assert Lookup(Ensured(s, database).store, d, k) == Lookup(s.store, d, k);
      }
    }

    method SetInto(database: int, entries: map<string, Value>, keys: seq<string>) returns (ok: bool)
      requires Valid() && forall k <- keys :: k in entries
      modifies this
      ensures Valid() && CachesStay()
      ensures ok <==> forall k <- keys :: entries[k].mem.Some?
      ensures View() == SetInOrder(Ensured(old(View()), database), database, entries, keys)
      ensures database !in old(caches) ==> NewCaches(database)
    {
      EnsureDatabase(database);
      ok := SetEachValid(database, entries, keys);
    }

    method SetEachValid(database: int, entries: map<string, Value>, keys: seq<string>) returns (ok: bool)
      requires Valid() && database in store && forall k <- keys :: k in entries
      modifies this`store, this`memUsed
      ensures Valid()
      ensures ok <==> forall k <- keys :: entries[k].mem.Some?
      ensures View() == SetInOrder(old(View()), database, entries, keys)
    {
      ok := SetEach(database, entries, keys);
    }

    /** Keys in the order given, up to the first value of an unsupported type. */
    method SetEach(database: int, entries: map<string, Value>, keys: seq<string>) returns (ok: bool)
      requires database in store && forall k <- keys :: k in entries
      modifies this`store, this`memUsed
      ensures store.Keys == old(store.Keys)
      ensures ok <==> forall k <- keys :: entries[k].mem.Some?
      ensures View() == SetInOrder(old(View()), database, entries, keys)
    {
      assert keys[0..] == keys;
      for i := 0 to |keys|
        invariant store.Keys == old(store.Keys)
        invariant forall j :: 0 <= j < i ==> entries[keys[j]].mem.Some?
        invariant SetInOrder(old(View()), database, entries, keys) == SetInOrder(View(), database, entries, keys[i..])
      {
        var key := keys[i];
        ghost var before := View();
        assert keys[i..][0] == key && keys[i..][1..] == keys[i + 1..];
        var supported := SetValue(database, key, entries[key]);
        if !supported {
          return false;
        }
      }
      ok := true;
    }

    method SetValue(database: int, key: string, value: Value) returns (supported: bool)
      requires database in store
      modifies this`store, this`memUsed
      ensures View() == SetOne(old(View()), database, key, value)
      ensures supported == value.mem.Some? && store.Keys == old(store.Keys)
    {
      var expireAt := if key in store[database] then store[database][key].expireAt else None;
      var data := KeyData(value, expireAt);
      store := store[database := store[database][key := data]];
      if value.mem.None? {
        return false;
      }
      memUsed := memUsed + EntryCost(key, data);
      supported := true;
    }

    method SetExpiry(database: int, key: string, expireAt: Option<int>)
      requires Valid() && database in store
      modifies this`store, this`keysWithExpiry
      ensures Valid() && View() == ExpirySet(old(View()), database, key, expireAt)
      ensures database in keysWithExpiry && key in keysWithExpiry[database] && memUsed == old(memUsed)
      ensures forall d, k :: !(d == database && k == key) ==> Lookup(store, d, k) == Lookup(old(store), d, k)
      ensures var was := Lookup(old(store), database, key);
              Lookup(store, database, key) ==
              Some(KeyData(if was.Some? then was.value.value else Value("", Some(0)), expireAt))
    {
      SetExpiryData(database, key, expireAt);
    }

    method SetExpiryData(database: int, key: string, expireAt: Option<int>)
      requires database in store
      modifies this`store, this`keysWithExpiry
      ensures store.Keys == old(store.Keys) && View() == ExpirySet(old(View()), database, key, expireAt)
      ensures database in keysWithExpiry && key in keysWithExpiry[database] && memUsed == old(memUsed)
      ensures forall d, k :: !(d == database && k == key) ==> Lookup(store, d, k) == Lookup(old(store), d, k)
      ensures var was := Lookup(old(store), database, key);
              Lookup(store, database, key) ==
              Some(KeyData(if was.Some? then was.value.value else Value("", Some(0)), expireAt))
    {
      var value := if key in store[database] then store[database][key].value else NIL;
      store := store[database := store[database][key := KeyData(value, expireAt)]];
      var listed := if database in keysWithExpiry then keysWithExpiry[database] else [];
      keysWithExpiry := keysWithExpiry[database := if key in listed then listed else listed + [key]];
    }

    ghost function Used(database: int): set<object>
      requires database in caches
      reads this`caches, caches[database].lfu.heap, caches[database].lru.heap
    {
      if Caching() then caches[database].Used(UsesLFU()) else {}
    }

    /** Caches that take in new objects only stay apart from the others. */
    twostate lemma StillOwn(database: int)
      requires old(OwnCaches()) && caches == old(caches) && database in caches && caches[database].Apart()
      requires fresh(caches[database].footprint - old(caches[database].footprint))
      requires forall d :: d in caches && d != database ==>
                 caches[d].footprint == old(caches[d].footprint) && caches[d].Apart()
      ensures OwnCaches()
    {
    }

    /** A key that is not there is deleted too, and costs the count 40 bytes and its name. */
    method DeleteKey(database: int, key: string) returns (ok: bool)
      requires Valid() && (Caching() ==> Usable(database))
      modifies this`store, this`memUsed, this`keysWithExpiry
      modifies if Caching() then Used(database) else {}
      ensures Valid() && View() == Deleted(old(View()), database, key)
      ensures ok == Deletable(old(View()), database, key)
      ensures ok <==> var was := Lookup(old(store), database, key); was.Some? ==> was.value.value.mem.Some?
      ensures ok ==> Lookup(store, database, key) == None
      ensures forall d, k :: !(d == database && k == key && ok) ==> Lookup(store, d, k) == Lookup(old(store), d, k)
      ensures var was := Lookup(old(store), database, key);
              memUsed == if !ok then old(memUsed)
                         else old(memUsed) - 40 - |key| - (if was.Some? then was.value.value.mem.value else 0)
      ensures Caching() ==>
                && Usable(database) && caches[database].footprint <= old(caches[database].footprint)
                && Used(database) <= old(Used(database))
                && Cached(database) == if ok then LFU.Drop(old(Cached(database)), key) else old(Cached(database))
    {
      ok := DeleteData(database, key);
      ghost var data := View();
      assert OwnCaches() && caches == old(caches) && (Caching() ==> Used(database) == old(Used(database)));
      assert Caching() ==> Usable(database) && Cached(database) == old(Cached(database));
      DropIfCached(database, key, ok);
      assert View() == data;
    }

    method DropIfCached(database: int, key: string, deleted: bool)
      requires OwnCaches() && (Caching() ==> Usable(database))
      modifies if Caching() then Used(database) else {}
      ensures OwnCaches()
      ensures Caching() ==>
                && Usable(database) && caches[database].footprint <= old(caches[database].footprint)
                && Used(database) <= old(Used(database))
                && Cached(database) == if deleted then LFU.Drop(old(Cached(database)), key) else old(Cached(database))
    {
      if deleted && Caching() {
        DropFromCache(database, key);
      }
    }

    method DropFromCache(database: int, key: string)
      requires OwnCaches() && Caching() && Usable(database)
      modifies Used(database)
      ensures OwnCaches() && Usable(database) && caches[database].footprint <= old(caches[database].footprint)
      ensures Used(database) <= old(Used(database))
      ensures Cached(database) == LFU.Drop(old(Cached(database)), key)
    {
      caches[database].Drop(UsesLFU(), key);
      forall d | d in caches && d != database
        ensures caches[d].footprint == old(caches[d].footprint) && caches[d].Apart()
      {
        assert old(caches[d].Apart() && caches[d].footprint !! caches[database].footprint);
      }
      StillOwn(database);
    }

    method DeleteData(database: int, key: string) returns (ok: bool)
      modifies this`store, this`memUsed, this`keysWithExpiry
      ensures store.Keys == old(store.Keys)
      ensures View() == Deleted(old(View()), database, key)
      ensures ok == Deletable(old(View()), database, key)
      ensures ok <==> var was := Lookup(old(store), database, key); was.Some? ==> was.value.value.mem.Some?
      ensures ok ==> Lookup(store, database, key) == None
      ensures forall d, k :: !(d == database && k == key && ok) ==> Lookup(store, d, k) == Lookup(old(store), d, k)
      ensures var was := Lookup(old(store), database, key);
              memUsed == if !ok then old(memUsed)
                         else old(memUsed) - 40 - |key| - (if was.Some? then was.value.value.mem.value else 0)
    {
      var data := if database in store && key in store[database] then store[database][key] else KeyData(NIL, None);
      if data.value.mem.None? {
        return false;
      }
      memUsed := memUsed - EntryCost(key, data);
      if database in store {
        store := store[database := store[database] - {key}];
      }
      RemoveFromTracker(database, key);
      ok := true;
    }

    method RemoveFromTracker(database: int, key: string)
      modifies this`keysWithExpiry
      ensures keysWithExpiry == old(keysWithExpiry)[database := Without(Tracked(old(View()), database), key)]
    {
      var listed := if database in keysWithExpiry then keysWithExpiry[database] else [];
      var kept: seq<string> := [];
      assert listed[0..] == listed;
      for i := 0 to |listed|
        invariant keysWithExpiry == old(keysWithExpiry)
        invariant kept + Without(listed[i..], key) == Without(listed, key)
      {
        assert listed[i..][0] == listed[i] && listed[i..][1..] == listed[i + 1..];
        if listed[i] != key {
          ConcatAssoc(kept, [listed[i]], Without(listed[i + 1..], key));
          kept := kept + [listed[i]];
        } else {
          assert [] + Without(listed[i + 1..], key) == Without(listed[i + 1..], key);
        }
      }
      assert listed[|listed|..] == [];
      assert kept + [] == kept;
      keysWithExpiry := keysWithExpiry[database := kept];
    }

    /** The part of Flush that concerns one database. */
    method Flush(database: int)
      requires Valid() && database in store
      modifies this`store, this`keysWithExpiry
      modifies caches[database], caches[database].lfu, caches[database].lfu.heap
      modifies caches[database].lru, caches[database].lru.heap
      ensures Valid() && View() == Flushed(old(View()), database)
      ensures store == old(store)[database := map[]] && memUsed == old(memUsed)
      ensures database in keysWithExpiry && forall k <- keysWithExpiry[database] :: k == ""
      ensures |keysWithExpiry[database]| == |Tracked(old(View()), database)|
      ensures caches[database].lfu.Valid() <==> old(caches[database].lfu.heap.entries) == []
      ensures caches[database].lru.Valid() <==> old(caches[database].lru.heap.entries) == []
    {
      FlushData(database);
      FlushCaches(database);
    }

    method FlushData(database: int)
      requires database in store
      modifies this`store, this`keysWithExpiry
      ensures View() == Flushed(old(View()), database) && store.Keys == old(store.Keys)
      ensures store == old(store)[database := map[]] && memUsed == old(memUsed)
      ensures database in keysWithExpiry && forall k <- keysWithExpiry[database] :: k == ""
      ensures |keysWithExpiry[database]| == |Tracked(old(View()), database)|
    {
      var listed := if database in keysWithExpiry then keysWithExpiry[database] else [];
      store := store[database := map[]];
      keysWithExpiry := keysWithExpiry[database := seq(|listed|, _ => "")];
    }

    method FlushCaches(database: int)
      requires OwnCaches() && database in caches
      modifies caches[database], caches[database].lfu, caches[database].lfu.heap
      modifies caches[database].lru, caches[database].lru.heap
      ensures OwnCaches()
      ensures caches[database].lfu.Valid() <==> old(caches[database].lfu.heap.entries) == []
      ensures caches[database].lru.Valid() <==> old(caches[database].lru.heap.entries) == []
    {
      caches[database].Flush();
      forall d | d in caches && d != database
        ensures caches[d].footprint == old(caches[d].footprint) && caches[d].Apart()
      {
        assert old(caches[d].Apart() && caches[d].footprint !! caches[database].footprint);
      }
      StillOwn(database);
    }

    method TouchCache(database: int, key: string, pushed: int, now: int)
      requires OwnCaches() && Caching() && Usable(database)
      modifies Used(database)
      ensures OwnCaches() && Usable(database)
      ensures fresh(caches[database].footprint - old(caches[database].footprint))
      ensures Cached(database) == Touched(UsesLFU(), old(Cached(database)), key, pushed, now)
    {
      caches[database].Touch(UsesLFU(), key, pushed, now);
      forall d | d in caches && d != database
        ensures caches[d].footprint == old(caches[d].footprint) && caches[d].Apart()
      {
        assert old(caches[d].Apart() && caches[d].footprint !! caches[database].footprint);
      }
      StillOwn(database);
    }

    /** The part of `updateKeysInCache` that touches the cache, for one key. */
    method UpdateKeyInCache(database: int, key: string, pushed: int, now: int)
      requires Valid() && database in store && (Caching() ==> Usable(database))
      modifies Used(database)
      ensures Valid() && fresh(caches[database].footprint - old(caches[database].footprint))
      ensures Caching() ==>
                && Usable(database)
                && Cached(database) ==
                   if maxMemory != 0 && Cacheable(View(), database, key, Volatile())
                   then Touched(UsesLFU(), old(Cached(database)), key, pushed, now) else old(Cached(database))
      ensures policy.AllKeysLFU? || policy.VolatileLFU? ==>
                && caches[database].lfu.Valid()
                && caches[database].lfu.Items() ==
                   if 0 < maxMemory && key in store[database]
                      && (policy.AllKeysLFU? || store[database][key].expireAt.Some?)
                   then LFU.Touch(old(caches[database].lfu.Items()), key, now) else old(caches[database].lfu.Items())
      ensures policy.AllKeysLRU? || policy.VolatileLRU? ==>
                && caches[database].lru.Valid()
                && caches[database].lru.Items() ==
                   if 0 < maxMemory && key in store[database]
                      && (policy.AllKeysLRU? || store[database][key].expireAt.Some?)
                   then LRU.Touch(old(caches[database].lru.Items()), key, pushed, now)
                   else old(caches[database].lru.Items())
    {
      TouchIfCacheable(database, key, pushed, now);
    }

    method TouchIfCacheable(database: int, key: string, pushed: int, now: int)
      requires OwnCaches() && database in caches && database in store && (Caching() ==> Usable(database))
      modifies Used(database)
      ensures OwnCaches() && fresh(caches[database].footprint - old(caches[database].footprint))
      ensures Caching() ==>
                && Usable(database)
                && Cached(database) ==
                   if maxMemory != 0 && Cacheable(View(), database, key, Volatile())
                   then Touched(UsesLFU(), old(Cached(database)), key, pushed, now) else old(Cached(database))
    {
      if maxMemory == 0 || key !in store[database] {
        return;
      }
      if policy.AllKeysLFU? || policy.AllKeysLRU? || (Volatile() && store[database][key].expireAt.Some?) {
        TouchCache(database, key, pushed, now);
      }
    }

    /** What one call leaves of the data and of the database's cache. */
    ghost function Result(database: int, outcome: Outcome): Evicted
      requires Usable(database)
      reads this, caches[database].lfu.Repr() + caches[database].lru.Repr()
    {
      Evicted(View(), Cached(database), outcome)
    }

    /** The loop as the policy has it. */
    ghost function Loop(s: Data, database: int, items: Items): Evicted {
      if UsesLFU() then EvictLoop(s, database, items, maxMemory) else RecencyLoop(s, database, items, maxMemory)
    }

    method AdjustMemoryUsage(database: int) returns (outcome: Outcome)
      requires Valid() && Caching() && Usable(database)
      modifies this`store, this`memUsed, this`keysWithExpiry, Used(database)
      ensures Valid() && Usable(database)
      ensures caches[database].footprint <= old(caches[database].footprint)
      ensures Result(database, outcome) ==
              if old(MaxMemoryExceeded()) then Loop(old(View()), database, old(Cached(database)))
              else Evicted(old(View()), old(Cached(database)), WithinLimit)
      ensures maxMemory == 0
              || (if old(memUsed) < 0 then old(memUsed) + 0x1_0000_0000_0000_0000 else old(memUsed)) < maxMemory ==>
                outcome == WithinLimit && View() == old(View()) && Cached(database) == old(Cached(database))
      ensures outcome == WithinLimit <==>
                maxMemory == 0
                || (if memUsed < 0 then memUsed + 0x1_0000_0000_0000_0000 else memUsed) < maxMemory
      ensures outcome == CacheEmpty ==> Cached(database) == []
    {
      if !MaxMemoryExceeded() {
        return WithinLimit;
      }
      LoopSaysSo(View(), database, Cached(database));
      outcome := EvictUntilUnder(database);
    }

    lemma LoopSaysSo(s: Data, database: int, items: Items)
      requires !UnderLimit(s.memUsed, maxMemory)
      ensures var e := Loop(s, database, items);
              && (e.outcome == WithinLimit <==>
                    (if e.data.memUsed < 0 then e.data.memUsed + 0x1_0000_0000_0000_0000
                     else e.data.memUsed) < maxMemory)
              && (e.outcome == CacheEmpty ==> e.items == [])
    {
      LoopReports(s, database, items, maxMemory);
      RecencyLoopReports(s, database, items, maxMemory);
    }

    method EvictUntilUnder(database: int) returns (outcome: Outcome)
      requires Valid() && Caching() && Usable(database)
      modifies this`store, this`memUsed, this`keysWithExpiry, Used(database)
      ensures Valid() && Usable(database)
      ensures caches[database].footprint <= old(caches[database].footprint)
      ensures Result(database, outcome) == Loop(old(View()), database, old(Cached(database)))
    {
      ghost var start, items := View(), Cached(database);
      while true
        invariant Valid() && Usable(database)
        invariant Used(database) <= old(Used(database))
        invariant caches[database].footprint <= old(caches[database].footprint)
        invariant Loop(View(), database, Cached(database)) == Loop(start, database, items)
        decreases |Cached(database)|
      {
        if caches[database].IsEmpty(UsesLFU()) {
          return CacheEmpty;
        }
        var deleted := EvictFirst(database);
        if !deleted {
          return DeleteFailed;
        }
        if UnderLimit(memUsed, maxMemory) {
          return WithinLimit;
        }
      }
    }

    /** What a turn leaves of the cache. */
    ghost function Turned(items: Items, deleted: bool): (r: Items)
      requires items != []
      ensures |r| < |items|
    {
      if deleted && !UsesLFU() then AfterTurn(items) else Heap.Pop(items)
    }

    method EvictFirst(database: int) returns (deleted: bool)
      requires Valid() && Caching() && Usable(database) && Cached(database) != []
      modifies this`store, this`memUsed, this`keysWithExpiry, Used(database)
      ensures Valid() && Usable(database)
      ensures caches[database].footprint <= old(caches[database].footprint) && Used(database) <= old(Used(database))
      ensures var key := old(Cached(database))[0].key;
              && deleted == Deletable(old(View()), database, key)
              && View() == (if deleted then Deleted(old(View()), database, key) else old(View()))
      ensures Cached(database) == Turned(old(Cached(database)), deleted)
    {
      if UsesLFU() {
        PoppedIsGone(Cached(database));
      }
      var key := PopFromCache(database);
      deleted := DeleteKey(database, key);
    }

    method PopFromCache(database: int) returns (key: string)
      requires OwnCaches() && Caching() && Usable(database) && Cached(database) != []
      modifies Used(database)
      ensures OwnCaches() && Usable(database)
      ensures caches[database].footprint <= old(caches[database].footprint) && Used(database) <= old(Used(database))
      ensures key == old(Cached(database))[0].key && Cached(database) == Heap.Pop(old(Cached(database)))
    {
      key := caches[database].Pop(UsesLFU());
      forall d | d in caches && d != database
        ensures caches[d].footprint == old(caches[d].footprint) && caches[d].Apart()
      {
        assert old(caches[d].Apart() && caches[d].footprint !! caches[database].footprint);
      }
      StillOwn(database);
    }

    lemma PoppedIsGone(top: Items)
      requires top != [] && LFU.GoodCache(top)
      ensures LFU.Drop(Heap.Pop(top), top[0].key) == Heap.Pop(top)
    {
      LFU.PopLookup(top, top[0].key);
    }
  }
}
