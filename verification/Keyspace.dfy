/** The data of a standalone server: the databases, the count of memory used, and
    for each database the list of keys that were given an expiry time. */
module Keyspace {
  import opened Common
  import opened Database

  type Tracker = map<int, seq<string>>

  datatype Data = Data(store: State, memUsed: int, tracker: Tracker)

  // ----- the cost of an entry --------------------------------------------------------------

  const TIME_SIZE: nat := 24    // unsafe.Sizeof of a time.Time
  const STRING_SIZE: nat := 16  // unsafe.Sizeof of a string header

  /** What an entry adds to, and takes from, the count of memory used. */
  function EntryCost(key: string, data: KeyData): nat {
    TIME_SIZE + (if data.value.mem.Some? then data.value.mem.value else 0) + STRING_SIZE + |key|
  }

  // ----- the operations ----------------------------------------------------------------------

  function Created(s: Data, database: int): Data {
    s.(store := s.store[database := map[]], tracker := s.tracker[database := []])
  }

  function Ensured(s: Data, database: int): Data {
    if database in s.store then s else Created(s, database)
  }

  /** One turn of the loop of `setValues`; a value of an unsupported type is
      stored before its size is asked for, and then the loop stops with an error. */
  function SetOne(s: Data, database: int, key: string, value: Value): Data {
    var keys := Keyspace(s.store, database);
    var data := KeyData(value, if key in keys then keys[key].expireAt else None);
    Data(s.store[database := keys[key := data]],
         s.memUsed + (if value.mem.Some? then EntryCost(key, data) else 0),
         s.tracker)
  }

  function SetInOrder(s: Data, database: int, entries: map<string, Value>, order: seq<string>): Data
    requires forall k <- order :: k in entries
    decreases |order|
  {
    if order == [] then s
    else
      var s' := SetOne(s, database, order[0], entries[order[0]]);
      if entries[order[0]].mem.None? then s' else SetInOrder(s', database, entries, order[1..])
  }

  /** The value of an absent key is a nil interface. */
  const NIL: Value := Value("", Some(0))

  function ValueAt(s: Data, database: int, key: string): Value {
    var e := Lookup(s.store, database, key);
    if e.Some? then e.value.value else NIL
  }

  function Tracked(s: Data, database: int): seq<string> {
    if database in s.tracker then s.tracker[database] else []
  }

  function ExpirySet(s: Data, database: int, key: string, expireAt: Option<int>): Data {
    var keys := Keyspace(s.store, database);
    var listed := Tracked(s, database);
    s.(store := s.store[database := keys[key := KeyData(ValueAt(s, database, key), expireAt)]],
       tracker := s.tracker[database := if key in listed then listed else listed + [key]])
  }

  function Without(listed: seq<string>, key: string): (r: seq<string>)
    ensures forall k :: k in r <==> k in listed && k != key
  {
    if listed == [] then []
    else (if listed[0] == key then [] else [listed[0]]) + Without(listed[1..], key)
  }

  function Deletable(s: Data, database: int, key: string): bool {
    ValueAt(s, database, key).mem.Some?
  }

  /** An absent key is deleted too, at the cost of a nil value. */
  function Deleted(s: Data, database: int, key: string): Data {
    var e := Lookup(s.store, database, key);
    if !Deletable(s, database, key) then s
    else
      Data(if database in s.store then s.store[database := s.store[database] - {key}] else s.store,
           s.memUsed - EntryCost(key, if e.Some? then e.value else KeyData(NIL, None)),
           s.tracker[database := Without(Tracked(s, database), key)])
  }

  /** The store is emptied; the slots of the tracker are zeroed and stay; the
      count of memory used is left as it is. */
  function Zeroed(listed: seq<string>): seq<string> {
    seq(|listed|, _ => "")
  }

  function Flushed(s: Data, database: int): Data {
    s.(store := s.store[database := map[]], tracker := s.tracker[database := Zeroed(Tracked(s, database))])
  }

  // ----- what the operations leave, entry by entry ------------------------------------------------

  function HeldExpiry(s: State, database: int, key: string): Option<int> {
    var e := Lookup(s, database, key);
    if e.Some? then e.value.expireAt else None
  }

  /** How many keys a call sets before a value of an unsupported type ends it, that one included. */
  function Reached(entries: map<string, Value>, order: seq<string>): (n: nat)
    requires forall k <- order :: k in entries
    ensures n <= |order|
    ensures (forall k <- order :: entries[k].mem.Some?) ==> n == |order|
  {
    if order == [] then 0
    else if entries[order[0]].mem.None? then 1
    else 1 + Reached(entries, order[1..])
  }

  /** Each key reached holds its new value with the expiry time that it had, if it was
      there, or none; all other keys of all databases are as they were. */
  lemma {:induction false} SetInOrderLookup(s: Data, database: int, entries: map<string, Value>, order: seq<string>,
                                            d: int, key: string)
    requires forall k <- order :: k in entries
    ensures Lookup(SetInOrder(s, database, entries, order).store, d, key) ==
            if d == database && key in order[..Reached(entries, order)]
            then Some(KeyData(entries[key], HeldExpiry(s.store, d, key)))
            else Lookup(s.store, d, key)
    decreases |order|
  {
    if order != [] {
      var first, rest, n := order[0], order[1..], Reached(entries, order);
      assert order[..n] == [first] + rest[..n - 1];
      if entries[first].mem.Some? {
        SetInOrderLookup(SetOne(s, database, first, entries[first]), database, entries, rest, d, key);
      }
    }
  }

  lemma ExpirySetLookup(s: Data, database: int, key: string, expireAt: Option<int>, d: int, k: string)
    ensures Lookup(ExpirySet(s, database, key, expireAt).store, d, k) ==
            if d == database && k == key
            then Some(KeyData(if Lookup(s.store, d, k).Some? then Lookup(s.store, d, k).value.value
                              else Value("", Some(0)), expireAt))
            else Lookup(s.store, d, k)
  {
  }

  lemma DeletedLookup(s: Data, database: int, key: string, d: int, k: string)
    ensures Lookup(Deleted(s, database, key).store, d, k) ==
            if d == database && k == key
               && (Lookup(s.store, d, k).Some? ==> Lookup(s.store, d, k).value.value.mem.Some?)
            then None else Lookup(s.store, d, k)
  {
  }

  // ----- sums over maps -----------------------------------------------------------------------

  ghost function Sum<K(!new)>(m: map<K, int>): int {
    if m == map[] then 0
    else
      var k :| k in m;
      m[k] + Sum(m - {k})
  }

  lemma {:induction false} SumPick<K(!new)>(m: map<K, int>, k: K)
    requires k in m
    ensures Sum(m) == m[k] + Sum(m - {k})
    decreases |m|
  {
    var j :| j in m && Sum(m) == m[j] + Sum(m - {j});
    if j != k {
      var rest := m - {j};
      assert rest.Keys == m.Keys - {j};
      SumPick(rest, k);
      assert (m - {k}).Keys == m.Keys - {k};
      SumPick(m - {k}, j);
      assert m - {j} - {k} == m - {k} - {j};
    }
  }

  lemma SumUpdate<K(!new)>(m: map<K, int>, k: K, v: int)
    ensures Sum(m[k := v]) == Sum(m) - (if k in m then m[k] else 0) + v
  {
    SumPick(m[k := v], k);
    if k in m {
      SumPick(m, k);
      assert m[k := v] - {k} == m - {k};
    } else {
      assert m[k := v] - {k} == m;
    }
  }

  ghost function Costs(keys: Keys): map<string, int> {
    map k | k in keys :: EntryCost(k, keys[k])
  }

  ghost function DatabaseCost(keys: Keys): int {
    Sum(Costs(keys))
  }

  ghost function DatabaseCosts(store: State): map<int, int> {
    map d | d in store :: DatabaseCost(store[d])
  }

  /** The cost of everything that is stored. */
  ghost function LiveCost(store: State): int {
    Sum(DatabaseCosts(store))
  }

  lemma KeyAddedCost(keys: Keys, key: string, data: KeyData)
    ensures DatabaseCost(keys[key := data]) ==
            DatabaseCost(keys) - (if key in keys then EntryCost(key, keys[key]) else 0) + EntryCost(key, data)
  {
    SumUpdate(Costs(keys), key, EntryCost(key, data));
    assert Costs(keys[key := data]) == Costs(keys)[key := EntryCost(key, data)];
  }

  lemma KeyRemovedCost(keys: Keys, key: string)
    requires key in keys
    ensures DatabaseCost(keys - {key}) == DatabaseCost(keys) - EntryCost(key, keys[key])
  {
    SumPick(Costs(keys), key);
    assert Costs(keys - {key}) == Costs(keys) - {key};
  }

  lemma DatabaseChangedCost(store: State, database: int, keys: Keys)
    ensures LiveCost(store[database := keys]) ==
            LiveCost(store) - DatabaseCost(Keyspace(store, database)) + DatabaseCost(keys)
  {
    SumUpdate(DatabaseCosts(store), database, DatabaseCost(keys));
    assert DatabaseCosts(store[database := keys]) == DatabaseCosts(store)[database := DatabaseCost(keys)];
    assert Costs(map[]) == map[];
  }

  lemma {:induction false} SumAdds<K(!new)>(m: map<K, int>, a: map<K, int>, b: map<K, int>)
    requires m.Keys == a.Keys == b.Keys && forall k :: k in m ==> m[k] == 40 + a[k] + b[k]
    ensures Sum(m) == 40 * |m| + Sum(a) + Sum(b)
    decreases |m|
  {
    if m != map[] {
      var k :| k in m;
      SumPick(m, k);
      SumPick(a, k);
      SumPick(b, k);
      assert (m - {k}).Keys == m.Keys - {k};
      SumAdds(m - {k}, a - {k}, b - {k});
    } else {
      assert a == map[] && b == map[];
    }
  }

  /** What the entries of a database come to: 40 bytes for each, the sizes of the values,
      and the lengths of the keys. */
  ghost function EntriesCost(keys: Keys): int {
    40 * |keys| + Sum(map k | k in keys :: keys[k].value.mem.Or(0)) + Sum(map k | k in keys :: |k|)
  }

  lemma DatabaseCostIs(keys: Keys)
    ensures DatabaseCost(keys) ==
            40 * |keys| + Sum(map k | k in keys :: keys[k].value.mem.Or(0)) + Sum(map k | k in keys :: |k|)
    ensures DatabaseCost(keys) == EntriesCost(keys)
  {
    SumAdds(Costs(keys), map k | k in keys :: keys[k].value.mem.Or(0), map k | k in keys :: |k|);
    assert |Costs(keys)| == |keys| by {
      assert Costs(keys).Keys == keys.Keys;
    }
  }

  /** The live cost is that of all databases together. */
  lemma LiveCostIs(store: State)
    ensures LiveCost(store) == Sum(map d | d in store :: EntriesCost(store[d]))
  {
    forall d | d in store ensures DatabaseCost(store[d]) == EntriesCost(store[d]) {
      DatabaseCostIs(store[d]);
    }
    assert DatabaseCosts(store) == map d | d in store :: EntriesCost(store[d]);
  }

  // ----- runs ------------------------------------------------------------------------------------

  datatype Op =
    | Create(database: int)
    | Set(database: int, key: string, value: Value)
    | Expire(database: int, key: string, expireAt: Option<int>)
    | Delete(database: int, key: string)
    | Flush(database: int)

  function Step(s: Data, op: Op): Data {
    match op
    case Create(database) => Created(s, database)
    case Set(database, key, value) => SetOne(s, database, key, value)
    case Expire(database, key, expireAt) => ExpirySet(s, database, key, expireAt)
    case Delete(database, key) => Deleted(s, database, key)
    case Flush(database) => Flushed(s, database)
  }

  const EMPTY: Data := Data(map[], 0, map[])

  function Run(ops: seq<Op>): Data {
    if ops == [] then EMPTY else Step(Run(ops[..|ops| - 1]), ops[|ops| - 1])
  }

  /** A database is created once, and used only after that. */
  predicate Enabled(s: Data, op: Op) {
    op.database in s.store <==> !op.Create?
  }

  ghost predicate Legal(ops: seq<Op>) {
    ops != [] ==> Legal(ops[..|ops| - 1]) && Enabled(Run(ops[..|ops| - 1]), ops[|ops| - 1])
  }

  lemma OneMoreOp(ops: seq<Op>, op: Op)
    ensures Run(ops + [op]) == Step(Run(ops), op)
    ensures Legal(ops + [op]) <==> Legal(ops) && Enabled(Run(ops), op)
  {
    assert (ops + [op])[..|ops|] == ops;
  }

  /** The operations of one call of `setValues` with its keys in this order: the database
      is created if need be, and nothing comes after a value of an unsupported type. */
  function SetOps(database: int, entries: map<string, Value>, order: seq<string>): seq<Op>
    requires forall k <- order :: k in entries
  {
    if order == [] then []
    else
      var key := order[0];
      [Set(database, key, entries[key])]
      + if entries[key].mem.None? then [] else SetOps(database, entries, order[1..])
  }

  function CallOps(s: Data, database: int, entries: map<string, Value>, order: seq<string>): seq<Op>
    requires forall k <- order :: k in entries
  {
    (if database in s.store then [] else [Create(database)]) + SetOps(database, entries, order)
  }

  lemma {:induction false} SetOpsRun(ops: seq<Op>, database: int, entries: map<string, Value>, order: seq<string>)
    requires Legal(ops) && database in Run(ops).store && forall k <- order :: k in entries
    ensures Legal(ops + SetOps(database, entries, order))
    ensures Run(ops + SetOps(database, entries, order)) == SetInOrder(Run(ops), database, entries, order)
    decreases |order|
  {
    if order == [] {
      assert ops + [] == ops;
    } else {
      var first := Set(database, order[0], entries[order[0]]);
      OneMoreOp(ops, first);
      if entries[order[0]].mem.None? {
        assert ops + ([first] + []) == ops + [first];
      } else {
        SetOpsRun(ops + [first], database, entries, order[1..]);
        ConcatAssoc(ops, [first], SetOps(database, entries, order[1..]));
      }
    }
  }

  /** A call that sets many keys is a run of operations, so whatever holds over runs of
      operations holds over runs of calls. */
  lemma CallIsRun(ops: seq<Op>, database: int, entries: map<string, Value>, order: seq<string>)
    requires Legal(ops) && forall k <- order :: k in entries
    ensures var s, more := Run(ops), CallOps(Run(ops), database, entries, order);
            && Legal(ops + more)
            && Run(ops + more) == SetInOrder(Ensured(s, database), database, entries, order)
            && (forall op :: op in more ==> !op.Flush? && op.database == database)
  {
    var s := Run(ops);
    var sets := SetOps(database, entries, order);
    SetOpsAreSets(database, entries, order);
    if database in s.store {
      assert [] + sets == sets;
      SetOpsRun(ops, database, entries, order);
    } else {
      OneMoreOp(ops, Create(database));
      SetOpsRun(ops + [Create(database)], database, entries, order);
      ConcatAssoc(ops, [Create(database)], sets);
    }
  }

  lemma {:induction false} SetOpsAreSets(database: int, entries: map<string, Value>, order: seq<string>)
    requires forall k <- order :: k in entries
    ensures forall op <- SetOps(database, entries, order) :: op.Set? && op.database == database
  {
    if order != [] {
      SetOpsAreSets(database, entries, order[1..]);
    }
  }

  // ----- memory accounting -------------------------------------------------------------------------

  /** The cost of what the operation overwrites or flushes: it is never given back. */
  ghost function Discarded(s: Data, op: Op): int {
    match op
    case Set(database, key, _) =>
      var e := Lookup(s.store, database, key);
      if e.Some? then EntryCost(key, e.value) else 0
    case Flush(database) => DatabaseCost(Keyspace(s.store, database))
    case _ => 0
  }

  /** The cost of what the operation stores without counting it, a value of an
      unsupported type or an expiry time for an absent key, or gives back for nothing,
      the deletion of an absent key. */
  ghost function Uncounted(s: Data, op: Op): int {
    match op
    case Set(database, key, value) => if value.mem.None? then EntryCost(key, KeyData(value, None)) else 0
    case Expire(database, key, _) =>
      if Lookup(s.store, database, key).None? then EntryCost(key, KeyData(NIL, None)) else 0
    case Delete(database, key) =>
      if Lookup(s.store, database, key).None? then EntryCost(key, KeyData(NIL, None)) else 0
    case _ => 0
  }

  ghost function TotalDiscarded(ops: seq<Op>): int {
    if ops == [] then 0
    else TotalDiscarded(ops[..|ops| - 1]) + Discarded(Run(ops[..|ops| - 1]), ops[|ops| - 1])
  }

  ghost function TotalUncounted(ops: seq<Op>): int {
    if ops == [] then 0
    else TotalUncounted(ops[..|ops| - 1]) + Uncounted(Run(ops[..|ops| - 1]), ops[|ops| - 1])
  }

  lemma StepCost(s: Data, op: Op)
    requires Enabled(s, op)
    ensures Step(s, op).memUsed - LiveCost(Step(s, op).store) ==
            s.memUsed - LiveCost(s.store) + Discarded(s, op) - Uncounted(s, op)
  {
    var keys := Keyspace(s.store, op.database);
    match op
    case Create(database) =>
      DatabaseChangedCost(s.store, database, map[]);
    case Set(database, key, value) =>
      var data := KeyData(value, if key in keys then keys[key].expireAt else None);
      DatabaseChangedCost(s.store, database, keys[key := data]);
      KeyAddedCost(keys, key, data);
    case Expire(database, key, expireAt) =>
      var data := KeyData(ValueAt(s, database, key), expireAt);
      DatabaseChangedCost(s.store, database, keys[key := data]);
      KeyAddedCost(keys, key, data);
    case Delete(database, key) => DeletedCost(s, database, key);
    case Flush(database) =>
      DatabaseChangedCost(s.store, database, map[]);
      assert Costs(map[]) == map[];
  }

  lemma DeletedCost(s: Data, database: int, key: string)
    requires database in s.store
    ensures Deleted(s, database, key).memUsed - LiveCost(Deleted(s, database, key).store) ==
            s.memUsed - LiveCost(s.store) - Uncounted(s, Delete(database, key))
  {
    var keys := s.store[database];
    if key !in keys {
      assert keys - {key} == keys && s.store[database := keys] == s.store;
    } else if Deletable(s, database, key) {
      DatabaseChangedCost(s.store, database, keys - {key});
      KeyRemovedCost(keys, key);
    }
  }

  lemma {:induction false} DiscardedIsPositive(s: Data, op: Op)
    ensures Discarded(s, op) >= 0
  {
    if op.Flush? {
      CostIsPositive(Keyspace(s.store, op.database));
    }
  }

  lemma {:induction false} CostIsPositive(keys: Keys)
    ensures DatabaseCost(keys) >= 0
    decreases |keys|
  {
    if keys == map[] {
      assert Costs(keys) == map[];
    } else {
      var k :| k in keys;
      KeyRemovedCost(keys, k);
      assert (keys - {k}).Keys == keys.Keys - {k};
      CostIsPositive(keys - {k});
    }
  }

  /** The count of memory used is the cost of the live entries, plus that of every
      version that was overwritten or flushed, less what was never counted. */
  lemma {:induction false} MemoryAccounting(ops: seq<Op>)
    requires Legal(ops)
    ensures Run(ops).memUsed == LiveCost(Run(ops).store) + TotalDiscarded(ops) - TotalUncounted(ops)
  {
    if ops == [] {
      assert DatabaseCosts(map[]) == map[];
    } else {
      var before, last := ops[..|ops| - 1], ops[|ops| - 1];
      MemoryAccounting(before);
      StepCost(Run(before), last);
    }
  }

  /** The values set are of supported types; expiry and deletion are of present keys. */
  predicate Counted(s: Data, op: Op) {
    match op
    case Set(_, _, value) => value.mem.Some?
    case Expire(database, key, _) => Lookup(s.store, database, key).Some?
    case Delete(database, key) => Lookup(s.store, database, key).Some?
    case _ => true
  }

  ghost predicate AllCounted(ops: seq<Op>) {
    ops != [] ==> AllCounted(ops[..|ops| - 1]) && Counted(Run(ops[..|ops| - 1]), ops[|ops| - 1])
  }

  ghost predicate NothingDiscarded(ops: seq<Op>) {
    ops != [] ==>
      NothingDiscarded(ops[..|ops| - 1]) && Discarded(Run(ops[..|ops| - 1]), ops[|ops| - 1]) == 0
  }

  lemma {:induction false} TotalsArePositive(ops: seq<Op>)
    ensures TotalDiscarded(ops) >= 0 && TotalUncounted(ops) >= 0
    ensures TotalDiscarded(ops) == 0 <==> NothingDiscarded(ops)
    ensures TotalUncounted(ops) == 0 <==> AllCounted(ops)
  {
    if ops != [] {
      TotalsArePositive(ops[..|ops| - 1]);
      DiscardedIsPositive(Run(ops[..|ops| - 1]), ops[|ops| - 1]);
    }
  }

  /** So when everything is counted, it is never less than the live cost, and equal
      to it exactly when nothing was overwritten or flushed. */
  lemma MemoryNeverShort(ops: seq<Op>)
    requires Legal(ops) && AllCounted(ops)
    ensures Run(ops).memUsed >= LiveCost(Run(ops).store)
    ensures Run(ops).memUsed == LiveCost(Run(ops).store) <==> NothingDiscarded(ops)
  {
    MemoryAccounting(ops);
    TotalsArePositive(ops);
  }

  // ----- the expiry tracker ----------------------------------------------------------------------------

  /** Every key with an expiry time is listed for its database. */
  ghost predicate ExpiryListed(s: Data) {
    forall d, k :: Lookup(s.store, d, k).Some? && Lookup(s.store, d, k).value.expireAt.Some? ==> k in Tracked(s, d)
  }

  /** The lists name present keys only, each once. */
  ghost predicate ListedPresent(s: Data) {
    forall d :: Distinct(Tracked(s, d)) && forall k :: k in Tracked(s, d) ==> Lookup(s.store, d, k).Some?
  }

  lemma StepExpiryListed(s: Data, op: Op)
    requires Enabled(s, op) && !op.Flush? && ExpiryListed(s)
    ensures ExpiryListed(Step(s, op))
  {
    var s' := Step(s, op);
    forall d, k | Lookup(s'.store, d, k).Some? && Lookup(s'.store, d, k).value.expireAt.Some?
      ensures k in Tracked(s', d)
    {
      assert (Lookup(s.store, d, k).Some? && Lookup(s.store, d, k).value.expireAt.Some? && k in Tracked(s, d))
             || (op.Expire? && d == op.database && k == op.key);
    }
  }

  lemma FlushExpiryListed(s: Data, database: int)
    requires ExpiryListed(s)
    ensures ExpiryListed(Flushed(s, database))
  {
    var s' := Flushed(s, database);
    forall d, k | Lookup(s'.store, d, k).Some? && Lookup(s'.store, d, k).value.expireAt.Some?
      ensures k in Tracked(s', d)
    {
      assert Lookup(s.store, d, k) == Lookup(s'.store, d, k);
    }
  }

  /** After every legal run, flushes included, no key with an expiry time is missing. */
  lemma {:induction false} TrackerIsComplete(ops: seq<Op>)
    requires Legal(ops)
    ensures ExpiryListed(Run(ops))
  {
    if ops != [] {
      var before, last := ops[..|ops| - 1], ops[|ops| - 1];
      TrackerIsComplete(before);
      if last.Flush? {
        FlushExpiryListed(Run(before), last.database);
      } else {
        StepExpiryListed(Run(before), last);
      }
    }
  }

  lemma {:induction false} WithoutDistinct(listed: seq<string>, key: string)
    requires Distinct(listed)
    ensures Distinct(Without(listed, key))
  {
    if listed != [] {
      assert Distinct(listed[1..]);
      WithoutDistinct(listed[1..], key);
      assert listed[0] !in listed[1..];
    }
  }

  lemma StepListedPresent(s: Data, op: Op)
    requires Enabled(s, op) && !op.Flush? && ListedPresent(s)
    ensures ListedPresent(Step(s, op))
  {
    var s' := Step(s, op);
    forall d
      ensures Distinct(Tracked(s', d)) && forall k :: k in Tracked(s', d) ==> Lookup(s'.store, d, k).Some?
    {
      WithoutDistinct(Tracked(s, d), if op.Delete? then op.key else "");
      forall k | k in Tracked(s', d) ensures Lookup(s'.store, d, k).Some? {
        assert k in Tracked(s, d) || (op.Expire? && op.key == k);
      }
    }
  }

  ghost predicate NoFlush(ops: seq<Op>) {
    forall op: Op :: op in ops ==> !op.Flush?
  }

  /** In a run without flushes the lists have no stale names and no duplicates. */
  lemma {:induction false} TrackerIsExact(ops: seq<Op>)
    requires Legal(ops) && NoFlush(ops)
    ensures ListedPresent(Run(ops))
  {
    if ops != [] {
      var before, last := ops[..|ops| - 1], ops[|ops| - 1];
      assert last in ops;
      TrackerIsExact(before);
      StepListedPresent(Run(before), last);
    }
  }

  /** A run that leaves a stale name: a key is given an expiry time, then a flush. */
  lemma StaleNameExample(key: string, value: Value, at: int)
    ensures var ops := [Create(0)] + [Set(0, key, value)] + [Expire(0, key, Some(at))] + [Flush(0)];
            Legal(ops) && !ListedPresent(Run(ops)) && Run(ops).store == map[0 := map[]]
  {
    var one := [Create(0)];
    var two := one + [Set(0, key, value)];
    var three := two + [Expire(0, key, Some(at))];
    assert one == [] + [Create(0)];
    OneMoreOp([], Create(0));
    OneMoreOp(one, Set(0, key, value));
    OneMoreOp(two, Expire(0, key, Some(at)));
    OneMoreOp(three, Flush(0));
    assert Tracked(Run(three), 0) == [] + [key];
    var s := Run(three + [Flush(0)]);
    assert Tracked(s, 0)[0] in Tracked(s, 0) && Lookup(s.store, 0, Tracked(s, 0)[0]).None?;
  }

  /** A flush leaves a stale name in the list exactly when the list was not empty. */
  lemma FlushLeavesStaleNames(s: Data, database: int)
    requires ListedPresent(s)
    ensures ListedPresent(Flushed(s, database)) <==> Tracked(s, database) == []
  {
    var s' := Flushed(s, database);
    if Tracked(s, database) != [] {
      assert Tracked(s', database)[0] in Tracked(s', database);
      assert Lookup(s'.store, database, Tracked(s', database)[0]).None?;
    } else {
      forall d
        ensures Distinct(Tracked(s', d)) && forall k :: k in Tracked(s', d) ==> Lookup(s'.store, d, k).Some?
      {
        assert d != database ==> Tracked(s', d) == Tracked(s, d);
        forall k | k in Tracked(s', d) ensures Lookup(s'.store, d, k).Some? {
          assert Lookup(s.store, d, k).Some?;
        }
      }
    }
  }
}
