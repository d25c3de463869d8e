/** The logical databases, and what it means for a key to have expired. */
module Database {
  import opened Common

  /** A stored value: its content, and its size as the memory accounting sees it
      (`None` for a type that the accounting refuses). */
  datatype Value = Value(content: string, mem: Option<nat>)

  /** `expireAt` is `None` for the zero `time.Time`: the key never expires. */
  datatype KeyData = KeyData(value: Value, expireAt: Option<int>)

  type Keys = map<string, KeyData>
  type State = map<int, Keys>

  predicate Expired(now: int, data: KeyData) {
    data.expireAt.Some? && data.expireAt.value < now
  }

  function Keyspace(s: State, database: int): Keys {
    if database in s then s[database] else map[]
  }

  function Lookup(s: State, database: int, key: string): Option<KeyData> {
    var keys := Keyspace(s, database);
    if key in keys then Some(keys[key]) else None
  }

  /** The entry as a reader at time `now` is meant to see it. */
  function Live(now: int, s: State, database: int, key: string): Option<KeyData> {
    match Lookup(s, database, key)
    case None => None
    case Some(data) => if Expired(now, data) then None else Some(data)
  }

  /** No reader at time `now` can tell the states apart. */
  ghost predicate SameLive(now: int, s: State, s': State) {
    forall database, key :: Live(now, s, database, key) == Live(now, s', database, key)
  }

  // ----- dropping expired keys --------------------------------------------------------

  function Unexpired(now: int, keys: Keys): Keys {
    map k | k in keys && !Expired(now, keys[k]) :: keys[k]
  }

  function Filter(now: int, s: State): State {
    map d | d in s :: Unexpired(now, s[d])
  }

  lemma FilterLookup(now: int, s: State, database: int, key: string)
    ensures Lookup(Filter(now, s), database, key) == Live(now, s, database, key)
  {
  }

  /** A later filter hides whatever an earlier one has dropped. */
  lemma FilterIsInvisible(now: int, later: int, s: State)
    requires now <= later
    ensures SameLive(later, Filter(now, s), s)
    ensures Filter(later, Filter(now, s)) == Filter(later, s)
  {
    forall d, k ensures Live(later, Filter(now, s), d, k) == Live(later, s, d, k) {
      FilterLookup(now, s, d, k);
    }
    assert forall d | d in s :: Unexpired(later, Unexpired(now, s[d])) == Unexpired(later, s[d]);
  }

  /** First the expired keys of a database are listed, then each is deleted. */
  method FilterDatabase(now: int, data: Keys) returns (kept: Keys)
    ensures kept == Unexpired(now, data)
  {
    var keysToDelete: seq<string> := [];
    var order := RangeOrder(data.Keys);
    for i := 0 to |order|
      invariant forall k :: k in keysToDelete <==> k in order[..i] && Expired(now, data[k])
    {
      var k := order[i];
      if data[k].expireAt != None && data[k].expireAt.value < now {
        keysToDelete := keysToDelete + [k];
      }
    }
    assert order[..|order|] == order;
    kept := data;
    for i := 0 to |keysToDelete|
      invariant kept == map k | k in data && k !in keysToDelete[..i] :: data[k]
    {
      kept := kept - {keysToDelete[i]};
    }
    assert keysToDelete[..|keysToDelete|] == keysToDelete;
  }

  /** The state is updated in place, database by database. */
  method FilterExpiredKeys(now: int, state: State) returns (filtered: State)
    ensures filtered == Filter(now, state)
    ensures filtered.Keys == state.Keys
    ensures forall d, k :: d in state ==>
              (k in filtered[d] <==>
                 k in state[d] && (state[d][k].expireAt.None? || now <= state[d][k].expireAt.value))
    ensures forall d, k :: d in state && k in filtered[d] ==> filtered[d][k] == state[d][k]
  {
    filtered := state;
    var order := RangeOrder(state.Keys);
    for i := 0 to |order|
      invariant filtered.Keys == state.Keys
      invariant forall j :: 0 <= j < i ==> filtered[order[j]] == Unexpired(now, state[order[j]])
      invariant forall j :: i <= j < |order| ==> filtered[order[j]] == state[order[j]]
    {
      var kept := FilterDatabase(now, filtered[order[i]]);
      filtered := filtered[order[i] := kept];
    }
    forall d | d in state ensures filtered[d] == Unexpired(now, state[d]) {
      var j :| 0 <= j < |order| && order[j] == d;
    }
  }

  // ----- loading entries into a state ----------------------------------------------------

  function NonEmpty(data: State): set<int> {
    set d | d in data && data[d] != map[]
  }

  /** Every entry of `data` set in `s`; a database is created when it gets a key. */
  function Load(s: State, data: State): State {
    map d | d in s.Keys + NonEmpty(data) :: Keyspace(s, d) + Keyspace(data, d)
  }

  function Single(database: int, keys: Keys): State {
    map[database := keys]
  }

  lemma LoadSingle(s: State, database: int, keys: Keys)
    requires keys != map[]
    ensures Load(s, Single(database, keys)) == s[database := Keyspace(s, database) + keys]
  {
    var one := Single(database, keys);
    assert NonEmpty(one) == {database};
    forall d | d in s && d != database ensures Keyspace(s, d) + Keyspace(one, d) == s[d] {
      assert s[d] + map[] == s[d];
    }
  }

  lemma LoadEmpty(s: State, data: State)
    requires NonEmpty(data) == {}
    ensures Load(s, data) == s
  {
    forall d | d in s ensures Keyspace(s, d) + Keyspace(data, d) == s[d] {
      assert Keyspace(data, d) == map[];
      assert s[d] + map[] == s[d];
    }
  }

  lemma LoadLookup(s: State, data: State, database: int, key: string)
    ensures Lookup(Load(s, data), database, key) ==
            if Lookup(data, database, key).Some? then Lookup(data, database, key) else Lookup(s, database, key)
  {
  }

  lemma KeyspaceLoad(s: State, data: State, database: int)
    ensures Keyspace(Load(s, data), database) == Keyspace(s, database) + Keyspace(data, database)
  {
    if database !in Load(s, data) {
      assert Keyspace(s, database) + Keyspace(data, database) == map[];
    }
  }

  ghost predicate Agrees(r: State, s: State, data: State, d: int) {
    d in r && r[d] == Keyspace(s, d) + Keyspace(data, d)
  }

  lemma LoadIs(r: State, s: State, data: State)
    requires r.Keys == s.Keys + NonEmpty(data)
    requires forall d | d in r :: Agrees(r, s, data, d)
    ensures r == Load(s, data)
  {
    forall d | d in r ensures r[d] == Load(s, data)[d] {
      assert Agrees(r, s, data, d);
    }
  }

  /** Loading one database after others is loading them together. */
  lemma LoadOneMoreDatabase(s: State, data: State, database: int, keys: Keys)
    requires database !in data
    ensures Load(Load(s, data), Single(database, keys)) == Load(s, data[database := keys])
  {
    if keys != map[] {
      LoadOneMore(s, data, database, keys);
    } else {
      LoadEmpty(Load(s, data), Single(database, keys));
      NonEmptyMore(data, database, keys);
      forall d | d in Load(s, data) ensures Agrees(Load(s, data), s, data[database := keys], d) {
        assert Keyspace(data[database := keys], d) == Keyspace(data, d);
      }
      LoadIs(Load(s, data), s, data[database := keys]);
    }
  }

  lemma LoadOneMore(s: State, data: State, database: int, keys: Keys)
    requires database !in data && keys != map[]
    ensures Load(Load(s, data), Single(database, keys)) == Load(s, data[database := keys])
  {
    var start, more := Load(s, data), data[database := keys];
    var r := start[database := Keyspace(start, database) + keys];
    LoadSingle(start, database, keys);
    NonEmptyMore(data, database, keys);
    forall d | d in r ensures Agrees(r, s, more, d) {
      KeyspaceLoad(s, data, d);
      if d == database {
        assert Keyspace(s, d) + map[] == Keyspace(s, d);
      }
    }
    LoadIs(r, s, more);
  }

  lemma NonEmptyMore(data: State, database: int, keys: Keys)
    requires database !in data
    ensures NonEmpty(data[database := keys]) ==
            NonEmpty(data) + (if keys == map[] then {} else {database})
  {
    var more := data[database := keys];
    assert forall d :: d in NonEmpty(more) <==> d in NonEmpty(data) || (d == database && keys != map[]);
  }

  lemma AddKey(base: Keys, keys: Keys, key: string, data: KeyData)
    ensures map[key := data] != map[] && keys[key := data] != map[]
    ensures base + keys + map[key := data] == base + keys[key := data]
  {
    assert key in map[key := data] && key in keys[key := data];
  }

  lemma Overwrite(s: State, database: int, was: Keys, keys: Keys)
    ensures s[database := was][database := keys] == s[database := keys]
  {
  }

  /** Loading one key after others of its database is loading them together. */
  lemma LoadOneMoreKey(s: State, database: int, keys: Keys, key: string, data: KeyData)
    ensures Load(Load(s, Single(database, keys)), Single(database, map[key := data])) ==
            Load(s, Single(database, keys[key := data]))
  {
    var base, start := Keyspace(s, database), Load(s, Single(database, keys));
    AddKey(base, keys, key, data);
    LoadSingle(start, database, map[key := data]);
    LoadSingle(s, database, keys[key := data]);
    if keys == map[] {
      LoadEmpty(s, Single(database, keys));
      assert base + keys == base;
    } else {
      LoadSingle(s, database, keys);
      Overwrite(s, database, base + keys, base + keys[key := data]);
    }
  }

  /** What a restore at time `now` makes of a stored state: a copy without the
      expired keys and without empty databases. */
  function Reloaded(now: int, s: State): State {
    Load(map[], Filter(now, s))
  }

  lemma ReloadedIsInvisible(now: int, later: int, s: State)
    requires now <= later
    ensures SameLive(later, Reloaded(now, s), s)
  {
    forall d, k ensures Live(later, Reloaded(now, s), d, k) == Live(later, s, d, k) {
      LoadLookup(map[], Filter(now, s), d, k);
      FilterLookup(now, s, d, k);
    }
  }
}
