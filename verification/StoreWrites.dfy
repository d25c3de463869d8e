/** The store of the memory accounting and the state that commands are replayed on are one
    thing: a set, an expiry and a deletion do the same to both. */
module StoreWrites {
  import opened Common
  import opened Database
  import opened Keyspace
  import KeyHistories

  lemma SameLookups(s: State, t: State)
    requires s.Keys == t.Keys && forall d, k :: Lookup(s, d, k) == Lookup(t, d, k)
    ensures s == t
  {
    forall d | d in s ensures s[d] == t[d] {
      forall k ensures EqualAt(s[d], t[d], k) {
        assert Lookup(s, d, k) == Lookup(t, d, k);
      }
      MapsEqual(s[d], t[d]);
    }
  }

  lemma {:induction false} SetInOrderKeys(s: Data, database: int, entries: map<string, Value>, order: seq<string>)
    requires forall k <- order :: k in entries
    requires database in s.store
    ensures SetInOrder(s, database, entries, order).store.Keys == s.store.Keys
    decreases |order|
  {
    if order != [] && entries[order[0]].mem.Some? {
      SetInOrderKeys(SetOne(s, database, order[0], entries[order[0]]), database, entries, order[1..]);
    }
  }

  /** A call of `setValues` with supported values does what SET or MSET does. */
  lemma SetsAreSetMany(now: int, s: Data, database: int, entries: map<string, Value>, order: seq<string>)
    requires Lists(order, entries.Keys) && forall k :: k in entries ==> entries[k].mem.Some?
    ensures SetInOrder(Ensured(s, database), database, entries, order).store ==
            KeyHistories.ApplyWrite(now, s.store, database, KeyHistories.SetMany(entries))
  {
    var after := SetInOrder(Ensured(s, database), database, entries, order).store;
    var applied := KeyHistories.ApplyWrite(now, s.store, database, KeyHistories.SetMany(entries));
    SetInOrderKeys(Ensured(s, database), database, entries, order);
    assert order[..|order|] == order;
    forall d, k ensures Lookup(after, d, k) == Lookup(applied, d, k) {
      SetInOrderLookup(Ensured(s, database), database, entries, order, d, k);
      KeyHistories.WriteLookup(now, s.store, database, KeyHistories.SetMany(entries), d, k);
      assert Lookup(Ensured(s, database).store, d, k) == Lookup(s.store, d, k);
    }
    SameLookups(after, applied);
  }

  /** `setExpiry` on a present key does what EXPIREAT, or PERSIST, does. */
  lemma ExpiryIsExpire(now: int, s: Data, database: int, key: string, at: int)
    requires Lookup(s.store, database, key).Some?
    ensures ExpirySet(s, database, key, Some(at)).store ==
            KeyHistories.ApplyWrite(now, s.store, database, KeyHistories.ExpireAt(key, at))
    ensures ExpirySet(s, database, key, None).store ==
            KeyHistories.ApplyWrite(now, s.store, database, KeyHistories.Persist(key))
  {
  }

  function DeleteKeys(s: Data, database: int, keys: seq<string>): Data
    decreases |keys|
  {
    if keys == [] then s else DeleteKeys(Deleted(s, database, keys[0]), database, keys[1..])
  }

  /** Deleting keys one by one, whose values are supported, does what DEL does. */
  lemma {:induction false} DeletesAreDel(now: int, s: Data, database: int, keys: seq<string>)
    requires forall k <- keys :: Deletable(s, database, k)
    ensures DeleteKeys(s, database, keys).store ==
            KeyHistories.ApplyWrite(now, s.store, database, KeyHistories.DelMany(Elems(keys)))
    decreases |keys|
  {
    if keys == [] {
      assert database in s.store ==> s.store[database] - Elems(keys) == s.store[database];
    } else {
      var once := Deleted(s, database, keys[0]);
      assert Deletable(s, database, keys[0]);
      forall k | k in keys[1..] ensures Deletable(once, database, k) {
        assert k in keys && Deletable(s, database, k);
      }
      DeletesAreDel(now, once, database, keys[1..]);
      assert Elems(keys) == {keys[0]} + Elems(keys[1..]);
      assert database in s.store ==>
               s.store[database] - {keys[0]} - Elems(keys[1..]) == s.store[database] - Elems(keys);
    }
  }
}
