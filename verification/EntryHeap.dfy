/** The part that both eviction caches share: a slice of entries with
    back-pointers, and `container/heap` working on it through Less and Swap. */
module EntryHeaps {
  import opened Common
  import opened Heap

  /** Both source entry types in one; a recency cache keeps `count` at 0. */
  class Entry {
    const key: string
    var count: int
    var time: int
    var index: int

    constructor (key: string, count: int, time: int, index: int)
      ensures this.key == key && this.count == count && this.time == time && this.index == index
    {
      this.key := key;
      this.count := count;
      this.time := time;
      this.index := index;
    }

    function Item(): Item
      reads this
    {
      Heap.Item(key, count, time)
    }
  }

  class EntryHeap {
    // An element is null only after a Flush.
    var entries: seq<Entry?>

    constructor ()
      ensures entries == []
    {
      entries := [];
    }

    ghost predicate Present()
      reads this
    {
      forall i :: 0 <= i < |entries| ==> entries[i] != null
    }

    /** No two slots share an entry, and every entry knows its slot. */
    ghost predicate Valid()
      reads this, entries
    {
      && Present()
      && (forall i :: 0 <= i < |entries| ==> entries[i].index == i)
    }

    function Items(): (r: seq<Item>)
      requires Present()
      reads this, entries
      ensures |r| == |entries|
    {
      seq(|entries|, i requires 0 <= i < |entries| && Present() reads this, entries => entries[i].Item())
    }

    ghost function Objects(): set<object>
      reads this
    {
      set e: Entry? | e in entries && e != null
    }

    method Swap(i: nat, j: nat)
      requires Valid() && i < |entries| && j < |entries|
      modifies this, entries[i], entries[j]
      ensures Valid() && Objects() == old(Objects())
      ensures Items() == Swapped(old(Items()), i, j)
      ensures |entries| == old(|entries|)
      ensures entries == old(entries[i := entries[j]][j := entries[i]])
    {
      assert entries[i] in entries && entries[j] in entries;
      SwapSameElements(entries, i, j);
      entries := entries[i := entries[j]][j := entries[i]];
      entries[i].index := i;
      entries[j].index := j;
    }

    /** `up` of container/heap. */
    method SiftUp(start: nat)
      requires Valid() && start < |entries|
      modifies this, Objects()
      ensures Valid() && Objects() == old(Objects()) && |entries| == old(|entries|)
      ensures Items() == Up(old(Items()), start)
    {
      var j: nat := start;
      while true
        invariant Valid() && Objects() == old(Objects()) && |entries| == old(|entries|)
        invariant j < |entries|
        invariant Up(Items(), j) == Up(old(Items()), start)
        decreases j
      {
        var i := if j == 0 then 0 else (j - 1) / 2;
        if i == j || !Before(Items()[j], Items()[i]) {
          break;
        }
        InObjects(i);
        InObjects(j);
        Swap(i, j);
        j := i;
      }
    }

    /** `down` of container/heap, on the first `n` entries. */
    method SiftDown(start: nat, n: nat) returns (moved: bool)
      requires Valid() && n <= |entries|
      modifies this, Objects()
      ensures Valid() && Objects() == old(Objects()) && |entries| == old(|entries|)
      ensures Items() == Down(old(Items()), start, n)
      ensures moved == Sinks(old(Items()), start, n)
    {
      var i: nat := start;
      while true
        invariant Valid() && Objects() == old(Objects()) && |entries| == old(|entries|)
        invariant start <= i
        invariant Down(Items(), i, n) == Down(old(Items()), start, n)
        invariant i == start ==> Items() == old(Items())
        invariant i != start ==> Sinks(old(Items()), start, n)
        decreases n - i
      {
        var first := 2 * i + 1;
        if n <= first {
          break;
        }
        var j := first;
        if first + 1 < n && Before(Items()[first + 1], Items()[first]) {
          j := first + 1;
        }
        assert j == Child(Items(), i, n);
        if !Before(Items()[j], Items()[i]) {
          break;
        }
        InObjects(i);
        InObjects(j);
        Swap(i, j);
        i := j;
      }
      moved := start < i;
    }

    lemma InObjects(i: nat)
      requires i < |entries| && entries[i] != null
      ensures entries[i] in Objects()
    {
    }

    /** Sift down, and up if that moved nothing. */
    method SettleAt(i: nat, n: nat)
      requires Valid() && i < n <= |entries|
      modifies this, Objects()
      ensures Valid() && Objects() == old(Objects()) && |entries| == old(|entries|)
      ensures Items() == Settle(old(Items()), i, n)
    {
      var moved := SiftDown(i, n);
      if !moved {
        SiftUp(i);
      }
    }

    /** What `heap.Pop` does before it has the cache cut off its last entry. */
    method LayOutPop()
      requires Valid() && entries != []
      modifies this, Objects()
      ensures Valid() && Objects() == old(Objects()) && |entries| == old(|entries|)
      ensures Items() == PopLayout(old(Items()))
    {
      InObjects(0);
      InObjects(|entries| - 1);
      Swap(0, |entries| - 1);
      var _ := SiftDown(0, |entries| - 1);
    }

    /** What `heap.Remove` does before it has the cache cut off its last entry. */
    method LayOutRemove(i: nat)
      requires Valid() && i < |entries|
      modifies this, Objects()
      ensures Valid() && Objects() == old(Objects()) && |entries| == old(|entries|)
      ensures Items() == RemoveLayout(old(Items()), i)
    {
      var n := |entries| - 1;
      if n != i {
        InObjects(i);
        InObjects(n);
        Swap(i, n);
        SettleAt(i, n);
      }
    }

    method Append(key: string, count: int, time: int)
      requires Valid()
      modifies this
      ensures Valid() && fresh(Objects() - old(Objects()))
      ensures Items() == old(Items()) + [Heap.Item(key, count, time)]
    {
      var entry := new Entry(key, count, time, |entries|);
      entries := entries + [entry];
    }

    method CutLast() returns (key: string)
      requires Valid() && entries != []
      modifies this, Objects()
      ensures Valid() && Objects() <= old(Objects())
      ensures Items() == old(Items())[..old(|entries|) - 1]
      ensures key == old(Items())[old(|entries|) - 1].key
    {
      var n := |entries|;
      var entry := entries[n - 1];
      InObjects(n - 1);
      entry.index := -1;
      entries := entries[..n - 1];
      key := entry.key;
    }

    /** `heap.Pop`: the first entry goes last and is cut off. */
    method PopEntry() returns (key: string)
      requires Valid() && entries != []
      modifies this, Objects()
      ensures Valid() && Objects() <= old(Objects())
      ensures Items() == Pop(old(Items()))
      ensures key == PopLayout(old(Items()))[old(|entries|) - 1].key
    {
      LayOutPop();
      key := CutLast();
    }

    /** `heap.Remove`, called as the caches do: with the index that the entry itself names. */
    method RemoveEntry(slot: nat) returns (key: string)
      requires Valid() && slot < |entries|
      modifies this, Objects()
      ensures Valid() && Objects() <= old(Objects())
      ensures Items() == Remove(old(Items()), slot)
      ensures key == RemoveLayout(old(Items()), slot)[old(|entries|) - 1].key
    {
      LayOutRemove(entries[slot].index);
      key := CutLast();
    }

    /** Overwrites count and time of one entry, then `heap.Fix`. */
    method ReviseEntry(slot: nat, count: int, time: int)
      requires Valid() && slot < |entries|
      modifies this, Objects()
      ensures Valid() && Objects() == old(Objects())
      ensures Items() == Settle(old(Items())[slot := Heap.Item(old(Items())[slot].key, count, time)],
                                slot, old(|entries|))
    {
      InObjects(slot);
      ghost var before := Items();
      var entry := entries[slot];
      entry.count := count;
      entry.time := time;
      assert Items() == before[slot := Heap.Item(before[slot].key, count, time)];
      SettleAt(slot, |entries|);
    }

    /** The first slot that holds the key, or `None`. */
    method IndexOf(key: string) returns (slot: Option<nat>)
      requires Valid()
      ensures slot == IndexOfKey(Items(), key)
    {
      for i := 0 to |entries|
        invariant forall k :: 0 <= k < i ==> Items()[k].key != key
      {
        if entries[i].key == key {
          IndexIsFirst(Items(), key, i);
          return Some(i);
        }
      }
      NoIndex(Items(), key);
      return None;
    }

    /** Zeroes the slots and keeps them: Go's `clear` on a slice. */
    method Clear()
      modifies this
      ensures |entries| == old(|entries|) && forall i :: 0 <= i < |entries| ==> entries[i] == null
    {
      entries := seq(|entries|, _ => null);
    }
  }
}
