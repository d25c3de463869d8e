/** The binary-heap algorithms of Go's `container/heap`, on sequences, with the
    ordering that the eviction caches give them. */
module Heap {
  import opened Common

  /** A cache entry as the heap sees it.  (For a recency cache `count` is 0.) */
  datatype Item = Item(key: string, count: int, time: int)

  /** Evicted earlier: fewer accesses, and among equals the later time. */
  predicate Before(a: Item, b: Item) {
    a.count < b.count || (a.count == b.count && a.time > b.time)
  }

  function Parent(i: nat): (p: nat)
    requires 0 < i
    ensures i == 2 * p + 1 || i == 2 * p + 2
  {
    (i - 1) / 2
  }

  function Swapped(s: seq<Item>, i: nat, j: nat): (r: seq<Item>)
    requires i < |s| && j < |s|
    ensures |r| == |s|
  {
    s[i := s[j]][j := s[i]]
  }

  // ----- the algorithms -----------------------------------------------------------------

  function Up(s: seq<Item>, j: nat): (r: seq<Item>)
    requires j < |s|
    ensures |r| == |s|
    decreases j
  {
    if j == 0 || !Before(s[j], s[Parent(j)]) then s
    else Up(Swapped(s, Parent(j), j), Parent(j))
  }

  /** The child of `i` that is evicted first, in the heap of the first `n` items. */
  function Child(s: seq<Item>, i: nat, n: nat): (j: nat)
    requires 2 * i + 1 < n <= |s|
    ensures i < j < n && Parent(j) == i
  {
    if 2 * i + 2 < n && Before(s[2 * i + 2], s[2 * i + 1]) then 2 * i + 2 else 2 * i + 1
  }

  /** Whether sifting down from `i` moves anything. */
  predicate Sinks(s: seq<Item>, i: nat, n: nat)
    requires n <= |s|
  {
    2 * i + 1 < n && Before(s[Child(s, i, n)], s[i])
  }

  function Down(s: seq<Item>, i: nat, n: nat): (r: seq<Item>)
    requires n <= |s|
    ensures |r| == |s|
    decreases n - i
  {
    if Sinks(s, i, n) then Down(Swapped(s, i, Child(s, i, n)), Child(s, i, n), n) else s
  }

  function Settle(s: seq<Item>, i: nat, n: nat): (r: seq<Item>)
    requires i < n <= |s|
    ensures |r| == |s|
  {
    if Sinks(s, i, n) then Down(s, i, n) else Up(s, i)
  }

  function Push(s: seq<Item>, x: Item): seq<Item> {
    Up(s + [x], |s|)
  }

  /** The heap with its first item moved to the end, ready to be cut off. */
  function PopLayout(s: seq<Item>): (r: seq<Item>)
    requires s != []
    ensures |r| == |s|
  {
    Down(Swapped(s, 0, |s| - 1), 0, |s| - 1)
  }

  function Pop(s: seq<Item>): (r: seq<Item>)
    requires s != []
    ensures |r| == |s| - 1
  {
    PopLayout(s)[..|s| - 1]
  }

  function RemoveLayout(s: seq<Item>, i: nat): (r: seq<Item>)
    requires i < |s|
    ensures |r| == |s|
  {
    if i == |s| - 1 then s else Settle(Swapped(s, i, |s| - 1), i, |s| - 1)
  }

  function Remove(s: seq<Item>, i: nat): seq<Item>
    requires i < |s|
  {
    RemoveLayout(s, i)[..|s| - 1]
  }

  function Drain(s: seq<Item>): (r: seq<Item>)
    ensures |r| == |s|
    decreases |s|
  {
    if s == [] then [] else [s[0]] + Drain(Pop(s))
  }

  // ----- finding a key -----------------------------------------------------------------------

  /** The first slot that holds the key. */
  function IndexOfKey(s: seq<Item>, key: string): (r: Option<nat>)
    ensures r.Some? ==> r.value < |s| && s[r.value].key == key
  {
    if s == [] then None
    else if s[0].key == key then Some(0)
    else
      match IndexOfKey(s[1..], key)
      case None => None
      case Some(i) => Some(i + 1)
  }

  lemma {:induction false} IndexIsFirst(s: seq<Item>, key: string, slot: nat)
    requires slot < |s| && s[slot].key == key && forall i :: 0 <= i < slot ==> s[i].key != key
    ensures IndexOfKey(s, key) == Some(slot)
  {
    if 0 < slot {
      IndexIsFirst(s[1..], key, slot - 1);
    }
  }

  lemma {:induction false} NoIndex(s: seq<Item>, key: string)
    ensures IndexOfKey(s, key).None? <==> forall i :: 0 <= i < |s| ==> s[i].key != key
  {
    if s != [] && s[0].key != key {
      NoIndex(s[1..], key);
      assert forall i :: 1 <= i < |s| ==> s[i] == s[1..][i - 1];
    }
  }

  // ----- heap order ------------------------------------------------------------------------

  predicate InOrder(s: seq<Item>, j: nat)
    requires j < |s|
  {
    j == 0 || !Before(s[j], s[Parent(j)])
  }

  ghost predicate IsHeap(s: seq<Item>, n: nat)
    requires n <= |s|
  {
    forall j :: 0 <= j < n ==> InOrder(s, j)
  }

  /** Heap order but for the item at `i`, which may be out of order both ways. */
  ghost predicate AlmostHeap(s: seq<Item>, i: nat, n: nat)
    requires i < n <= |s|
  {
    && (forall j {:trigger InOrder(s, j)} :: 0 <= j < n && j != i && (j == 0 || Parent(j) != i) ==> InOrder(s, j))
    && (0 < i ==> forall j :: i < j < n && Parent(j) == i ==> !Before(s[j], s[Parent(i)]))
  }

  ghost predicate ChildrenInOrder(s: seq<Item>, i: nat, n: nat)
    requires n <= |s|
  {
    forall j :: i < j < n && Parent(j) == i ==> InOrder(s, j)
  }

  lemma NotSinking(s: seq<Item>, i: nat, n: nat)
    requires i < n <= |s| && !Sinks(s, i, n)
    ensures ChildrenInOrder(s, i, n)
  {
    forall j | i < j < n && Parent(j) == i ensures InOrder(s, j) {
      assert j == 2 * i + 1 || j == 2 * i + 2;
    }
  }

  /** One step of sifting up: the disorder moves from `j` to its parent. */
  lemma UpStep(s: seq<Item>, j: nat, n: nat)
    requires 0 < j < n <= |s| && AlmostHeap(s, j, n) && ChildrenInOrder(s, j, n)
    requires Before(s[j], s[Parent(j)])
    ensures AlmostHeap(Swapped(s, Parent(j), j), Parent(j), n)
    ensures ChildrenInOrder(Swapped(s, Parent(j), j), Parent(j), n)
  {
    var i := Parent(j);
    var t := Swapped(s, i, j);
    forall k | 0 <= k < n && k != i && (k == 0 || Parent(k) != i) ensures InOrder(t, k) {
      if 0 < k && Parent(k) == j {
        assert !Before(s[k], s[i]);
      } else {
        assert InOrder(s, k);
      }
    }
    assert InOrder(s, i);
    forall k | i < k < n && Parent(k) == i
      ensures InOrder(t, k) && (0 < i ==> !Before(t[k], t[Parent(i)]))
    {
      if k != j {
        assert InOrder(s, k);
      }
    }
  }

  lemma {:induction false} UpRestores(s: seq<Item>, j: nat, n: nat)
    requires j < n <= |s| && AlmostHeap(s, j, n) && ChildrenInOrder(s, j, n)
    ensures IsHeap(Up(s, j), n)
    decreases j
  {
    if j != 0 && Before(s[j], s[Parent(j)]) {
      UpStep(s, j, n);
      UpRestores(Swapped(s, Parent(j), j), Parent(j), n);
    } else {
      assert InOrder(s, j);
      AllInOrder(s, j, n);
    }
  }

  lemma AllInOrder(s: seq<Item>, i: nat, n: nat)
    requires i < n <= |s| && AlmostHeap(s, i, n) && ChildrenInOrder(s, i, n) && InOrder(s, i)
    ensures IsHeap(s, n)
  {
    forall k | 0 <= k < n ensures InOrder(s, k) {
      if k != i && 0 < k && Parent(k) == i {
        assert i < k;
      }
    }
  }

  /** One step of sifting down: the disorder moves from `i` to its first child. */
  lemma DownStep(s: seq<Item>, i: nat, n: nat)
    requires i < n <= |s| && AlmostHeap(s, i, n) && Sinks(s, i, n)
    ensures var j := Child(s, i, n);
            var t := Swapped(s, i, j);
            AlmostHeap(t, j, n) && InOrder(t, j)
  {
    var j := Child(s, i, n);
    var t := Swapped(s, i, j);
    forall k | 0 <= k < n && k != j && (k == 0 || Parent(k) != j) ensures InOrder(t, k) {
      DownStepAt(s, i, n, k);
    }
    forall k | j < k < n && Parent(k) == j ensures !Before(t[k], t[Parent(j)]) {
      assert InOrder(s, k);
    }
  }

  lemma DownStepAt(s: seq<Item>, i: nat, n: nat, k: nat)
    requires i < n <= |s| && AlmostHeap(s, i, n) && Sinks(s, i, n)
    requires k < n && k != Child(s, i, n) && (k == 0 || Parent(k) != Child(s, i, n))
    ensures InOrder(Swapped(s, i, Child(s, i, n)), k)
  {
    var j := Child(s, i, n);
    var t := Swapped(s, i, j);
    if k != 0 {
      var p := Parent(k);
      if k == i {
        assert !Before(s[j], s[p]);
        assert t[k] == s[j] && t[p] == s[p];
      } else if p == i {
        assert t[k] == s[k] && t[p] == s[j];
        SmallerChild(s, i, n, k);
      } else {
        assert t[k] == s[k] && t[p] == s[p];
        assert InOrder(s, k);
      }
    }
  }

  lemma SmallerChild(s: seq<Item>, i: nat, n: nat, k: nat)
    requires 2 * i + 1 < n <= |s| && 0 < k < n && Parent(k) == i
    ensures !Before(s[k], s[Child(s, i, n)])
  {
  }

  lemma {:induction false} DownRestores(s: seq<Item>, i: nat, n: nat)
    requires i < n <= |s| && AlmostHeap(s, i, n)
    requires InOrder(s, i) || Sinks(s, i, n)
    ensures IsHeap(Down(s, i, n), n)
    decreases n - i
  {
    if Sinks(s, i, n) {
      var j := Child(s, i, n);
      DownStep(s, i, n);
      DownRestores(Swapped(s, i, j), j, n);
    } else {
      NotSinking(s, i, n);
      AllInOrder(s, i, n);
    }
  }

  lemma SettleRestores(s: seq<Item>, i: nat, n: nat)
    requires i < n <= |s| && AlmostHeap(s, i, n)
    ensures IsHeap(Settle(s, i, n), n)
  {
    if Sinks(s, i, n) {
      DownRestores(s, i, n);
    } else {
      NotSinking(s, i, n);
      UpRestores(s, i, n);
    }
  }

  /** Replacing one item of a heap leaves it almost in order. */
  lemma ReplaceAlmost(s: seq<Item>, i: nat, n: nat, x: Item)
    requires i < n <= |s| && IsHeap(s, n)
    ensures AlmostHeap(s[i := x], i, n)
  {
    var t := s[i := x];
    forall j | 0 <= j < n && j != i && (j == 0 || Parent(j) != i) ensures InOrder(t, j) {
      assert InOrder(s, j);
    }
    if 0 < i {
      forall j | i < j < n && Parent(j) == i ensures !Before(t[j], t[Parent(i)]) {
        assert InOrder(s, j) && InOrder(s, i);
      }
    }
  }

  lemma {:induction false} TopIsFirst(s: seq<Item>, n: nat, k: nat)
    requires k < n <= |s| && IsHeap(s, n)
    ensures !Before(s[k], s[0])
  {
    if k != 0 {
      TopIsFirst(s, n, Parent(k));
      assert InOrder(s, k);
    }
  }

  // ----- what stays where ---------------------------------------------------------------------

  lemma SwappedSame(s: seq<Item>, i: nat, j: nat)
    requires i < |s| && j < |s|
    ensures multiset(Swapped(s, i, j)) == multiset(s)
  {
  }

  lemma {:induction false} UpSame(s: seq<Item>, j: nat)
    requires j < |s|
    ensures multiset(Up(s, j)) == multiset(s)
    ensures forall k :: j < k < |s| ==> Up(s, j)[k] == s[k]
    decreases j
  {
    if j != 0 && Before(s[j], s[Parent(j)]) {
      SwappedSame(s, Parent(j), j);
      UpSame(Swapped(s, Parent(j), j), Parent(j));
    }
  }

  lemma {:induction false} DownSame(s: seq<Item>, i: nat, n: nat)
    requires n <= |s|
    ensures multiset(Down(s, i, n)) == multiset(s)
    ensures forall k :: n <= k < |s| ==> Down(s, i, n)[k] == s[k]
    decreases n - i
  {
    if Sinks(s, i, n) {
      SwappedSame(s, i, Child(s, i, n));
      DownSame(Swapped(s, i, Child(s, i, n)), Child(s, i, n), n);
    }
  }

  lemma CutLast(s: seq<Item>)
    requires s != []
    ensures multiset(s[..|s| - 1]) == multiset(s) - multiset{s[|s| - 1]}
  {
    assert s == s[..|s| - 1] + [s[|s| - 1]];
  }

  // ----- the operations keep heap order and change one item ------------------------------------

  lemma PushKeeps(s: seq<Item>, x: Item)
    requires IsHeap(s, |s|)
    ensures |Push(s, x)| == |s| + 1 && IsHeap(Push(s, x), |s| + 1)
    ensures multiset(Push(s, x)) == multiset(s) + multiset{x}
  {
    var t := s + [x];
    forall j | 0 <= j < |s| ensures InOrder(t, j) {
      assert InOrder(s, j);
    }
    UpRestores(t, |s|, |t|);
    UpSame(t, |s|);
  }

  lemma FixKeeps(s: seq<Item>, i: nat, x: Item)
    requires i < |s| && IsHeap(s, |s|)
    ensures IsHeap(Settle(s[i := x], i, |s|), |s|)
    ensures multiset(Settle(s[i := x], i, |s|)) == multiset(s) - multiset{s[i]} + multiset{x}
  {
    ReplaceAlmost(s, i, |s|, x);
    SettleRestores(s[i := x], i, |s|);
    UpSame(s[i := x], i);
    DownSame(s[i := x], i, |s|);
  }

  lemma RemoveLayoutSame(s: seq<Item>, i: nat)
    requires i < |s|
    ensures RemoveLayout(s, i)[|s| - 1] == s[i]
    ensures multiset(RemoveLayout(s, i)) == multiset(s)
  {
    var n := |s| - 1;
    if i != n {
      var t := Swapped(s, i, n);
      SwappedSame(s, i, n);
      UpSame(t, i);
      DownSame(t, i, n);
    }
  }

  lemma RemoveLayoutHeap(s: seq<Item>, i: nat)
    requires i < |s| && IsHeap(s, |s|)
    ensures IsHeap(RemoveLayout(s, i), |s| - 1)
  {
    var n := |s| - 1;
    if i == n {
      HeapShrinks(s, n);
    } else {
      var t := Swapped(s, i, n);
      SwappedAlmost(s, i);
      SettleRestores(t, i, n);
      assert RemoveLayout(s, i) == Settle(t, i, n);
    }
  }

  lemma CutLayout(s: seq<Item>, layout: seq<Item>, i: nat)
    requires i < |s| && multiset(layout) == multiset(s) && |layout| == |s| && layout[|s| - 1] == s[i]
    requires IsHeap(layout, |s| - 1)
    ensures IsHeap(layout[..|s| - 1], |s| - 1)
    ensures multiset(layout[..|s| - 1]) == multiset(s) - multiset{s[i]}
  {
    CutLast(layout);
    HeapPrefix(layout, |s| - 1);
  }

  lemma RemoveKeeps(s: seq<Item>, i: nat)
    requires i < |s| && IsHeap(s, |s|)
    ensures |Remove(s, i)| == |s| - 1 && IsHeap(Remove(s, i), |s| - 1)
    ensures RemoveLayout(s, i)[|s| - 1] == s[i]
    ensures multiset(Remove(s, i)) == multiset(s) - multiset{s[i]}
  {
    RemoveLayoutSame(s, i);
    RemoveLayoutHeap(s, i);
    CutLayout(s, RemoveLayout(s, i), i);
  }

  lemma SwappedAlmost(s: seq<Item>, i: nat)
    requires i < |s| - 1 && IsHeap(s, |s|)
    ensures AlmostHeap(Swapped(s, i, |s| - 1), i, |s| - 1)
  {
    var n := |s| - 1;
    var t := Swapped(s, i, n);
    HeapShrinks(s, n);
    ReplaceAlmost(s, i, n, s[n]);
    assert s[i := s[n]][..n] == t[..n];
    SameBelow(s[i := s[n]], t, i, n);
  }

  lemma HeapShrinks(s: seq<Item>, n: nat)
    requires n <= |s| && IsHeap(s, |s|)
    ensures IsHeap(s, n)
  {
  }

  lemma SameBelow(s: seq<Item>, t: seq<Item>, i: nat, n: nat)
    requires i < n <= |s| && |t| == |s| && s[..n] == t[..n] && AlmostHeap(s, i, n)
    ensures AlmostHeap(t, i, n)
  {
    assert forall k :: 0 <= k < n ==> t[k] == t[..n][k] == s[k];
    forall j | 0 <= j < n && j != i && (j == 0 || Parent(j) != i) ensures InOrder(t, j) {
      assert InOrder(s, j);
    }
  }

  lemma HeapPrefix(s: seq<Item>, n: nat)
    requires n <= |s| && IsHeap(s, n)
    ensures IsHeap(s[..n], n)
  {
    forall j | 0 <= j < n ensures InOrder(s[..n], j) {
      assert InOrder(s, j);
    }
  }

  lemma PopKeeps(s: seq<Item>)
    requires s != [] && IsHeap(s, |s|)
    ensures |Pop(s)| == |s| - 1 && IsHeap(Pop(s), |s| - 1)
    ensures PopLayout(s)[|s| - 1] == s[0]
    ensures multiset(Pop(s)) == multiset(s) - multiset{s[0]}
    ensures forall x :: x in s ==> !Before(x, s[0])
  {
    var n := |s| - 1;
    var t := Swapped(s, 0, n);
    SwappedSame(s, 0, n);
    DownSame(t, 0, n);
    if 0 < n {
      ReplaceAlmost(s, 0, n, s[n]);
      assert s[0 := s[n]][..n] == t[..n];
      SameBelow(s[0 := s[n]], t, 0, n);
      DownRestores(t, 0, n);
    }
    CutLast(PopLayout(s));
    HeapPrefix(PopLayout(s), n);
    forall x | x in s ensures !Before(x, s[0]) {
      var k :| 0 <= k < |s| && s[k] == x;
      TopIsFirst(s, |s|, k);
    }
  }

  // ----- draining ----------------------------------------------------------------------------------

  ghost predicate Sorted(s: seq<Item>) {
    forall i, j :: 0 <= i < j < |s| ==> !Before(s[j], s[i])
  }

  /** Popping until the heap is empty yields every item once, in eviction order. */
  lemma {:induction false} DrainSorts(s: seq<Item>)
    requires IsHeap(s, |s|)
    ensures Sorted(Drain(s)) && multiset(Drain(s)) == multiset(s)
    decreases |s|
  {
    if s != [] {
      PopKeeps(s);
      DrainSorts(Pop(s));
      ConsSorted(s, s[0], Drain(Pop(s)));
    }
  }

  lemma ConsSorted(s: seq<Item>, x: Item, rest: seq<Item>)
    requires Sorted(rest) && x in s && multiset(rest) == multiset(s) - multiset{x}
    requires forall y :: y in s ==> !Before(y, x)
    ensures Sorted([x] + rest) && multiset([x] + rest) == multiset(s)
  {
    forall j | 0 <= j < |rest| ensures !Before(rest[j], x) {
      assert rest[j] in multiset(rest);
      assert rest[j] in multiset(s);
    }
    assert x in multiset(s);
  }
}
