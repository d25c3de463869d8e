/** LREM: removing occurrences of a value from a list, in place. */
module ListRemove {
  import opened Common

  // ----- the loops, as functions -----------------------------------------------------------------

  /** The loop from the head, with `n` removals to go.  Removing slot `i` shifts the
      rest down and the loop then goes on to slot `i + 1`: the element that has
      moved into the gap is never looked at. */
  function Scan(s: seq<string>, v: string, n: nat): seq<string>
    decreases |s|
  {
    if s == [] || n == 0 then s
    else if s[0] != v then [s[0]] + Scan(s[1..], v, n)
    else if |s| == 1 then []
    else [s[1]] + Scan(s[2..], v, n - 1)
  }

  /** The loop from the tail. */
  function DropLast(s: seq<string>, v: string, n: nat): seq<string>
    decreases |s|
  {
    if s == [] || n == 0 then s
    else
      var rest, last := s[..|s| - 1], s[|s| - 1];
      if last == v then DropLast(rest, v, n - 1) else DropLast(rest, v, n) + [last]
  }

  // ----- what is meant --------------------------------------------------------------------------------

  function Count(s: seq<string>, v: string): nat {
    if s == [] then 0 else (if s[0] == v then 1 else 0) + Count(s[1..], v)
  }

  /** The elements other than `v`, in order. */
  function Others(s: seq<string>, v: string): seq<string> {
    if s == [] then [] else (if s[0] == v then [] else [s[0]]) + Others(s[1..], v)
  }

  /** The first `n` occurrences removed, or all if there are fewer. */
  function DropFirst(s: seq<string>, v: string, n: nat): seq<string> {
    if s == [] || n == 0 then s
    else if s[0] == v then DropFirst(s[1..], v, n - 1)
    else [s[0]] + DropFirst(s[1..], v, n)
  }

  function Least(a: nat, b: nat): nat {
    if a <= b then a else b
  }

  lemma {:induction false} CountAppend(a: seq<string>, b: seq<string>, v: string)
    ensures Count(a + b, v) == Count(a, v) + Count(b, v)
    ensures Others(a + b, v) == Others(a, v) + Others(b, v)
  {
    if a == [] {
      assert a + b == b;
    } else {
      CountAppend(a[1..], b, v);
      assert (a + b)[1..] == a[1..] + b && (a + b)[0] == a[0];
      ConcatAssoc(if a[0] == v then [] else [a[0]], Others(a[1..], v), Others(b, v));
    }
  }

  lemma CountOne(x: string, v: string)
    ensures Count([x], v) == (if x == v then 1 else 0)
    ensures Others([x], v) == if x == v then [] else [x]
  {
    assert [x][1..] == [];
  }

  lemma OneMoreAtEnd(rest: seq<string>, last: string, v: string, p: nat)
    requires p <= |rest|
    ensures (rest + [last])[..p] == rest[..p]
    ensures Count((rest + [last])[p..], v) == Count(rest[p..], v) + (if last == v then 1 else 0)
    ensures Others((rest + [last])[p..], v) == Others(rest[p..], v) + (if last == v then [] else [last])
  {
    assert (rest + [last])[p..] == rest[p..] + [last];
    CountAppend(rest[p..], [last], v);
    CountOne(last, v);
  }

  /** From the tail: a tail that holds the wanted number of occurrences loses all of
      them, and what comes before that tail is untouched. */
  lemma {:induction false} DropLastMeaning(s: seq<string>, v: string, n: nat) returns (p: nat)
    ensures p <= |s|
    ensures DropLast(s, v, n) == s[..p] + Others(s[p..], v)
    ensures Count(s[p..], v) == Least(n, Count(s, v))
    decreases |s|
  {
    p := |s|;
    if s == [] || n == 0 {
      assert s[p..] == [] && s[..p] == s;
      assert s == [] ==> Count(s, v) == 0;
      return;
    }
    var rest, last := s[..|s| - 1], s[|s| - 1];
    p := DropLastMeaning(rest, v, if last == v then n - 1 else n);
    assert s == rest + [last];
    OneMoreAtEnd(rest, last, v, p);
    assert s[0..] == s && rest[0..] == rest;
    OneMoreAtEnd(rest, last, v, 0);
    ConcatAssoc(rest[..p], Others(rest[p..], v), if last == v then [] else [last]);
  }

  /** The same from the head, for what DropFirst removes. */
  lemma {:induction false} DropFirstMeaning(s: seq<string>, v: string, n: nat) returns (p: nat)
    ensures p <= |s|
    ensures DropFirst(s, v, n) == Others(s[..p], v) + s[p..]
    ensures Count(s[..p], v) == Least(n, Count(s, v))
    decreases |s|
  {
    if s == [] || n == 0 {
      assert s[..0] == [] && s[0..] == s;
      return 0;
    }
    var q := DropFirstMeaning(s[1..], v, if s[0] == v then n - 1 else n);
    p := q + 1;
    assert s[..p] == [s[0]] + s[1..][..q] && s[p..] == s[1..][q..];
    assert s[..p][1..] == s[1..][..q];
  }

  /** `r` is `s` with some copies of `v` left out, and nothing else changed. */
  ghost predicate MissingOnly(r: seq<string>, s: seq<string>, v: string) {
    if s == [] then r == []
    else
      || (r != [] && r[0] == s[0] && MissingOnly(r[1..], s[1..], v))
      || (s[0] == v && MissingOnly(r, s[1..], v))
  }

  lemma {:induction false} NothingMissing(s: seq<string>, v: string)
    ensures MissingOnly(s, s, v)
  {
    if s != [] {
      NothingMissing(s[1..], v);
    }
  }

  /** The loop from the head never loses or moves anything but copies of the value,
      and loses at most `n` of these. */
  lemma {:induction false} ScanMissesOnly(s: seq<string>, v: string, n: nat)
    ensures MissingOnly(Scan(s, v, n), s, v)
    ensures |Scan(s, v, n)| <= |s| <= |Scan(s, v, n)| + n
    decreases |s|
  {
    if s == [] || n == 0 {
      NothingMissing(s, v);
    } else if s[0] != v {
      ScanMissesOnly(s[1..], v, n);
      assert ([s[0]] + Scan(s[1..], v, n))[1..] == Scan(s[1..], v, n);
    } else if |s| == 1 {
      assert MissingOnly([], s[1..], v);
    } else {
      ScanMissesOnly(s[2..], v, n - 1);
      var r := [s[1]] + Scan(s[2..], v, n - 1);
      assert r[1..] == Scan(s[2..], v, n - 1) && s[1..][1..] == s[2..];
      assert MissingOnly(r, s[1..], v);
    }
  }

  // ----- the number of elements removed --------------------------------------------------------------------

  lemma {:induction false} CountAndOthers(s: seq<string>, v: string)
    ensures Count(s, v) + |Others(s, v)| == |s|
  {
    if s != [] {
      CountAndOthers(s[1..], v);
    }
  }

  lemma {:induction false} MissingKeepsOthers(r: seq<string>, s: seq<string>, v: string)
    requires MissingOnly(r, s, v)
    ensures Others(r, v) == Others(s, v)
  {
    if s != [] {
      if r != [] && r[0] == s[0] && MissingOnly(r[1..], s[1..], v) {
        MissingKeepsOthers(r[1..], s[1..], v);
      } else {
        MissingKeepsOthers(r, s[1..], v);
        assert [] + Others(s[1..], v) == Others(s[1..], v);
      }
    }
  }

  /** From the tail, as many go as are wanted, or all that there are. */
  lemma {:induction false} DropLastNumber(s: seq<string>, v: string, n: nat)
    ensures |DropLast(s, v, n)| == |s| - Least(n, Count(s, v))
    ensures Others(DropLast(s, v, n), v) == Others(s, v)
    decreases |s|
  {
    if s != [] && n != 0 {
      var rest, last := s[..|s| - 1], s[|s| - 1];
      DropLastNumber(rest, v, if last == v then n - 1 else n);
      assert s == rest + [last];
      CountOne(last, v);
      CountAppend(rest, [last], v);
      if last == v {
        assert Others(rest, v) + [] == Others(rest, v);
      } else {
        CountAppend(DropLast(rest, v, n), [last], v);
      }
    }
  }

  /** Whatever the count, nothing but copies of the value goes; so the number of elements
      removed is the number of copies that have gone. */
  lemma RemovedAreCopies(s: seq<string>, count: int, v: string)
    ensures |s| - |Remaining(s, count, v)| == Count(s, v) - Count(Remaining(s, count, v), v)
    ensures count < 0 ==> |s| - |Remaining(s, count, v)| == Least(-count, Count(s, v))
  {
    if count < 0 {
      DropLastNumber(s, v, -count);
    } else {
      ScanMissesOnly(s, v, if count == 0 then |s| else count);
      MissingKeepsOthers(Remaining(s, count, v), s, v);
    }
    CountAndOthers(s, v);
    CountAndOthers(Remaining(s, count, v), v);
  }

  /** The loop from the head: of two copies next to each other one stays, though two were
      to be removed. */
  lemma ScanSkipsNeighbour(v: string)
    ensures Scan([v, v], v, 2) == [v] && Count([v, v], v) == 2
    ensures !Safe([v, v], v, 2)
  {
    assert [v, v][2..] == [] && [v] + [] == [v];
    assert [v, v] == [v] + [v];
    CountAppend([v], [v], v);
    CountOne(v, v);
    ScanIsDropFirstIff([v, v], v, 2);
    assert [v, v][1..] == [v] && [v][1..] == [] && DropFirst([v], v, 1) == [];
  }

  // ----- when the loop from the head does what is meant ---------------------------------------------------

  /** The length of the run of `v` at the head. */
  function Run(s: seq<string>, v: string): (r: nat)
    ensures r <= |s|
    ensures forall i :: 0 <= i < r ==> s[i] == v
    ensures r < |s| ==> s[r] != v
  {
    if s == [] || s[0] != v then 0 else 1 + Run(s[1..], v)
  }

  /** Up to the first place where the value stands twice in a row, the removals go
      one by one; there, the loop removes only every other copy, so that the
      removals left must be no more than half of that run, rounded up. */
  predicate Safe(s: seq<string>, v: string, n: nat) {
    if s == [] || n == 0 then true
    else if s[0] != v then Safe(s[1..], v, n)
    else if Run(s, v) == 1 then Safe(s[1..], v, n - 1)
    else 2 * n <= Run(s, v) + 1
  }

  lemma SingleStep(s: seq<string>, v: string, n: nat)
    requires 0 < n && Run(s, v) == 1
    ensures Scan(s, v, n) == Scan(s[1..], v, n - 1)
  {
    if |s| > 1 {
      assert s[1..][0] == s[1] && s[1..][1..] == s[2..];
      assert [s[1]] + s[2..] == s[1..];
    }
  }

  lemma {:induction false} RunOfTail(s: seq<string>, v: string, n: nat)
    requires n <= Run(s, v)
    ensures Run(s[n..], v) == Run(s, v) - n
  {
    if 0 < n {
      RunOfTail(s[1..], v, n - 1);
      assert s[1..][n - 1..] == s[n..];
    } else {
      assert s[0..] == s;
    }
  }

  /** Half of a run: the loop leaves what dropping the first `n` leaves. */
  lemma {:induction false} HalfOfRun(s: seq<string>, v: string, n: nat)
    requires 2 * n <= Run(s, v) + 1
    ensures Scan(s, v, n) == s[n..]
    decreases |s|
  {
    if n == 0 {
      assert s[0..] == s;
    } else if Run(s, v) == 1 {
      assert n == 1;
      SingleStep(s, v, 1);
    } else {
      RunOfTail(s, v, 2);
      HalfOfRun(s[2..], v, n - 1);
      assert s[2..][n - 1..] == s[n + 1..];
      assert s[n] == v == s[1];
      assert [s[n]] + s[n + 1..] == s[n..];
    }
  }

  lemma {:induction false} DropWithinRun(s: seq<string>, v: string, n: nat)
    requires n <= Run(s, v)
    ensures DropFirst(s, v, n) == s[n..]
  {
    if n == 0 {
      assert s[0..] == s;
    } else {
      DropWithinRun(s[1..], v, n - 1);
      assert s[1..][n - 1..] == s[n..];
    }
  }

  /** More than half of a run: the loop leaves half of the run at the head. */
  lemma {:induction false} MoreThanHalf(s: seq<string>, v: string, n: nat)
    requires Run(s, v) + 1 < 2 * n
    ensures Run(Scan(s, v, n), v) == Run(s, v) / 2
    decreases |s|
  {
    if 2 <= Run(s, v) {
      RunOfTail(s, v, 2);
      MoreThanHalf(s[2..], v, n - 1);
      assert ([s[1]] + Scan(s[2..], v, n - 1))[1..] == Scan(s[2..], v, n - 1);
    }
  }

  lemma {:induction false} DropBeyondRun(s: seq<string>, v: string, n: nat)
    requires Run(s, v) <= n
    ensures Run(DropFirst(s, v, n), v) == 0
  {
    if s != [] && n != 0 && s[0] == v {
      DropBeyondRun(s[1..], v, n - 1);
    }
  }

  /** LREM with a positive count does what is meant exactly on safe lists. */
  lemma {:induction false} ScanIsDropFirstIff(s: seq<string>, v: string, n: nat)
    ensures Scan(s, v, n) == DropFirst(s, v, n) <==> Safe(s, v, n)
    decreases |s|
  {
    if s == [] || n == 0 {
    } else if s[0] != v {
      ScanIsDropFirstIff(s[1..], v, n);
      assert ([s[0]] + Scan(s[1..], v, n))[1..] == Scan(s[1..], v, n);
      assert ([s[0]] + DropFirst(s[1..], v, n))[1..] == DropFirst(s[1..], v, n);
    } else if Run(s, v) == 1 {
      SingleStep(s, v, n);
      ScanIsDropFirstIff(s[1..], v, n - 1);
    } else if 2 * n <= Run(s, v) + 1 {
      HalfOfRun(s, v, n);
      DropWithinRun(s, v, n);
    } else {
      MoreThanHalf(s, v, n);
      if n < Run(s, v) {
        DropWithinRun(s, v, n);
        RunOfTail(s, v, n);
      } else {
        DropBeyondRun(s, v, n);
      }
    }
  }

  ghost predicate NoAdjacent(s: seq<string>, v: string) {
    forall i :: 0 <= i < |s| - 1 ==> !(s[i] == v && s[i + 1] == v)
  }

  lemma NoAdjacentTail(s: seq<string>, v: string)
    requires s != []
    ensures NoAdjacent(s, v) <==> NoAdjacent(s[1..], v) && Run(s, v) <= 1
  {
    if NoAdjacent(s[1..], v) && Run(s, v) <= 1 {
      forall i | 0 <= i < |s| - 1 ensures !(s[i] == v && s[i + 1] == v) {
        if 0 < i {
          assert s[1..][i - 1] == s[i] && s[1..][i] == s[i + 1];
        }
      }
    }
    if NoAdjacent(s, v) {
      forall i | 0 <= i < |s[1..]| - 1 ensures !(s[1..][i] == v && s[1..][i + 1] == v) {
        assert s[1..][i] == s[i + 1] && s[1..][i + 1] == s[i + 2];
      }
    }
  }

  /** Without adjacent occurrences every count is safe, and with enough removals
      to go nothing else is. */
  lemma {:induction false} SafeIffNoAdjacent(s: seq<string>, v: string, n: nat)
    ensures NoAdjacent(s, v) ==> Safe(s, v, n)
    ensures |s| <= n ==> (Safe(s, v, n) <==> NoAdjacent(s, v))
    decreases |s|
  {
    if s != [] && n != 0 {
      NoAdjacentTail(s, v);
      SafeIffNoAdjacent(s[1..], v, if s[0] == v then n - 1 else n);
    }
  }

  lemma {:induction false} DropAllIsOthers(s: seq<string>, v: string, n: nat)
    requires |s| <= n
    ensures DropFirst(s, v, n) == Others(s, v)
  {
    if s != [] {
      DropAllIsOthers(s[1..], v, if s[0] == v then n - 1 else n);
    }
  }

  /** LREM with count 0 removes every occurrence exactly when no two are adjacent. */
  lemma RemovesAllIff(s: seq<string>, v: string)
    ensures Scan(s, v, |s|) == Others(s, v) <==> NoAdjacent(s, v)
  {
    ScanIsDropFirstIff(s, v, |s|);
    SafeIffNoAdjacent(s, v, |s|);
    DropAllIsOthers(s, v, |s|);
  }

  // ----- slot by slot --------------------------------------------------------------------------------------

  /** The number of copies of `v` directly before slot `i`. */
  function RunBefore(s: seq<string>, v: string, i: nat): nat
    requires i <= |s|
  {
    if i == 0 || s[i - 1] != v then 0 else 1 + RunBefore(s, v, i - 1)
  }

  /** A copy that the loop from the head looks at: in each run the first, the third, and so on. */
  predicate LookedAt(s: seq<string>, v: string, i: nat)
    requires i < |s|
  {
    s[i] == v && RunBefore(s, v, i) % 2 == 0
  }

  /** How many of these come before slot `i`. */
  function Earlier(s: seq<string>, v: string, i: nat): (r: nat)
    requires i <= |s|
    ensures r <= i
  {
    if i == 0 then 0 else Earlier(s, v, i - 1) + if LookedAt(s, v, i - 1) then 1 else 0
  }

  /** What is left from slot `i` on: all but the copies that are looked at, as long as fewer
      than `n` of these have gone. */
  function SlotsLeft(s: seq<string>, v: string, n: nat, i: nat): seq<string>
    requires i <= |s|
    decreases |s| - i
  {
    if i == |s| then []
    else
      (if LookedAt(s, v, i) && Earlier(s, v, i) < n then [] else [s[i]]) + SlotsLeft(s, v, n, i + 1)
  }

  lemma {:induction false} NoMoreGo(s: seq<string>, v: string, n: nat, i: nat)
    requires i <= |s| && n <= Earlier(s, v, i)
    ensures SlotsLeft(s, v, n, i) == s[i..]
    decreases |s| - i
  {
    if i < |s| {
      NoMoreGo(s, v, n, i + 1);
      assert [s[i]] + s[i + 1..] == s[i..];
    }
  }

  lemma FrontSlot(s: seq<string>, v: string, n: nat, i: nat)
    requires i < |s| && s[i] != v && Earlier(s, v, i) < n
    requires Scan(s[i + 1..], v, n - Earlier(s, v, i)) == SlotsLeft(s, v, n, i + 1)
    ensures Scan(s[i..], v, n - Earlier(s, v, i)) == SlotsLeft(s, v, n, i)
  {
    assert s[i..][1..] == s[i + 1..];
  }

  lemma CopySlot(s: seq<string>, v: string, n: nat, i: nat)
    requires i + 1 < |s| && LookedAt(s, v, i) && Earlier(s, v, i) < n
    requires Scan(s[i + 2..], v, n - Earlier(s, v, i) - 1) == SlotsLeft(s, v, n, i + 2)
    ensures Scan(s[i..], v, n - Earlier(s, v, i)) == SlotsLeft(s, v, n, i)
  {
    ScanCopy(s, v, n - Earlier(s, v, i), i);
    SkippedStays(s, v, n, i);
  }

  lemma ScanCopy(s: seq<string>, v: string, left: nat, i: nat)
    requires i + 1 < |s| && s[i] == v && 0 < left
    ensures Scan(s[i..], v, left) == [s[i + 1]] + Scan(s[i + 2..], v, left - 1)
  {
    assert s[i..][2..] == s[i + 2..];
  }

  /** The loop from the head, on every list: which slots it empties. */
  lemma {:induction false} ScanSlots(s: seq<string>, v: string, n: nat, i: nat)
    requires i <= |s| && RunBefore(s, v, i) % 2 == 0 && Earlier(s, v, i) <= n
    ensures Scan(s[i..], v, n - Earlier(s, v, i)) == SlotsLeft(s, v, n, i)
    decreases |s| - i
  {
    if i == |s| {
    } else if Earlier(s, v, i) == n {
      NoMoreGo(s, v, n, i);
    } else if s[i] != v {
      ScanSlots(s, v, n, i + 1);
      FrontSlot(s, v, n, i);
    } else if i + 1 == |s| {
      assert SlotsLeft(s, v, n, i + 1) == [];
    } else {
      SkippedSlot(s, v, i);
      ScanSlots(s, v, n, i + 2);
      CopySlot(s, v, n, i);
    }
  }

  lemma SkippedStays(s: seq<string>, v: string, n: nat, i: nat)
    requires i + 1 < |s| && LookedAt(s, v, i) && Earlier(s, v, i) < n
    ensures SlotsLeft(s, v, n, i) == [s[i + 1]] + SlotsLeft(s, v, n, i + 2)
  {
    var rest := SlotsLeft(s, v, n, i + 1);
    assert rest == [s[i + 1]] + SlotsLeft(s, v, n, i + 2) by {
      SkippedSlot(s, v, i);
    }
    assert SlotsLeft(s, v, n, i) == [] + rest;
  }

  lemma SkippedSlot(s: seq<string>, v: string, i: nat)
    requires i + 1 < |s| && LookedAt(s, v, i)
    ensures !LookedAt(s, v, i + 1) && RunBefore(s, v, i + 2) % 2 == 0
    ensures Earlier(s, v, i + 2) == Earlier(s, v, i) + 1
  {
    assert RunBefore(s, v, i + 1) == RunBefore(s, v, i) + 1;
  }

  /** The first copy goes, and of three neighbours the middle one stays. */
  lemma SlotsExample()
    ensures SlotsLeft(["a", "b", "a"], "a", 1, 0) == ["b", "a"]
    ensures SlotsLeft(["a", "a", "a"], "a", 3, 0) == ["a"]
  {
    var s := ["a", "b", "a"];
    assert s[0] == "a" && s[1] != "a" && s[2] == "a" by {
      assert s[1][0] == 'b';
    }
    assert SlotsLeft(s, "a", 1, 3) == [];
    assert Earlier(s, "a", 1) == 1;
    assert SlotsLeft(s, "a", 1, 2) == ["a"];
    assert SlotsLeft(s, "a", 1, 1) == ["b", "a"];
    var t := ["a", "a", "a"];
    assert RunBefore(t, "a", 1) == 1 && RunBefore(t, "a", 2) == 2;
    assert SlotsLeft(t, "a", 3, 3) == [];
    assert SlotsLeft(t, "a", 3, 2) == [];
    assert SlotsLeft(t, "a", 3, 1) == ["a"];
  }

  // ----- the command ------------------------------------------------------------------------------------------

  function Remaining(s: seq<string>, count: int, v: string): seq<string> {
    if count == 0 then Scan(s, v, |s|)
    else if 0 < count then Scan(s, v, count)
    else DropLast(s, v, -count)
  }

  /** `append(list[:i], list[i+1:]...)`: the elements after slot `i` move down by one. */
  method RemoveSlot(list: array<string>, length: nat, i: nat) returns (shorter: nat)
    requires i < length <= list.Length
    modifies list
    ensures shorter == length - 1
    ensures list[..shorter] == old(list[..i]) + old(list[i + 1..length])
  {
    ghost var start := list[..length];
    for j := i + 1 to length
      invariant forall k :: 0 <= k < i ==> list[k] == start[k]
      invariant forall k :: i <= k < j - 1 ==> list[k] == start[k + 1]
      invariant forall k :: j - 1 <= k < length ==> list[k] == start[k]
    {
      list[j - 1] := list[j];
    }
    shorter := length - 1;
    assert list[..shorter] == start[..i] + start[i + 1..];
    assert start[..i] == old(list[..i]) && start[i + 1..] == old(list[i + 1..length]);
  }

  /** What the loop from the head has yet to do, at slot `i` of the first `length`. */
  ghost function ToCome(list: array<string>, length: nat, i: nat, value: string, left: nat): seq<string>
    requires length <= list.Length
    reads list
  {
    if i <= length then list[..i] + Scan(list[i..length], value, left) else list[..length]
  }

  lemma NothingToCome(list: array<string>, length: nat, i: nat, value: string, left: nat)
    requires length <= list.Length && (length <= i || left == 0)
    ensures ToCome(list, length, i, value, left) == list[..length]
  {
    if i <= length {
      assert list[..length] == list[..i] + list[i..length];
    }
  }

  /** One turn of the loop from the head. */
  method Turn(list: array<string>, length: nat, i: nat, value: string, left: nat) returns (length': nat, left': nat)
    requires i < length <= list.Length && 0 < left
    modifies list
    ensures length' <= list.Length && i <= length'
    ensures (length' == length && left' == left) || (length' == length - 1 && left' == left - 1)
    ensures ToCome(list, length', i + 1, value, left') == old(ToCome(list, length, i, value, left))
  {
    ghost var done, rest := list[..i], list[i..length];
    assert list[..i + 1] == done + [rest[0]] && list[i + 1..length] == rest[1..];
    if list[i] != value {
      ConcatAssoc(done, [rest[0]], Scan(rest[1..], value, left));
      return length, left;
    }
    length' := RemoveSlot(list, length, i);
    left' := left - 1;
    assert list[..length'] == done + rest[1..];
    if i < length' {
      assert list[..i + 1] == done + [rest[1]] && list[i + 1..length'] == rest[2..];
      ConcatAssoc(done, [rest[1]], Scan(rest[2..], value, left - 1));
    } else {
      assert done + [] == done;
    }
  }

  /** From the head; `bounded` says whether the count is looked at. */
  method RemoveFromHead(list: array<string>, value: string, count: nat, bounded: bool) returns (length: nat)
    requires !bounded ==> count == list.Length
    modifies list
    ensures length <= list.Length && list[..length] == Scan(old(list[..]), value, count)
  {
    length := list.Length;
    var i: nat, left := 0, count;
    assert list[..0] == [] && list[0..length] == list[..];
    while i < length
      invariant length <= list.Length && i <= length + 1
      invariant !bounded ==> length - i <= left
      invariant ToCome(list, length, i, value, left) == Scan(old(list[..]), value, count)
      decreases length - i
    {
      if bounded && left == 0 {
        NothingToCome(list, length, i, value, left);
        return;
      }
      length, left := Turn(list, length, i, value, left);
      i := i + 1;
    }
    NothingToCome(list, length, i, value, left);
  }

  lemma HeadOfSlice(list: array<string>, i: nat, length: nat)
    requires i < length <= list.Length
    ensures list[i..length] == [list[i]] + list[i + 1..length]
  {
  }

  lemma WholeSlice(list: array<string>, i: nat, length: nat)
    requires i <= length <= list.Length
    ensures list[..length] == list[..i] + list[i..length]
  {
  }

  method RemoveFromTail(list: array<string>, value: string, count: nat) returns (length: nat)
    modifies list
    ensures length <= list.Length && list[..length] == DropLast(old(list[..]), value, count)
  {
    length := list.Length;
    ghost var s := list[..];
    var i: nat, left: nat := list.Length, count;
    assert list[..i] == s && list[i..length] == [];
    while 0 < i && left != 0
      invariant 0 <= i <= length <= list.Length && left <= count
      invariant DropLast(list[..i], value, left) + list[i..length] == DropLast(s, value, count)
      decreases i
    {
      i := i - 1;
      ghost var done, rest := list[..i], list[i + 1..length];
      assert list[..i + 1][..i] == done && list[..i + 1][i] == list[i];
      if list[i] == value {
        length := RemoveSlot(list, length, i);
        assert list[..length] == done + rest;
        assert list[..i] == done && list[i..length] == rest;
        left := left - 1;
      } else {
        HeadOfSlice(list, i, length);
        ConcatAssoc(DropLast(done, value, left), [list[i]], rest);
      }
    }
    WholeSlice(list, i, length);
  }

  /** Removes in place and reports how many elements have gone. */
  method Remove(list: array<string>, count: int, value: string) returns (length: nat, removed: nat)
    modifies list
    ensures length <= list.Length && list[..length] == Remaining(old(list[..]), count, value)
    ensures removed == list.Length - length
    ensures removed == Count(old(list[..]), value) - Count(list[..length], value)
    ensures count < 0 ==> removed == Least(-count, Count(old(list[..]), value))
    ensures count == 0 ==> list[..length] == SlotsLeft(old(list[..]), value, list.Length, 0)
    ensures 0 < count ==> list[..length] == SlotsLeft(old(list[..]), value, count, 0)
    ensures count < 0 ==>
              exists p :: 0 <= p <= list.Length
                          && list[..length] == old(list[..p]) + Others(old(list[p..]), value)
                          && Count(old(list[p..]), value) == Least(-count, Count(old(list[..]), value))
  {
    ghost var s := list[..];
    RemovedAreCopies(s, count, value);
    if 0 <= count {
      ScanSlots(s, value, if count == 0 then list.Length else count, 0);
      assert s[0..] == s;
    } else {
      ghost var p := DropLastMeaning(s, value, -count);
      assert s[..p] == list[..p] && s[p..] == list[p..];
    }
    if count == 0 {
      length := RemoveFromHead(list, value, list.Length, false);
    } else if count > 0 {
      length := RemoveFromHead(list, value, count, true);
    } else {
      length := RemoveFromTail(list, value, -count);
    }
    removed := list.Length - length;
  }
}
