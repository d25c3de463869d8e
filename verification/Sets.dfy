/** String sets: union that changes its inputs, intersection with an early stop,
    and random removal by deleting from a slice in place. */
module Sets {
  import opened Common

  class Set {
    var members: set<string>
    var length: int

    ghost predicate Valid()
      reads this
    {
      length == |members|
    }

    constructor (elems: seq<string>)
      ensures Valid() && members == Elems(elems)
    {
      members := {};
      length := 0;
      new;
      var _ := Add(elems);
    }

    predicate Contains(e: string)
      reads this
    {
      e in members
    }

    method Add(elems: seq<string>) returns (count: nat)
      requires Valid()
      modifies this
      ensures Valid() && members == old(members) + Elems(elems)
      ensures count == |members| - old(|members|)
    {
      count := 0;
      for i := 0 to |elems|
        invariant members == old(members) + Elems(elems[..i]) && length == old(length)
        invariant count == |members| - old(|members|)
      {
        assert elems[..i + 1] == elems[..i] + [elems[i]];
        if !Contains(elems[i]) {
          members := members + {elems[i]};
          count := count + 1;
        }
      }
      assert elems[..|elems|] == elems;
      length := length + count;
    }

    method Remove(elems: seq<string>) returns (count: nat)
      requires Valid()
      modifies this
      ensures Valid() && members == old(members) - Elems(elems)
      ensures count == old(|members|) - |members|
    {
      count := 0;
      for i := 0 to |elems|
        invariant members == old(members) - Elems(elems[..i]) && length == old(length)
        invariant count == old(|members|) - |members|
      {
        assert elems[..i + 1] == elems[..i] + [elems[i]];
        if Contains(elems[i]) {
          members := members - {elems[i]};
          count := count + 1;
        }
      }
      assert elems[..|elems|] == elems;
      length := length - count;
    }

    method GetAll() returns (all: seq<string>)
      ensures Lists(all, members) && |all| == |members|
    {
      all := RangeOrder(members);
    }

    function Cardinality(): int
      reads this
    {
      length
    }

    /** Moves one element; source and destination may be the same set. */
    method Move(destination: Set, e: string) returns (moved: int)
      requires Valid() && destination.Valid()
      modifies this, destination
      ensures Valid() && destination.Valid()
      ensures moved == if e in old(members) then 1 else 0
      ensures members + destination.members == old(members + destination.members)
      ensures moved == 1 && destination != this ==>
                members == old(members) - {e} && destination.members == old(destination.members) + {e}
      ensures moved == 0 || destination == this ==>
                members == old(members) && destination.members == old(destination.members)
    {
      if !Contains(e) {
        return 0;
      }
      assert Elems([e]) == {e};
      var _ := Remove([e]);
      var _ := destination.Add([e]);
      return 1;
    }

    // ----- random members --------------------------------------------------------------------

    /** What may be returned for `count`: nothing, everything, that many distinct
        members, or for a negative count that many members with repeats. */
    ghost predicate RandomMembers(count: int, res: seq<string>)
      reads this
    {
      && (forall k <- res :: k in members)
      && (count == 0 ==> res == [])
      && (count != 0 && (count <= -|members| || |members| <= count) ==> Lists(res, members) && |res| == |members|)
      && (0 < count < |members| ==> |res| == count && Distinct(res))
      && (-|members| < count < 0 ==> |res| == -count)
    }

    /** `draws` counts the random numbers drawn. */
    method GetRandom(count: int) returns (res: seq<string>, ghost draws: nat)
      requires Valid()
      ensures RandomMembers(count, res)
      ensures 0 < count < |members| ==> draws == count
    {
      var all := GetAll();
      draws := 0;
      if count == 0 {
        return [], 0;
      }
      if Abs(count) >= Cardinality() {
        return all, 0;
      }
      if count < 0 {
        res := DrawWithRepeats(all, -count);
        assert forall k <- res :: k in all;
      } else {
        var keys := new string[|all|](i requires 0 <= i < |all| => all[i]);
        assert keys[..|all|] == all;
        res, draws := DrawDistinct(keys, count);
        assert forall k <- res :: k in all;
      }
    }

    method Pop(count: int) returns (keys: seq<string>)
      requires Valid()
      modifies this
      ensures Valid() && old(RandomMembers(count, keys))
      ensures members == old(members) - Elems(keys)
      ensures 0 < count < old(|members|) ==> |members| == old(|members|) - count
    {
      ghost var draws;
      keys, draws := GetRandom(count);
      var removed := Remove(keys);
      if 0 < count < old(|members|) {
        DistinctCardinality(keys);
        assert Elems(keys) <= old(members);
      }
    }
  }

  function Abs(n: int): nat {
    if n < 0 then -n else n
  }

  method DrawWithRepeats(keys: seq<string>, count: nat) returns (res: seq<string>)
    requires keys != []
    ensures |res| == count && forall k <- res :: k in keys
  {
    res := [];
    for i := 0 to count
      invariant |res| == i && forall k <- res :: k in keys
    {
      var n: nat :| n < |keys|;
      res := res + [keys[n]];
    }
  }

  /** Draws until there are `count` keys.  The kept keys and the drawn keys stay
      disjoint, so that no draw is ever thrown away and the loop must end. */
  method DrawDistinct(keys: array<string>, count: nat) returns (res: seq<string>, ghost draws: nat)
    requires Distinct(keys[..]) && count < keys.Length
    modifies keys
    ensures |res| == count == draws && Distinct(res) && forall k <- res :: k in old(keys[..])
  {
    res := [];
    draws := 0;
    var length := keys.Length;
    ghost var all := keys[..];
    assert keys[..length] == all;
    while |res| < count
      invariant |res| == draws <= count && length == keys.Length - |res|
      invariant Distinct(res) && Distinct(keys[..length])
      invariant forall k <- res :: k in all && k !in keys[..length]
      invariant forall k <- keys[..length] :: k in all
      decreases count - |res|
    {
      var n: nat :| n < length;
      draws := draws + 1;
      ghost var before := keys[..length];
      assert before[n] == keys[n];
      if keys[n] !in res {
        res := res + [keys[n]];
        length := DeleteDrawn(keys, length, n);
        assert forall k <- keys[..length] :: k in before && k != before[n];
      }
    }
  }

  /** slices.DeleteFunc with the predicate "equals keys[n]", which looks at slot `n`
      again for every element, while the elements are being shifted over it. */
  method DeleteDrawn(keys: array<string>, length: nat, n: nat) returns (kept: nat)
    requires n < length <= keys.Length && Distinct(keys[..length])
    modifies keys
    ensures kept == length - 1
    ensures keys[..kept] == old(keys[..n]) + old(keys[n + 1..length])
    ensures Distinct(keys[..kept])
  {
    ghost var start := keys[..length];
    var i := FirstSlot(keys, length, n);
    for j := i + 1 to length
      invariant i == j - 1
      invariant forall k :: 0 <= k < n ==> keys[k] == start[k]
      invariant forall k :: n <= k < i ==> keys[k] == start[k + 1]
      invariant forall k :: i <= k < length && (k == n || j <= k) ==> keys[k] == start[k]
    {
      var v := keys[j];
      assert v == start[j] && keys[n] == start[if i == n then n else n + 1];
      if v != keys[n] {
        keys[i] := v;
        i := i + 1;
      }
    }
    kept := i;
    Zero(keys, kept, length);
    assert keys[..kept] == start[..n] + start[n + 1..];
    assert start[..n] == old(keys[..n]) && start[n + 1..] == old(keys[n + 1..length]);
  }

  /** slices.IndexFunc: the first slot that equals slot `n`, which is `n` itself. */
  method FirstSlot(keys: array<string>, length: nat, n: nat) returns (i: nat)
    requires n < length <= keys.Length && Distinct(keys[..length])
    ensures i == n
  {
    i := 0;
    while keys[i] != keys[n]
      invariant i <= n
      decreases n - i
    {
      i := i + 1;
    }
  }

  method Zero(keys: array<string>, from: nat, to: nat)
    requires from <= to <= keys.Length
    modifies keys
    ensures keys[..from] == old(keys[..from])
  {
    for j := from to to
      invariant keys[..from] == old(keys[..from])
    {
      keys[j] := "";
    }
  }

  // ----- union -----------------------------------------------------------------------------------

  /** What the sets hold between them. */
  ghost function Together(sets: seq<Set>): set<string>
    reads sets
  {
    if sets == [] then {} else sets[0].members + Together(sets[1..])
  }

  ghost predicate AllValid(sets: seq<Set>)
    reads sets
  {
    forall s <- sets :: s.Valid()
  }

  lemma {:induction false} TogetherHolds(sets: seq<Set>)
    ensures forall s <- sets :: s.members <= Together(sets)
  {
    if sets != [] {
      TogetherHolds(sets[1..]);
      assert forall s <- sets :: s == sets[0] || s in sets[1..];
    }
  }

  lemma {:induction false} TogetherBounded(sets: seq<Set>, bound: set<string>)
    requires forall s <- sets :: s.members <= bound
    ensures Together(sets) <= bound
  {
    if sets != [] {
      assert sets[0] in sets;
      assert forall s <- sets[1..] :: s in sets;
      TogetherBounded(sets[1..], bound);
    }
  }

  lemma {:induction false} TogetherSplits(sets: seq<Set>, k: nat)
    requires k <= |sets|
    ensures Together(sets) == Together(sets[..k]) + Together(sets[k..])
  {
    if 0 < k {
      TogetherSplits(sets[1..], k - 1);
      assert sets[..k][1..] == sets[1..][..k - 1] && sets[k..] == sets[1..][k - 1..];
    } else {
      assert sets[0..] == sets;
    }
  }

  lemma HalvesHold(sets: seq<Set>, k: nat)
    requires k <= |sets|
    ensures forall s <- sets[..k] :: s in sets
    ensures forall s <- sets[k..] :: s in sets
    ensures forall s <- sets :: s in sets[..k] || s in sets[k..]
  {
    assert sets == sets[..k] + sets[k..];
  }

  /** What members the sets hold only grows, so that so does their union. */
  twostate lemma {:induction false} TogetherGrows(sets: seq<Set>)
    requires forall s <- sets :: old(s.members) <= s.members
    ensures old(Together(sets)) <= Together(sets)
  {
    if sets != [] {
      assert sets[0] in sets;
      assert forall s <- sets[1..] :: s in sets;
      TogetherGrows(sets[1..]);
    }
  }

  method UnionOfTwo(a: Set, b: Set)
    requires a.Valid() && b.Valid()
    modifies a
    ensures a.Valid() && b.Valid()
    ensures a.members == old(a.members + b.members)
  {
    var all := b.GetAll();
    assert Elems(all) == b.members;
    var _ := a.Add(all);
  }

  /** The union is built in the first set, and sub-unions in the first sets of
      their halves: an input may grow, but never beyond the union.  The inputs
      may be aliases of one another. */
  method Union(sets: seq<Set>) returns (r: Set)
    requires sets != [] && AllValid(sets)
    modifies sets
    ensures r == sets[0] && r.members == old(Together(sets))
    ensures AllValid(sets)
    ensures forall s <- sets :: old(s.members) <= s.members <= old(Together(sets))
    decreases |sets|, 1
  {
    var n := |sets|;
    TogetherHolds(sets);
    if n == 1 {
      assert Together(sets[1..]) == {};
      r := sets[0];
    } else if n == 2 {
      assert sets[1..][0] == sets[1] && Together(sets[1..][1..]) == {};
      assert Together(sets) == sets[0].members + sets[1].members;
      r := sets[0];
      UnionOfTwo(r, sets[1]);
    } else {
      r := UnionOfHalves(sets, n / 2);
    }
  }

  method UnionOfHalves(sets: seq<Set>, k: nat) returns (r: Set)
    requires 0 < k < |sets| && AllValid(sets)
    modifies sets
    ensures r == sets[0] && r.members == old(Together(sets))
    ensures AllValid(sets)
    ensures forall s <- sets :: old(s.members) <= s.members <= old(Together(sets))
    decreases |sets|, 0
  {
    ghost var all := Together(sets);
    TogetherHolds(sets);
    TogetherSplits(sets, k);
    HalvesHold(sets, k);
    var left := UnionOfPart(sets, sets[..k], all);
    TogetherGrows(sets[k..]);
    TogetherBounded(sets[k..], all);
    var right := UnionOfPart(sets, sets[k..], all);
    UnionOfTwo(left, right);
    r := left;
  }

  /** The union of some of the sets, which all stay within `all`. */
  method UnionOfPart(sets: seq<Set>, part: seq<Set>, ghost all: set<string>) returns (r: Set)
    requires AllValid(sets) && part != [] && forall s <- part :: s in sets
    requires forall s <- sets :: s.members <= all
    modifies part
    ensures AllValid(sets)
    ensures r == part[0] && r.members == old(Together(part))
    ensures forall s <- sets :: old(s.members) <= s.members <= all
    decreases |part|, 2
  {
    TogetherBounded(part, all);
    r := Union(part);
  }

  // ----- intersection ------------------------------------------------------------------------------------

  /** What the loop over two sets may leave: the whole intersection, or, stopped,
      `limit` members of it with some member of the left set not yet seen. */
  ghost predicate OutcomeOfTwo(limit: int, a: set<string>, b: set<string>, r: set<string>, stop: bool) {
    if stop then 0 < limit && |r| == limit && r < a && r <= b
    else r == a * b && (0 < limit ==> |r| <= limit)
  }

  /** What the recursion may leave, whatever the order in which members are visited. */
  ghost predicate Outcome(limit: int, sets: seq<set<string>>, r: set<string>, stop: bool)
    requires sets != []
    decreases |sets|, 0
  {
    var k := |sets| / 2;
    if |sets| == 1 then r == sets[0] && !stop
    else if |sets| == 2 then OutcomeOfTwo(limit, sets[0], sets[1], r, stop)
    else
      || (stop && Outcome(limit, sets[..k], r, true))
      || (exists left :: Outcome(limit, sets[..k], left, false) && OutcomeOfRight(limit, sets[k..], left, r, stop))
  }

  /** The same, once the left half has left `left` without stopping. */
  ghost predicate OutcomeOfRight(limit: int, sets: seq<set<string>>, left: set<string>, r: set<string>, stop: bool)
    requires sets != []
    decreases |sets|, 1
  {
    || (stop && Outcome(limit, sets, r, true))
    || (exists right :: Outcome(limit, sets, right, false) && OutcomeOfTwo(limit, left, right, r, stop))
  }

  /** The members that all the sets have. */
  function InAll(sets: seq<set<string>>): set<string>
    requires sets != []
  {
    if |sets| == 1 then sets[0] else sets[0] * InAll(sets[1..])
  }

  lemma {:induction false} InAllSplits(sets: seq<set<string>>, k: nat)
    requires 0 < k < |sets|
    ensures InAll(sets) == InAll(sets[..k]) * InAll(sets[k..])
  {
    if 1 < k {
      InAllSplits(sets[1..], k - 1);
      assert sets[..k][1..] == sets[1..][..k - 1] && sets[k..] == sets[1..][k - 1..];
    } else {
      assert sets[..1] == [sets[0]];
    }
  }

  lemma {:induction false} InAllIs(sets: seq<set<string>>, v: string)
    requires sets != []
    ensures v in InAll(sets) <==> forall s <- sets :: v in s
  {
    if |sets| > 1 {
      InAllIs(sets[1..], v);
      assert forall s <- sets :: s == sets[0] || s in sets[1..];
      assert forall s <- sets[1..] :: s in sets;
    }
  }

  /** A result that is not flagged is exactly the intersection of all the sets. */
  lemma {:induction false} NotStoppedIsExact(limit: int, sets: seq<set<string>>, r: set<string>)
    requires sets != [] && Outcome(limit, sets, r, false)
    ensures r == InAll(sets)
    decreases |sets|
  {
    var k := |sets| / 2;
    if |sets| == 2 {
      assert sets[1..] == [sets[1]];
    } else if 2 < |sets| {
      var left :| Outcome(limit, sets[..k], left, false) && OutcomeOfRight(limit, sets[k..], left, r, false);
      var right :| Outcome(limit, sets[k..], right, false) && OutcomeOfTwo(limit, left, right, r, false);
      NotStoppedIsExact(limit, sets[..k], left);
      NotStoppedIsExact(limit, sets[k..], right);
      InAllSplits(sets, k);
    }
  }

  /** A block of neighbouring sets whose intersection holds the result. */
  ghost predicate InBlock(sets: seq<set<string>>, r: set<string>, from: nat, to: nat) {
    from < to <= |sets| && r <= InAll(sets[from..to])
  }

  lemma SliceOfPart<T>(s: seq<T>, k: nat, from: nat, to: nat)
    requires k <= |s| && from <= to
    ensures to <= k ==> s[..k][from..to] == s[from..to]
    ensures k + to <= |s| ==> s[k..][from..to] == s[k + from..k + to]
  {
  }

  /** A flagged result has exactly `limit` members, and all of them are common to
      some block of neighbouring sets, though perhaps not to all the sets. */
  lemma {:induction false} StoppedIsInBlock(limit: int, sets: seq<set<string>>, r: set<string>)
    returns (from: nat, to: nat)
    requires sets != [] && Outcome(limit, sets, r, true)
    ensures 0 < limit && |r| == limit && InBlock(sets, r, from, to)
    decreases |sets|
  {
    var k := |sets| / 2;
    if |sets| == 2 {
      from, to := 0, 2;
      assert sets[0..2][1..] == [sets[1]];
    } else if Outcome(limit, sets[..k], r, true) {
      from, to := StoppedIsInBlock(limit, sets[..k], r);
      SliceOfPart(sets, k, from, to);
    } else {
      var left :| Outcome(limit, sets[..k], left, false) && OutcomeOfRight(limit, sets[k..], left, r, true);
      if Outcome(limit, sets[k..], r, true) {
        from, to := StoppedIsInBlock(limit, sets[k..], r);
        SliceOfPart(sets, k, from, to);
        from, to := k + from, k + to;
      } else {
        var right :| Outcome(limit, sets[k..], right, false) && OutcomeOfTwo(limit, left, right, r, true);
        NotStoppedIsExact(limit, sets[..k], left);
        NotStoppedIsExact(limit, sets[k..], right);
        InAllSplits(sets, k);
        from, to := 0, |sets|;
        assert sets[0..|sets|] == sets;
      }
    }
  }

  /** Without a limit nothing is ever cut short. */
  lemma NoLimitIsExact(limit: int, sets: seq<set<string>>, r: set<string>, stop: bool)
    requires sets != [] && limit <= 0 && Outcome(limit, sets, r, stop)
    ensures !stop && r == InAll(sets)
  {
    if stop {
      var _, _ := StoppedIsInBlock(limit, sets, r);
    } else {
      NotStoppedIsExact(limit, sets, r);
    }
  }

  /** Two sets: as many common members as the limit allows. */
  lemma TwoSetsSize(limit: int, a: set<string>, b: set<string>, r: set<string>, stop: bool)
    requires 0 < limit && Outcome(limit, [a, b], r, stop)
    ensures r <= a * b && |r| == if |a * b| <= limit then |a * b| else limit
  {
    if stop {
      Subset(r, a * b);
    }
  }

  lemma Subset(a: set<string>, b: set<string>)
    requires a <= b
    ensures |a| <= |b|
  {
    assert b == a + (b - a);
  }

  // ----- outcomes and orders of visits -------------------------------------------------------------------------

  datatype Result = Result(members: set<string>, stop: bool)

  /** The loop over the members of the left set, in this order. */
  function LoopOverTwo(limit: int, order: seq<string>, b: set<string>, seen: set<string>): Result
    decreases |order|
  {
    if order == [] then Result(seen, false)
    else if 0 < limit <= |seen| then Result(seen, true)
    else LoopOverTwo(limit, order[1..], b, if order[0] in b then seen + {order[0]} else seen)
  }

  /** The common members among the first `i` of the order. */
  ghost function Met(order: seq<string>, b: set<string>, i: nat): set<string>
    requires i <= |order|
  {
    if i == 0 then {}
    else if order[i - 1] in b then Met(order, b, i - 1) + {order[i - 1]}
    else Met(order, b, i - 1)
  }

  lemma {:induction false} MetIs(order: seq<string>, b: set<string>, i: nat)
    requires i <= |order|
    ensures Met(order, b, i) == Elems(order[..i]) * b
  {
    if 0 < i {
      MetIs(order, b, i - 1);
      assert order[..i] == order[..i - 1] + [order[i - 1]];
    }
  }

  /** How many these are. */
  ghost function Seen(order: seq<string>, b: set<string>, i: nat): nat
    requires i <= |order|
  {
    if i == 0 then 0 else Seen(order, b, i - 1) + if order[i - 1] in b then 1 else 0
  }

  lemma OneMore(s: set<string>, x: string)
    requires x !in s
    ensures |s + {x}| == |s| + 1
  {
  }

  lemma NotMetYet(order: seq<string>, b: set<string>, i: nat)
    requires Distinct(order) && i < |order|
    ensures order[i] !in Met(order, b, i)
  {
    MetIs(order, b, i);
  }

  lemma {:induction false} MetSize(order: seq<string>, b: set<string>, i: nat)
    requires Distinct(order) && i <= |order|
    ensures |Met(order, b, i)| == Seen(order, b, i)
  {
    if 0 < i {
      MetSize(order, b, i - 1);
      if order[i - 1] in b {
        NotMetYet(order, b, i - 1);
        OneMore(Met(order, b, i - 1), order[i - 1]);
      }
    }
  }

  /** The slot at which the loop ends that has come to slot `i`. */
  ghost function EndsAt(limit: int, order: seq<string>, b: set<string>, i: nat): (p: nat)
    requires i <= |order|
    ensures i <= p <= |order|
    ensures p < |order| ==> 0 < limit <= Seen(order, b, p)
    decreases |order| - i
  {
    if i == |order| || 0 < limit <= Seen(order, b, i) then i else EndsAt(limit, order, b, i + 1)
  }

  lemma LoopStep(limit: int, order: seq<string>, b: set<string>, i: nat)
    requires Distinct(order) && i < |order| && !(0 < limit <= Seen(order, b, i))
    ensures LoopOverTwo(limit, order[i..], b, Met(order, b, i)) ==
            LoopOverTwo(limit, order[i + 1..], b, Met(order, b, i + 1))
  {
    MetSize(order, b, i);
    assert order[i..][0] == order[i] && order[i..][1..] == order[i + 1..];
  }

  lemma LoopEnd(limit: int, order: seq<string>, b: set<string>, i: nat)
    requires Distinct(order) && i <= |order| && (i == |order| || 0 < limit <= Seen(order, b, i))
    ensures LoopOverTwo(limit, order[i..], b, Met(order, b, i)) == Result(Met(order, b, i), i < |order|)
  {
    MetSize(order, b, i);
  }

  lemma {:induction false} LoopEndsAt(limit: int, order: seq<string>, b: set<string>, i: nat)
    requires Distinct(order) && i <= |order|
    ensures var p := EndsAt(limit, order, b, i);
            LoopOverTwo(limit, order[i..], b, Met(order, b, i)) == Result(Met(order, b, p), p < |order|)
    decreases |order| - i
  {
    if i == |order| || 0 < limit <= Seen(order, b, i) {
      LoopEnd(limit, order, b, i);
    } else {
      LoopEndsAt(limit, order, b, i + 1);
      LoopStep(limit, order, b, i);
    }
  }

  lemma {:induction false} EndsAtLimit(limit: int, order: seq<string>, b: set<string>, i: nat)
    requires i <= |order| && 0 < limit && Seen(order, b, i) <= limit
    ensures Seen(order, b, EndsAt(limit, order, b, i)) <= limit
    ensures forall q :: i <= q < EndsAt(limit, order, b, i) ==> Seen(order, b, q) < limit
    decreases |order| - i
  {
    if i < |order| && Seen(order, b, i) < limit {
      EndsAtLimit(limit, order, b, i + 1);
    }
  }

  /** The loop sees the first `p` members: all of them, and then there is no flag, or as
      few as hold `limit` common ones with at least one member still to come. */
  lemma LoopMeans(limit: int, order: seq<string>, b: set<string>) returns (p: nat)
    requires Distinct(order)
    ensures p <= |order| && LoopOverTwo(limit, order, b, {}) == Result(Elems(order[..p]) * b, p < |order|)
    ensures p < |order| ==> 0 < limit && |Elems(order[..p]) * b| == limit
    ensures 0 < limit ==> forall q :: 0 <= q < p ==> |Elems(order[..q]) * b| < limit
  {
    p := EndsAt(limit, order, b, 0);
    assert order[0..] == order;
    LoopEndsAt(limit, order, b, 0);
    if 0 < limit {
      EndsAtLimit(limit, order, b, 0);
    }
    forall q | 0 <= q <= p
      ensures Met(order, b, q) == Elems(order[..q]) * b && |Met(order, b, q)| == Seen(order, b, q)
    {
      MetIs(order, b, q);
      MetSize(order, b, q);
    }
  }

  /** An order of visits for each loop of the recursion. */
  datatype Orders = One | Two(order: seq<string>) | Halves(left: Orders, right: Orders, top: seq<string>)

  /** What the recursion computes with these orders, `None` if they do not fit the sets. */
  ghost function Ordered(limit: int, sets: seq<set<string>>, orders: Orders): Option<Result>
    requires sets != []
    decreases |sets|
  {
    var k := |sets| / 2;
    if |sets| == 1 then Some(Result(sets[0], false))
    else if |sets| == 2 then
      if orders.Two? && Lists(orders.order, sets[0]) then Some(LoopOverTwo(limit, orders.order, sets[1], {})) else None
    else if !orders.Halves? then None
    else
      var left, right := Ordered(limit, sets[..k], orders.left), Ordered(limit, sets[k..], orders.right);
      if left.None? || left.value.stop then left
      else if right.None? || right.value.stop then right
      else if Lists(orders.top, left.value.members)
      then Some(LoopOverTwo(limit, orders.top, right.value.members, {}))
      else None
  }

  lemma HeadAndRest(order: seq<string>)
    requires order != [] && Distinct(order)
    ensures Distinct(order[1..]) && order[0] !in order[1..] && Elems(order) == {order[0]} + Elems(order[1..])
  {
  }

  lemma {:induction false} LoopKeeps(limit: int, order: seq<string>, b: set<string>, seen: set<string>)
    requires Distinct(order)
    ensures var result := LoopOverTwo(limit, order, b, seen);
            && seen <= result.members <= seen + Elems(order) * b
            && (!result.stop ==> result.members == seen + Elems(order) * b)
    decreases |order|
  {
    if order != [] && !(0 < limit <= |seen|) {
      HeadAndRest(order);
      LoopKeeps(limit, order[1..], b, if order[0] in b then seen + {order[0]} else seen);
    }
  }

  lemma {:induction false} LoopCounts(limit: int, order: seq<string>, b: set<string>, seen: set<string>)
    requires 0 < limit ==> |seen| <= limit
    ensures var result := LoopOverTwo(limit, order, b, seen);
            && (0 < limit ==> |result.members| <= limit)
            && (result.stop ==> 0 < limit == |result.members|)
    decreases |order|
  {
    if order != [] && !(0 < limit <= |seen|) {
      assert |seen + {order[0]}| <= |seen| + 1;
      LoopCounts(limit, order[1..], b, if order[0] in b then seen + {order[0]} else seen);
    }
  }

  /** A loop that stops has some member left to visit. */
  lemma {:induction false} LoopLeaves(limit: int, order: seq<string>, b: set<string>, seen: set<string>)
    returns (x: string)
    requires Distinct(order) && (forall y <- order :: y !in seen) && LoopOverTwo(limit, order, b, seen).stop
    ensures x in order && x !in LoopOverTwo(limit, order, b, seen).members
    decreases |order|
  {
    if 0 < limit <= |seen| {
      x := order[0];
    } else {
      HeadAndRest(order);
      x := LoopLeaves(limit, order[1..], b, if order[0] in b then seen + {order[0]} else seen);
    }
  }

  lemma LoopIsOutcome(limit: int, order: seq<string>, a: set<string>, b: set<string>)
    requires Lists(order, a)
    ensures OutcomeOfTwo(limit, a, b, LoopOverTwo(limit, order, b, {}).members, LoopOverTwo(limit, order, b, {}).stop)
  {
    LoopKeeps(limit, order, b, {});
    LoopCounts(limit, order, b, {});
    assert Elems(order) == a;
    if LoopOverTwo(limit, order, b, {}).stop {
      var x := LoopLeaves(limit, order, b, {});
    }
  }

  lemma {:induction false} SomeListing(s: set<string>) returns (order: seq<string>)
    ensures Lists(order, s) && |order| == |s|
    decreases |s|
  {
    if s == {} {
      order := [];
    } else {
      var x :| x in s;
      order := SomeListing(s - {x});
      order := [x] + order;
    }
  }

  /** Members of the left set that the right set does not have leave nothing behind. */
  lemma {:induction false} LoopSkips(limit: int, p: seq<string>, rest: seq<string>, b: set<string>, seen: set<string>)
    requires forall x <- p :: x !in b
    requires 0 < limit ==> |seen| < limit
    ensures LoopOverTwo(limit, p + rest, b, seen) == LoopOverTwo(limit, rest, b, seen)
  {
    if p == [] {
      assert p + rest == rest;
    } else {
      assert (p + rest)[1..] == p[1..] + rest && (p + rest)[0] == p[0];
      LoopSkips(limit, p[1..], rest, b, seen);
    }
  }

  lemma LoopTakesOne(limit: int, x: string, rest: seq<string>, b: set<string>, seen: set<string>)
    requires x in b && x !in seen
    requires 0 < limit ==> |seen| < limit
    ensures LoopOverTwo(limit, [x] + rest, b, seen) == LoopOverTwo(limit, rest, b, seen + {x})
    ensures |seen + {x}| == |seen| + 1
  {
    assert ([x] + rest)[1..] == rest;
  }

  /** Common members are all kept while the limit allows. */
  lemma {:induction false} LoopTakes(limit: int, p: seq<string>, rest: seq<string>, b: set<string>, seen: set<string>)
    requires Distinct(p) && forall x <- p :: x in b && x !in seen
    requires 0 < limit ==> |seen| + |p| <= limit
    ensures LoopOverTwo(limit, p + rest, b, seen) == LoopOverTwo(limit, rest, b, seen + Elems(p))
    decreases |p|
  {
    if p == [] {
      assert p + rest == rest && seen + Elems(p) == seen;
    } else {
      var x, q := p[0], p[1..];
      HeadAndRest(p);
      assert p + rest == [x] + (q + rest);
      LoopTakesOne(limit, x, q + rest, b, seen);
      LoopTakes(limit, q, rest, b, seen + {x});
      assert seen + {x} + Elems(q) == seen + Elems(p);
    }
  }

  lemma JoinedListing(p: seq<string>, q: seq<string>, s: set<string>, t: set<string>)
    requires Lists(p, s) && Lists(q, t) && s !! t
    ensures Lists(p + q, s + t)
  {
    forall i, j | 0 <= i < j < |p + q| ensures (p + q)[i] != (p + q)[j] {
      assert (p + q)[i] in (if i < |p| then p else q) && (p + q)[j] in (if j < |p| then p else q);
    }
  }

  /** Every outcome of two sets is met in some order of visits: stopped, its members first;
      not stopped, the common members last. */
  lemma OutcomeHasOrder(limit: int, a: set<string>, b: set<string>, r: set<string>, stop: bool)
    returns (order: seq<string>)
    requires OutcomeOfTwo(limit, a, b, r, stop)
    ensures Lists(order, a) && LoopOverTwo(limit, order, b, {}) == Result(r, stop)
  {
    var taken := SomeListing(r);
    var others := SomeListing(a - r);
    assert Elems(taken) == r && {} + r == r;
    assert r + (a - r) == a && (a - r) + r == a;
    if stop {
      order := taken + others;
      JoinedListing(taken, others, r, a - r);
      LoopTakes(limit, taken, others, b, {});
      assert others != [] by {
        assert a - r != {};
      }
    } else {
      order := others + taken;
      JoinedListing(others, taken, a - r, r);
      LoopSkips(limit, others, taken, b, {});
      LoopTakes(limit, taken, [], b, {});
      assert taken + [] == taken;
    }
  }

  /** With any orders that fit, the recursion ends in an outcome. */
  lemma {:induction false} OrderedIsOutcome(limit: int, sets: seq<set<string>>, orders: Orders)
    requires sets != [] && Ordered(limit, sets, orders).Some?
    ensures var result := Ordered(limit, sets, orders).value;
            Outcome(limit, sets, result.members, result.stop)
    decreases |sets|
  {
    var k := |sets| / 2;
    if |sets| == 2 {
      LoopIsOutcome(limit, orders.order, sets[0], sets[1]);
    } else if 2 < |sets| {
      var left, right := Ordered(limit, sets[..k], orders.left), Ordered(limit, sets[k..], orders.right);
      OrderedIsOutcome(limit, sets[..k], orders.left);
      if left.value.stop {
        StoppedOnLeft(limit, sets, k, left.value.members);
      } else {
        OrderedIsOutcome(limit, sets[k..], orders.right);
        if right.value.stop {
          StoppedOnRight(limit, sets, k, left.value.members, right.value.members);
        } else {
          var result := LoopOverTwo(limit, orders.top, right.value.members, {});
          LoopIsOutcome(limit, orders.top, left.value.members, right.value.members);
          BothHalves(limit, sets, k, left.value.members, right.value.members, result.members, result.stop);
        }
      }
    }
  }

  /** And every outcome is that of some orders. */
  lemma {:induction false} OutcomeIsOrdered(limit: int, sets: seq<set<string>>, r: set<string>, stop: bool)
    returns (orders: Orders)
    requires sets != [] && Outcome(limit, sets, r, stop)
    ensures Ordered(limit, sets, orders) == Some(Result(r, stop))
    decreases |sets|
  {
    var k := |sets| / 2;
    if |sets| == 1 {
      orders := One;
    } else if |sets| == 2 {
      var order := OutcomeHasOrder(limit, sets[0], sets[1], r, stop);
      orders := Two(order);
    } else if stop && Outcome(limit, sets[..k], r, true) {
      var left := OutcomeIsOrdered(limit, sets[..k], r, true);
      orders := Halves(left, One, []);
    } else {
      var l :| Outcome(limit, sets[..k], l, false) && OutcomeOfRight(limit, sets[k..], l, r, stop);
      var left := OutcomeIsOrdered(limit, sets[..k], l, false);
      orders := OrderedWithRest(limit, sets, k, left, l, r, stop);
    }
  }

  lemma {:induction false} OrderedWithRest(limit: int, sets: seq<set<string>>, k: nat, left: Orders, l: set<string>,
                                           r: set<string>, stop: bool)
    returns (orders: Orders)
    requires 2 < |sets| && k == |sets| / 2 && Ordered(limit, sets[..k], left) == Some(Result(l, false))
    requires OutcomeOfRight(limit, sets[k..], l, r, stop)
    ensures Ordered(limit, sets, orders) == Some(Result(r, stop))
    decreases |sets|, 0
  {
    if stop && Outcome(limit, sets[k..], r, true) {
      var right := OutcomeIsOrdered(limit, sets[k..], r, true);
      orders := Halves(left, right, []);
    } else {
      var m :| Outcome(limit, sets[k..], m, false) && OutcomeOfTwo(limit, l, m, r, stop);
      var right := OutcomeIsOrdered(limit, sets[k..], m, false);
      var top := OutcomeHasOrder(limit, l, m, r, stop);
      orders := HalvesOrdered(limit, sets, k, left, right, top, l, m);
    }
  }

  lemma HalvesOrdered(limit: int, sets: seq<set<string>>, k: nat, left: Orders, right: Orders, top: seq<string>,
                      l: set<string>, m: set<string>)
    returns (orders: Orders)
    requires 2 < |sets| && k == |sets| / 2 && Lists(top, l)
    requires Ordered(limit, sets[..k], left) == Some(Result(l, false))
    requires Ordered(limit, sets[k..], right) == Some(Result(m, false))
    ensures Ordered(limit, sets, orders) == Some(LoopOverTwo(limit, top, m, {}))
  {
    orders := Halves(left, right, top);
  }

  /** The outcomes are exactly what the recursion computes in some order of visits. */
  lemma OutcomeIff(limit: int, sets: seq<set<string>>, r: set<string>, stop: bool)
    requires sets != []
    ensures Outcome(limit, sets, r, stop) <==> exists orders :: Ordered(limit, sets, orders) == Some(Result(r, stop))
  {
    if Outcome(limit, sets, r, stop) {
      var _ := OutcomeIsOrdered(limit, sets, r, stop);
    }
    if orders :| Ordered(limit, sets, orders) == Some(Result(r, stop)) {
      OrderedIsOutcome(limit, sets, orders);
    }
  }

  // ----- when an early stop may go wrong ---------------------------------------------------------------------

  /** The recursion over the sets can end without a stop. */
  predicate Finishes(limit: int, sets: seq<set<string>>)
    requires sets != []
    decreases |sets|
  {
    var k := |sets| / 2;
    if |sets| == 1 then true
    else (limit <= 0 || |InAll(sets)| <= limit)
         && (|sets| == 2 || (Finishes(limit, sets[..k]) && Finishes(limit, sets[k..])))
  }

  /** The loop over two sets cannot stop, or what it may stop with lies in `bound`. */
  predicate SafeTwo(limit: int, a: set<string>, b: set<string>, bound: set<string>) {
    limit <= 0 || |a * b| < limit || |a| <= limit || a * b <= bound
  }

  /** No loop that the recursion can reach may stop with a member outside `bound`. */
  predicate Safe(limit: int, sets: seq<set<string>>, bound: set<string>)
    requires sets != []
    decreases |sets|
  {
    var k := |sets| / 2;
    if |sets| == 1 then true
    else if |sets| == 2 then SafeTwo(limit, sets[0], sets[1], bound)
    else
      && Safe(limit, sets[..k], bound)
      && (Finishes(limit, sets[..k]) ==> Safe(limit, sets[k..], bound))
      && (Finishes(limit, sets[..k]) && Finishes(limit, sets[k..]) ==>
            SafeTwo(limit, InAll(sets[..k]), InAll(sets[k..]), bound))
  }

  lemma FinishedHalves(limit: int, sets: seq<set<string>>, k: nat, r: set<string>)
    requires 2 < |sets| && k == |sets| / 2 && Outcome(limit, sets, r, false)
    ensures Outcome(limit, sets[..k], InAll(sets[..k]), false)
    ensures Outcome(limit, sets[k..], InAll(sets[k..]), false)
    ensures r == InAll(sets) && (limit <= 0 || |r| <= limit)
  {
    var left :| Outcome(limit, sets[..k], left, false) && OutcomeOfRight(limit, sets[k..], left, r, false);
    var right :| Outcome(limit, sets[k..], right, false) && OutcomeOfTwo(limit, left, right, r, false);
    NotStoppedIsExact(limit, sets[..k], left);
    NotStoppedIsExact(limit, sets[k..], right);
    NotStoppedIsExact(limit, sets, r);
  }

  lemma {:induction false} FinishedFinishes(limit: int, sets: seq<set<string>>, r: set<string>)
    requires sets != [] && Outcome(limit, sets, r, false)
    ensures Finishes(limit, sets)
    decreases |sets|
  {
    var k := |sets| / 2;
    if |sets| == 2 {
      assert sets[1..] == [sets[1]];
    } else if 2 < |sets| {
      FinishedHalves(limit, sets, k, r);
      FinishedFinishes(limit, sets[..k], InAll(sets[..k]));
      FinishedFinishes(limit, sets[k..], InAll(sets[k..]));
    }
  }

  lemma {:induction false} FinishesFinished(limit: int, sets: seq<set<string>>)
    requires sets != [] && Finishes(limit, sets)
    ensures Outcome(limit, sets, InAll(sets), false)
    decreases |sets|
  {
    var k := |sets| / 2;
    if |sets| == 2 {
      assert sets[1..] == [sets[1]];
    } else if 2 < |sets| {
      FinishesFinished(limit, sets[..k]);
      FinishesFinished(limit, sets[k..]);
      InAllSplits(sets, k);
      BothHalves(limit, sets, k, InAll(sets[..k]), InAll(sets[k..]), InAll(sets), false);
    }
  }

  /** In a safe call every stopped result lies within the bound. */
  lemma {:induction false} SafeStop(limit: int, sets: seq<set<string>>, bound: set<string>, r: set<string>)
    requires sets != [] && Safe(limit, sets, bound) && Outcome(limit, sets, r, true)
    ensures r <= bound
    decreases |sets|
  {
    var k := |sets| / 2;
    if |sets| == 2 {
      SafeTwoStop(limit, sets[0], sets[1], bound, r);
    } else if Outcome(limit, sets[..k], r, true) {
      SafeStop(limit, sets[..k], bound, r);
    } else {
      var left :| Outcome(limit, sets[..k], left, false) && OutcomeOfRight(limit, sets[k..], left, r, true);
      FinishedFinishes(limit, sets[..k], left);
      if Outcome(limit, sets[k..], r, true) {
        SafeStop(limit, sets[k..], bound, r);
      } else {
        var right :| Outcome(limit, sets[k..], right, false) && OutcomeOfTwo(limit, left, right, r, true);
        FinishedFinishes(limit, sets[k..], right);
        NotStoppedIsExact(limit, sets[..k], left);
        NotStoppedIsExact(limit, sets[k..], right);
        SafeTwoStop(limit, left, right, bound, r);
      }
    }
  }

  lemma SafeTwoStop(limit: int, a: set<string>, b: set<string>, bound: set<string>, r: set<string>)
    requires SafeTwo(limit, a, b, bound) && OutcomeOfTwo(limit, a, b, r, true)
    ensures r <= bound
  {
    Subset(r, a * b);
    assert a == r + (a - r);
  }

  lemma {:induction false} SubsetOfSize(s: set<string>, x: string, n: nat) returns (r: set<string>)
    requires x in s && 0 < n <= |s|
    ensures x in r && r <= s && |r| == n
    decreases |s|
  {
    if |s| == n {
      r := s;
    } else {
      var y :| y in s && y != x by {
        assert s != {x};
      }
      r := SubsetOfSize(s - {y}, x, n);
    }
  }

  lemma UnsafeTwo(limit: int, a: set<string>, b: set<string>, bound: set<string>) returns (r: set<string>)
    requires !SafeTwo(limit, a, b, bound)
    ensures OutcomeOfTwo(limit, a, b, r, true) && !(r <= bound)
  {
    var x :| x in a * b && x !in bound;
    r := SubsetOfSize(a * b, x, limit);
    assert r != a;
  }

  /** In any other call some order of visits stops with a member outside it. */
  lemma {:induction false} UnsafeStop(limit: int, sets: seq<set<string>>, bound: set<string>) returns (r: set<string>)
    requires sets != [] && !Safe(limit, sets, bound)
    ensures Outcome(limit, sets, r, true) && !(r <= bound)
    decreases |sets|
  {
    var k := |sets| / 2;
    if |sets| == 2 {
      r := UnsafeTwo(limit, sets[0], sets[1], bound);
    } else if !Safe(limit, sets[..k], bound) {
      r := UnsafeStop(limit, sets[..k], bound);
      StoppedOnLeft(limit, sets, k, r);
    } else {
      FinishesFinished(limit, sets[..k]);
      if !Safe(limit, sets[k..], bound) {
        r := UnsafeStop(limit, sets[k..], bound);
        StoppedOnRight(limit, sets, k, InAll(sets[..k]), r);
      } else {
        FinishesFinished(limit, sets[k..]);
        r := UnsafeTwo(limit, InAll(sets[..k]), InAll(sets[k..]), bound);
        BothHalves(limit, sets, k, InAll(sets[..k]), InAll(sets[k..]), r, true);
      }
    }
  }

  /** Whatever the order of visits, the result is part of the whole intersection. */
  ghost predicate AlwaysSound(limit: int, sets: seq<set<string>>)
    requires sets != []
  {
    forall r, stop :: Outcome(limit, sets, r, stop) ==> r <= InAll(sets)
  }

  /** That is so exactly when no loop that can be reached may stop with a member that
      is not common to all the sets. */
  lemma AlwaysSoundIff(limit: int, sets: seq<set<string>>)
    requires sets != []
    ensures AlwaysSound(limit, sets) <==> Safe(limit, sets, InAll(sets))
  {
    if Safe(limit, sets, InAll(sets)) {
      forall r, stop | Outcome(limit, sets, r, stop) ensures r <= InAll(sets) {
        if stop {
          SafeStop(limit, sets, InAll(sets), r);
        } else {
          NotStoppedIsExact(limit, sets, r);
        }
      }
    } else {
      var _ := UnsafeStop(limit, sets, InAll(sets));
    }
  }

  /** Whatever the order of visits, the size is what a limited count is for. */
  ghost predicate AlwaysCounts(limit: int, sets: seq<set<string>>)
    requires sets != []
  {
    forall r, stop :: Outcome(limit, sets, r, stop) ==> |r| == if limit < |InAll(sets)| then limit else |InAll(sets)|
  }

  /** That is so exactly when no loop that can be reached may stop at all, or there are
      `limit` common members; a single set is not counted up to the limit. */
  lemma AlwaysCountsIff(limit: int, sets: seq<set<string>>)
    requires sets != [] && 0 < limit
    ensures AlwaysCounts(limit, sets) <==>
            if |sets| == 1 then |sets[0]| <= limit else Safe(limit, sets, {}) || limit <= |InAll(sets)|
  {
    if |sets| == 1 {
      assert Outcome(limit, sets, sets[0], false);
    } else if Safe(limit, sets, {}) || limit <= |InAll(sets)| {
      forall r, stop | Outcome(limit, sets, r, stop)
        ensures |r| == if limit < |InAll(sets)| then limit else |InAll(sets)|
      {
        if stop {
          var _, _ := StoppedIsInBlock(limit, sets, r);
          if Safe(limit, sets, {}) {
            SafeStop(limit, sets, {}, r);
          }
        } else {
          FinishedFinishes(limit, sets, r);
          NotStoppedIsExact(limit, sets, r);
        }
      }
    } else {
      var r := UnsafeStop(limit, sets, {});
      var _, _ := StoppedIsInBlock(limit, sets, r);
    }
  }

  /** Nothing is common to these three, but in some order of visits the loop over the
      last two stops with one member, which is then the result. */
  lemma UnsafeExample() returns (orders: Orders, r: set<string>)
    ensures var sets := [{}, {"x", "y"}, {"x", "y"}];
            InAll(sets) == {} && Ordered(1, sets, orders) == Some(Result(r, true)) && |r| == 1
  {
    var x, xy := {}, {"x", "y"};
    var sets := [x, xy, xy];
    assert sets[..1] == [x] && sets[1..] == [xy, xy] && sets[1..][1..] == [xy];
    assert |xy * xy| == 2 by {
      assert xy * xy == {"x", "y"} && "x" != "y";
    }
    r := UnsafeStop(1, sets, {});
    var _, _ := StoppedIsInBlock(1, sets, r);
    orders := OutcomeIsOrdered(1, sets, r, true);
  }

  ghost function Views(sets: seq<Set>): (r: seq<set<string>>)
    reads sets
    ensures |r| == |sets|
  {
    seq(|sets|, i requires 0 <= i < |sets| reads sets => sets[i].members)
  }

  lemma ViewsSlices(sets: seq<Set>, k: nat)
    requires k <= |sets|
    ensures Views(sets)[..k] == Views(sets[..k]) && Views(sets)[k..] == Views(sets[k..])
  {
  }

  /** The loop over the members of the left set. */
  method IntersectionOfTwo(limit: int, a: Set, b: Set) returns (r: Set, stop: bool, ghost order: seq<string>)
    requires a.Valid() && b.Valid()
    ensures fresh(r) && r.Valid()
    ensures Lists(order, a.members) && Result(r.members, stop) == LoopOverTwo(limit, order, b.members, {})
  {
    r := new Set([]);
    var all := a.GetAll();
    order := all;
    ghost var right := b.members;
    assert all[0..] == all;
    for i := 0 to |all|
      invariant fresh(r) && r.Valid() && b.members == right
      invariant LoopOverTwo(limit, order, right, {}) == LoopOverTwo(limit, order[i..], right, r.members)
    {
      if limit > 0 && r.Cardinality() >= limit {
        return r, true, order;
      }
      assert order[i..][1..] == order[i + 1..];
      Visit(r, b, all[i]);
    }
    stop := false;
  }

  method Visit(r: Set, b: Set, e: string)
    requires r.Valid() && r != b
    modifies r
    ensures r.Valid() && r.members == if e in b.members then old(r.members) + {e} else old(r.members)
  {
    if b.Contains(e) {
      assert Elems([e]) == {e};
      var _ := r.Add([e]);
    }
  }

  lemma StoppedOnLeft(limit: int, sets: seq<set<string>>, k: nat, r: set<string>)
    requires 2 < |sets| && k == |sets| / 2 && Outcome(limit, sets[..k], r, true)
    ensures Outcome(limit, sets, r, true)
  {
  }

  lemma StoppedOnRight(limit: int, sets: seq<set<string>>, k: nat, left: set<string>, r: set<string>)
    requires 2 < |sets| && k == |sets| / 2
    requires Outcome(limit, sets[..k], left, false) && Outcome(limit, sets[k..], r, true)
    ensures Outcome(limit, sets, r, true)
  {
    assert OutcomeOfRight(limit, sets[k..], left, r, true);
  }

  lemma BothHalves(limit: int, sets: seq<set<string>>, k: nat, left: set<string>, right: set<string>,
                   r: set<string>, stop: bool)
    requires 2 < |sets| && k == |sets| / 2
    requires Outcome(limit, sets[..k], left, false) && Outcome(limit, sets[k..], right, false)
    requires OutcomeOfTwo(limit, left, right, r, stop)
    ensures Outcome(limit, sets, r, stop)
  {
    assert OutcomeOfRight(limit, sets[k..], left, r, stop);
  }

  /** With one set, the set itself is returned. */
  method Intersection(limit: int, sets: seq<Set>) returns (r: Set, stop: bool, ghost orders: Orders)
    requires sets != [] && AllValid(sets)
    ensures r.Valid() && (r in sets || fresh(r))
    ensures Ordered(limit, Views(sets), orders) == Some(Result(r.members, stop))
    ensures Outcome(limit, Views(sets), r.members, stop)
    decreases |sets|
  {
    var n := |sets|;
    if n == 1 {
      r, stop, orders := sets[0], false, One;
    } else if n == 2 {
      ghost var order;
      r, stop, order := IntersectionOfTwo(limit, sets[0], sets[1]);
      orders := Two(order);
    } else {
      r, stop, orders := IntersectionOfHalves(limit, sets, n / 2);
    }
    OrderedIsOutcome(limit, Views(sets), orders);
  }

  method IntersectionOfHalves(limit: int, sets: seq<Set>, k: nat) returns (r: Set, stop: bool, ghost orders: Orders)
    requires 2 < |sets| && k == |sets| / 2 && AllValid(sets)
    ensures r.Valid() && (r in sets || fresh(r))
    ensures Ordered(limit, Views(sets), orders) == Some(Result(r.members, stop))
    decreases |sets|, 1
  {
    ViewsSlices(sets, k);
    HalvesHold(sets, k);
    var left;
    ghost var leftOrders;
    left, stop, leftOrders := Intersection(limit, sets[..k]);
    if stop {
      return left, stop, Halves(leftOrders, One, []);
    }
    r, stop, orders := IntersectionWithRest(limit, sets, k, left, leftOrders);
  }

  /** The rest of the work when the left half did not stop. */
  method IntersectionWithRest(limit: int, sets: seq<Set>, k: nat, left: Set, ghost leftOrders: Orders)
    returns (r: Set, stop: bool, ghost orders: Orders)
    requires 2 < |sets| && k == |sets| / 2 && AllValid(sets) && left.Valid()
    requires Ordered(limit, Views(sets)[..k], leftOrders) == Some(Result(left.members, false))
    ensures r.Valid() && (r in sets || fresh(r))
    ensures Ordered(limit, Views(sets), orders) == Some(Result(r.members, stop))
    decreases |sets|, 0
  {
    ghost var views, found := Views(sets), left.members;
    ViewsSlices(sets, k);
    HalvesHold(sets, k);
    var right;
    ghost var rightOrders, top;
    right, stop, rightOrders := Intersection(limit, sets[k..]);
    ghost var result := Result(right.members, stop);
    if stop {
      OrdersJoin(limit, views, k, leftOrders, rightOrders, [], found, result);
      return right, stop, Halves(leftOrders, rightOrders, []);
    }
    r, stop, top := IntersectionOfTwo(limit, left, right);
    OrdersJoin(limit, views, k, leftOrders, rightOrders, top, found, result);
    orders := Halves(leftOrders, rightOrders, top);
  }

  lemma OrdersJoin(limit: int, sets: seq<set<string>>, k: nat, left: Orders, right: Orders, top: seq<string>,
                   found: set<string>, result: Result)
    requires 2 < |sets| && k == |sets| / 2
    requires Ordered(limit, sets[..k], left) == Some(Result(found, false))
    requires Ordered(limit, sets[k..], right) == Some(result)
    requires result.stop || Lists(top, found)
    ensures Ordered(limit, sets, Halves(left, right, top)) ==
            Some(if result.stop then result else LoopOverTwo(limit, top, result.members, {}))
  {
  }
}
