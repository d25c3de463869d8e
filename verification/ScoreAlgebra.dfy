/** Weighted unions and intersections of sorted sets, defined flatly: member by
    member, over all the sets at once. */
module ScoreAlgebra {
  import opened Common

  type Scores = map<string, real>

  /** A sorted set and the weight given to it. */
  datatype Weighted = Weighted(members: Scores, weight: int)

  /** The comparison that a word asks for; any word but LT and GT asks for none. */
  datatype Comparison = Plain | Lt | Gt

  function ComparisonOf(word: string): Comparison {
    if ToLower(word) == "lt" then Lt else if ToLower(word) == "gt" then Gt else Plain
  }

  /** Scores are reals here: no rounding, no NaN, no infinities. */
  function CompareScores(was: real, new_: real, comp: Comparison): real {
    match comp
    case Lt => if new_ < was then new_ else was
    case Gt => if new_ > was then new_ else was
    case Plain => new_
  }

  /** Any aggregate but "sum" and "min" is taken as "max". */
  function Combine(aggregate: string, left: real, right: real): real {
    if aggregate == "sum" then left + right
    else CompareScores(left, right, if aggregate == "min" then Lt else Gt)
  }

  lemma CombineLaws(aggregate: string, a: real, b: real, c: real)
    ensures Combine(aggregate, a, b) == Combine(aggregate, b, a)
    ensures Combine(aggregate, Combine(aggregate, a, b), c) == Combine(aggregate, a, Combine(aggregate, b, c))
  {
  }

  // ----- the flat definitions -----------------------------------------------------------------

  function WeightedScore(p: Weighted, member: string): real
    requires member in p.members
  {
    p.members[member] * p.weight as real
  }

  /** The weighted score of a member in one set, if the set holds it. */
  function ScoreIn(p: Weighted, member: string): seq<real> {
    if member in p.members then [WeightedScore(p, member)] else []
  }

  /** The weighted scores of a member, in the order of the sets that hold it. */
  function ScoresOf(params: seq<Weighted>, member: string): (r: seq<real>)
    ensures |r| <= |params|
  {
    if params == [] then [] else ScoreIn(params[0], member) + ScoresOf(params[1..], member)
  }

  function Fold(aggregate: string, scores: seq<real>): real
    requires scores != []
  {
    if |scores| == 1 then scores[0]
    else Combine(aggregate, scores[0], Fold(aggregate, scores[1..]))
  }

  function AllMembers(params: seq<Weighted>): (r: set<string>)
    ensures forall m :: m in r <==> ScoresOf(params, m) != []
  {
    if params == [] then {} else params[0].members.Keys + AllMembers(params[1..])
  }

  function CommonMembers(params: seq<Weighted>): (r: set<string>)
    ensures forall m :: m in r <==> params != [] && |ScoresOf(params, m)| == |params|
  {
    if params == [] then {}
    else set m | m in params[0].members && |ScoresOf(params, m)| == |params|
  }

  function FlatUnion(aggregate: string, params: seq<Weighted>): Scores {
    map m | m in AllMembers(params) :: Fold(aggregate, ScoresOf(params, m))
  }

  function FlatIntersection(aggregate: string, params: seq<Weighted>): Scores {
    map m | m in CommonMembers(params) :: Fold(aggregate, ScoresOf(params, m))
  }

  // ----- what they mean --------------------------------------------------------------------------

  /** A member is in the union when some set holds it, and in the intersection
      when every set does. */
  lemma {:induction false} ScoresOfHolders(params: seq<Weighted>, member: string)
    ensures ScoresOf(params, member) != [] <==> exists p :: p in params && member in p.members
    ensures |ScoresOf(params, member)| <= |params|
    ensures |ScoresOf(params, member)| == |params| <==> forall p :: p in params ==> member in p.members
  {
    if params != [] {
      ScoresOfHolders(params[1..], member);
      assert params[0] in params;
      assert forall p :: p in params <==> p == params[0] || p in params[1..];
    }
  }

  function Total(scores: seq<real>): real {
    if scores == [] then 0.0 else scores[0] + Total(scores[1..])
  }

  /** The aggregate is the sum, the least or the greatest of the scores. */
  lemma {:induction false} FoldMeaning(aggregate: string, scores: seq<real>)
    requires scores != []
    ensures aggregate == "sum" ==> Fold(aggregate, scores) == Total(scores)
    ensures aggregate == "min" ==>
              Fold(aggregate, scores) in scores && forall x :: x in scores ==> Fold(aggregate, scores) <= x
    ensures aggregate != "sum" && aggregate != "min" ==>
              Fold(aggregate, scores) in scores && forall x :: x in scores ==> x <= Fold(aggregate, scores)
  {
    if |scores| == 1 {
      assert Total(scores[1..]) == 0.0;
    } else {
      FoldMeaning(aggregate, scores[1..]);
      assert forall x :: x in scores <==> x == scores[0] || x in scores[1..];
    }
  }

  lemma FoldBounds(aggregate: string, scores: seq<real>, x: real)
    requires x in scores && aggregate != "sum"
    ensures if aggregate == "min" then Fold(aggregate, scores) <= x else x <= Fold(aggregate, scores)
  {
    FoldMeaning(aggregate, scores);
  }

  // ----- the weights, set by set --------------------------------------------------------------------

  /** The sum, over the sets that hold the member, of its score there times the set's weight. */
  function WeightedSum(params: seq<Weighted>, member: string): real {
    if params == [] then 0.0
    else
      (if member in params[0].members then params[0].members[member] * params[0].weight as real else 0.0)
      + WeightedSum(params[1..], member)
  }

  lemma TotalAppend(x: real, scores: seq<real>)
    ensures Total([x] + scores) == x + Total(scores)
  {
    assert ([x] + scores)[1..] == scores;
  }

  lemma {:induction false} TotalIsWeightedSum(params: seq<Weighted>, member: string)
    ensures Total(ScoresOf(params, member)) == WeightedSum(params, member)
  {
    if params != [] {
      TotalIsWeightedSum(params[1..], member);
      if member in params[0].members {
        TotalAppend(WeightedScore(params[0], member), ScoresOf(params[1..], member));
      } else {
        assert [] + ScoresOf(params[1..], member) == ScoresOf(params[1..], member);
      }
    }
  }

  lemma {:induction false} ScoreOfHolder(params: seq<Weighted>, member: string, i: nat)
    requires i < |params| && member in params[i].members
    ensures WeightedScore(params[i], member) in ScoresOf(params, member)
  {
    if i == 0 {
      assert WeightedScore(params[0], member) in ScoreIn(params[0], member);
    } else {
      ScoreOfHolder(params[1..], member, i - 1);
    }
  }

  lemma {:induction false} HolderOfScore(params: seq<Weighted>, member: string, x: real) returns (i: nat)
    requires x in ScoresOf(params, member)
    ensures i < |params| && member in params[i].members && x == WeightedScore(params[i], member)
  {
    if x in ScoreIn(params[0], member) {
      return 0;
    }
    i := HolderOfScore(params[1..], member, x);
    i := i + 1;
  }

  /** The score that a member gets, whatever the order in which its scores are put together:
      their sum, or the one that bounds them all. */
  lemma WeightsApplied(aggregate: string, params: seq<Weighted>, member: string)
    requires ScoresOf(params, member) != []
    ensures var score := Fold(aggregate, ScoresOf(params, member));
            && (aggregate == "sum" ==> score == WeightedSum(params, member))
            && (aggregate != "sum" ==>
                  exists i :: 0 <= i < |params| && member in params[i].members
                              && score == params[i].members[member] * params[i].weight as real)
            && (aggregate == "min" ==>
                  forall i :: 0 <= i < |params| && member in params[i].members ==>
                    score <= params[i].members[member] * params[i].weight as real)
            && (aggregate != "sum" && aggregate != "min" ==>
                  forall i :: 0 <= i < |params| && member in params[i].members ==>
                    params[i].members[member] * params[i].weight as real <= score)
  {
    var scores := ScoresOf(params, member);
    FoldMeaning(aggregate, scores);
    TotalIsWeightedSum(params, member);
    if aggregate != "sum" {
      var i := HolderOfScore(params, member, Fold(aggregate, scores));
    }
    forall i | 0 <= i < |params| && member in params[i].members
      ensures WeightedScore(params[i], member) in scores
    {
      ScoreOfHolder(params, member, i);
    }
  }

  // ----- splitting --------------------------------------------------------------------------------

  lemma {:induction false} ScoresOfAppend(a: seq<Weighted>, b: seq<Weighted>, member: string)
    ensures ScoresOf(a + b, member) == ScoresOf(a, member) + ScoresOf(b, member)
  {
    if a == [] {
      assert a + b == b;
      assert [] + ScoresOf(b, member) == ScoresOf(b, member);
    } else {
      ScoresOfAppend(a[1..], b, member);
      assert (a + b)[1..] == a[1..] + b;
      ConcatAssoc(ScoreIn(a[0], member), ScoresOf(a[1..], member), ScoresOf(b, member));
    }
  }

  lemma {:induction false} FoldAppend(aggregate: string, a: seq<real>, b: seq<real>)
    requires a != [] && b != []
    ensures Fold(aggregate, a + b) == Combine(aggregate, Fold(aggregate, a), Fold(aggregate, b))
  {
    assert (a + b)[1..] == a[1..] + b;
    if |a| == 1 {
      assert (a + b)[1..] == b;
    } else {
      FoldAppend(aggregate, a[1..], b);
      CombineLaws(aggregate, a[0], Fold(aggregate, a[1..]), Fold(aggregate, b));
    }
  }

  /** Two results put together member by member. */
  function Merge(aggregate: string, left: Scores, right: Scores): Scores {
    map m | m in left.Keys + right.Keys ::
      if m !in right then left[m] else if m !in left then right[m] else Combine(aggregate, left[m], right[m])
  }

  function Meet(aggregate: string, left: Scores, right: Scores): Scores {
    map m | m in left && m in right :: Combine(aggregate, left[m], right[m])
  }

  lemma UnionSplits(aggregate: string, a: seq<Weighted>, b: seq<Weighted>)
    ensures FlatUnion(aggregate, a + b) == Merge(aggregate, FlatUnion(aggregate, a), FlatUnion(aggregate, b))
  {
    var whole, parts := FlatUnion(aggregate, a + b), Merge(aggregate, FlatUnion(aggregate, a), FlatUnion(aggregate, b));
    forall m ensures EqualAt(whole, parts, m) {
      UnionSplitsAt(aggregate, a, b, m);
    }
    MapsEqual(whole, parts);
  }

  lemma UnionSplitsAt(aggregate: string, a: seq<Weighted>, b: seq<Weighted>, m: string)
    ensures EqualAt(FlatUnion(aggregate, a + b),
                    Merge(aggregate, FlatUnion(aggregate, a), FlatUnion(aggregate, b)), m)
  {
    ScoresOfAppend(a, b, m);
    var left, right := ScoresOf(a, m), ScoresOf(b, m);
    if left == [] {
      assert left + right == right;
    } else if right == [] {
      assert left + right == left;
    } else {
      FoldAppend(aggregate, left, right);
    }
  }

  lemma IntersectionSplits(aggregate: string, a: seq<Weighted>, b: seq<Weighted>)
    requires a != [] && b != []
    ensures FlatIntersection(aggregate, a + b) ==
            Meet(aggregate, FlatIntersection(aggregate, a), FlatIntersection(aggregate, b))
  {
    var whole := FlatIntersection(aggregate, a + b);
    var parts := Meet(aggregate, FlatIntersection(aggregate, a), FlatIntersection(aggregate, b));
    forall m ensures EqualAt(whole, parts, m) {
      IntersectionSplitsAt(aggregate, a, b, m);
    }
    MapsEqual(whole, parts);
  }

  lemma IntersectionSplitsAt(aggregate: string, a: seq<Weighted>, b: seq<Weighted>, m: string)
    requires a != [] && b != []
    ensures EqualAt(FlatIntersection(aggregate, a + b),
                    Meet(aggregate, FlatIntersection(aggregate, a), FlatIntersection(aggregate, b)), m)
  {
    ScoresOfAppend(a, b, m);
    ScoresOfHolders(a, m);
    ScoresOfHolders(b, m);
    if |ScoresOf(a, m)| == |a| && |ScoresOf(b, m)| == |b| {
      FoldAppend(aggregate, ScoresOf(a, m), ScoresOf(b, m));
    }
  }

  /** One set alone: its scores times its weight. */
  function Scaled(p: Weighted): Scores {
    map m | m in p.members :: WeightedScore(p, m)
  }

  lemma OneSet(aggregate: string, p: Weighted)
    ensures FlatUnion(aggregate, [p]) == Scaled(p) == FlatIntersection(aggregate, [p])
  {
    assert [p][1..] == [];
    forall m ensures ScoresOf([p], m) == ScoreIn(p, m) {
      assert ScoreIn(p, m) + [] == ScoreIn(p, m);
    }
    forall m ensures EqualAt(FlatUnion(aggregate, [p]), Scaled(p), m) {
    }
    MapsEqual(FlatUnion(aggregate, [p]), Scaled(p));
    forall m ensures EqualAt(FlatIntersection(aggregate, [p]), Scaled(p), m) {
    }
    MapsEqual(FlatIntersection(aggregate, [p]), Scaled(p));
  }

  lemma TwoSets(aggregate: string, a: Weighted, b: Weighted)
    ensures FlatUnion(aggregate, [a, b]) == Merge(aggregate, Scaled(a), Scaled(b))
    ensures FlatIntersection(aggregate, [a, b]) == Meet(aggregate, Scaled(a), Scaled(b))
  {
    assert [a, b] == [a] + [b];
    UnionSplits(aggregate, [a], [b]);
    IntersectionSplits(aggregate, [a], [b]);
    OneSet(aggregate, a);
    OneSet(aggregate, b);
  }

  lemma ScaledExample()
    ensures Scaled(Weighted(map["a" := 1.0], 2)) == map["a" := 2.0]
    ensures Scaled(Weighted(map["a" := 1.0], 3)) == map["a" := 3.0]
  {
    assert WeightedScore(Weighted(map["a" := 1.0], 2), "a") == 2.0;
    assert WeightedScore(Weighted(map["a" := 1.0], 3), "a") == 3.0;
  }

  lemma PutTogetherExample()
    ensures Merge("sum", map["a" := 2.0], map["a" := 3.0]) == map["a" := 5.0]
    ensures Meet("sum", map["a" := 2.0], map["a" := 3.0]) == map["a" := 5.0]
    ensures Meet("min", map["a" := 2.0], map["a" := 3.0]) == map["a" := 2.0]
    ensures Meet("max", map["a" := 2.0], map["a" := 3.0]) == map["a" := 3.0]
  {
  }

  /** One member in two sets, with weights 2 and 3. */
  lemma WeightsExample(params: seq<Weighted>)
    requires params == [Weighted(map["a" := 1.0], 2), Weighted(map["a" := 1.0], 3)]
    ensures FlatUnion("sum", params) == map["a" := 5.0]
    ensures FlatIntersection("sum", params) == map["a" := 5.0]
    ensures FlatIntersection("min", params) == map["a" := 2.0]
    ensures FlatIntersection("max", params) == map["a" := 3.0]
  {
    ScaledExample();
    PutTogetherExample();
    assert params == [params[0], params[1]];
    TwoSets("sum", params[0], params[1]);
    TwoSets("min", params[0], params[1]);
    TwoSets("max", params[0], params[1]);
  }

  // ----- the order of the sets does not matter --------------------------------------------------------

  lemma {:induction false} FoldExtract(aggregate: string, s: seq<real>, i: nat)
    requires i < |s| && 1 < |s|
    ensures Fold(aggregate, s) == Combine(aggregate, s[i], Fold(aggregate, s[..i] + s[i + 1..]))
  {
    if i == 0 {
      assert s[..0] + s[1..] == s[1..];
    } else {
      var rest := s[..i] + s[i + 1..];
      assert rest[1..] == s[1..][..i - 1] + s[1..][i..];
      if |s| == 2 {
        CombineLaws(aggregate, s[0], s[1], s[1]);
        assert rest == [s[0]];
        assert Fold(aggregate, s[1..]) == s[1];
      } else {
        FoldExtract(aggregate, s[1..], i - 1);
        var tail := Fold(aggregate, rest[1..]);
        CombineLaws(aggregate, s[0], s[i], tail);
        CombineLaws(aggregate, s[i], s[0], tail);
      }
    }
  }

  lemma {:induction false} FoldPermuted(aggregate: string, s: seq<real>, t: seq<real>)
    requires s != [] && multiset(s) == multiset(t)
    ensures t != [] && Fold(aggregate, s) == Fold(aggregate, t)
    decreases |s|
  {
    assert s[0] in multiset(t);
    SameLength(s, t);
    var i :| 0 <= i < |t| && t[i] == s[0];
    var rest := t[..i] + t[i + 1..];
    RemoveOne(s, t, i);
    if |s| > 1 {
      FoldPermuted(aggregate, s[1..], rest);
      FoldExtract(aggregate, t, i);
    }
  }

  lemma SameLength<T>(s: seq<T>, t: seq<T>)
    requires multiset(s) == multiset(t)
    ensures |s| == |t|
  {
    assert |multiset(s)| == |s| && |multiset(t)| == |t|;
  }

  lemma RemoveOne<T>(s: seq<T>, t: seq<T>, i: nat)
    requires s != [] && multiset(s) == multiset(t) && i < |t| && t[i] == s[0]
    ensures multiset(s[1..]) == multiset(t[..i] + t[i + 1..])
  {
    assert s == [s[0]] + s[1..];
    assert t == t[..i] + [t[i]] + t[i + 1..];
    assert multiset(s[1..]) == multiset(s) - multiset{s[0]};
    assert multiset(t[..i] + t[i + 1..]) == multiset(t) - multiset{t[i]};
  }

  lemma ScoresExtract(a: seq<Weighted>, i: nat, member: string)
    requires i < |a|
    ensures multiset(ScoresOf(a, member)) ==
            multiset(ScoreIn(a[i], member)) + multiset(ScoresOf(a[..i] + a[i + 1..], member))
  {
    assert a == a[..i] + a[i..] && a[i..][1..] == a[i + 1..];
    ScoresOfAppend(a[..i], a[i..], member);
    ScoresOfAppend(a[..i], a[i + 1..], member);
  }

  lemma {:induction false} ScoresPermuted(a: seq<Weighted>, b: seq<Weighted>, member: string)
    requires multiset(a) == multiset(b)
    ensures multiset(ScoresOf(a, member)) == multiset(ScoresOf(b, member))
    decreases |a|
  {
    SameLength(a, b);
    if a != [] {
      assert a[0] in multiset(b);
      var i :| 0 <= i < |b| && b[i] == a[0];
      RemoveOne(a, b, i);
      ScoresPermuted(a[1..], b[..i] + b[i + 1..], member);
      ScoresExtract(b, i, member);
    }
  }

  /** The result depends on which sets and weights are given, not on their order. */
  lemma OrderDoesNotMatter(aggregate: string, a: seq<Weighted>, b: seq<Weighted>)
    requires multiset(a) == multiset(b)
    ensures FlatUnion(aggregate, a) == FlatUnion(aggregate, b)
    ensures FlatIntersection(aggregate, a) == FlatIntersection(aggregate, b)
  {
    SameLength(a, b);
    forall m
      ensures EqualAt(FlatUnion(aggregate, a), FlatUnion(aggregate, b), m)
      ensures EqualAt(FlatIntersection(aggregate, a), FlatIntersection(aggregate, b), m)
    {
      ScoresPermuted(a, b, m);
      SameLength(ScoresOf(a, m), ScoresOf(b, m));
      if ScoresOf(a, m) != [] {
        FoldPermuted(aggregate, ScoresOf(a, m), ScoresOf(b, m));
      }
    }
    MapsEqual(FlatUnion(aggregate, a), FlatUnion(aggregate, b));
    MapsEqual(FlatIntersection(aggregate, a), FlatIntersection(aggregate, b));
  }
}
