/** Sorted sets: unions and intersections by divide and conquer, popping by
    score, and adding or updating members. */
module SortedSets {
  import opened Common
  import opened ScoreAlgebra

  datatype MemberParam = MemberParam(value: string, score: real)

  /** The members of a list; the last score given for a member is the one kept. */
  function FromList(list: seq<MemberParam>): Scores {
    if list == [] then map[]
    else FromList(list[..|list| - 1])[list[|list| - 1].value := list[|list| - 1].score]
  }

  lemma FromListAdd(list: seq<MemberParam>, m: MemberParam)
    ensures FromList(list + [m]) == FromList(list)[m.value := m.score]
  {
    assert (list + [m])[..|list|] == list;
  }

  lemma {:induction false} FromListKeys(list: seq<MemberParam>, value: string)
    ensures value in FromList(list) <==> exists i :: 0 <= i < |list| && list[i].value == value
  {
    if list != [] {
      FromListKeys(list[..|list| - 1], value);
    }
  }

  lemma {:induction false} FromListLast(list: seq<MemberParam>, i: nat)
    requires i < |list| && forall j :: i < j < |list| ==> list[j].value != list[i].value
    ensures list[i].value in FromList(list) && FromList(list)[list[i].value] == list[i].score
  {
    if i < |list| - 1 {
      FromListLast(list[..|list| - 1], i);
    }
  }

  // ----- adding and updating, as a function -------------------------------------------------------

  datatype Updated = Updated(members: Scores, count: nat)

  /** One turn of the loop, without INCR. */
  function UpdateOne(u: Updated, m: MemberParam, policy: string, comp: Comparison, ch: bool): Updated {
    var present := m.value in u.members;
    if EqualFold(policy, "xx") then
      if !present then u
      else Updated(u.members[m.value := CompareScores(u.members[m.value], m.score, comp)],
                   u.count + (if ch then 1 else 0))
    else if EqualFold(policy, "nx") then
      if present then u else Updated(u.members[m.value := m.score], u.count + 1)
    else
      // An absent member reads as score 0.
      var was := if present then u.members[m.value] else 0.0;
      Updated(u.members[m.value := CompareScores(was, m.score, comp)],
              u.count + (if was != m.score || !present then 1 else 0))
  }

  function UpdateAll(members: Scores, list: seq<MemberParam>, policy: string, comp: Comparison, ch: bool): Updated {
    if list == [] then Updated(members, 0)
    else UpdateOne(UpdateAll(members, list[..|list| - 1], policy, comp, ch), list[|list| - 1], policy, comp, ch)
  }

  ghost predicate Given(list: seq<MemberParam>, value: string) {
    exists i :: 0 <= i < |list| && list[i].value == value
  }

  lemma GivenLast(list: seq<MemberParam>, value: string)
    requires list != []
    ensures Given(list, value) <==> Given(list[..|list| - 1], value) || list[|list| - 1].value == value
  {
    var before := list[..|list| - 1];
    assert forall i :: 0 <= i < |before| ==> before[i] == list[i];
  }

  lemma PolicyWords()
    ensures ToLower("") == "" && ToLower("nx") == "nx" && ToLower("xx") == "xx"
    ensures ToLower("NX") == "nx" && ToLower("XX") == "xx"
  {
  }

  lemma ComparisonWords()
    ensures ComparisonOf("gt") == ComparisonOf("GT") == Gt
    ensures ComparisonOf("lt") == ComparisonOf("LT") == Lt
    ensures ComparisonOf("") == Plain
  {
    assert ToLower("gt") == ToLower("GT") == "gt" && ToLower("lt") == ToLower("LT") == "lt";
    assert "gt"[0] != "lt"[0] && |ToLower("")| == 0;
  }

  /** Members given in one call or in two: the scores are the same and the counts add up. */
  lemma {:induction false} UpdatesAppend(members: Scores, a: seq<MemberParam>, b: seq<MemberParam>, policy: string,
                                         comp: Comparison, ch: bool)
    ensures var first := UpdateAll(members, a, policy, comp, ch);
            var second := UpdateAll(first.members, b, policy, comp, ch);
            UpdateAll(members, a + b, policy, comp, ch) == Updated(second.members, first.count + second.count)
    decreases |b|
  {
    if b == [] {
      assert a + b == a;
    } else {
      var before, last := b[..|b| - 1], b[|b| - 1];
      UpdatesAppend(members, a, before, policy, comp, ch);
      assert a + b == (a + before) + [last];
      UpdateLast(members, a + before, last, policy, comp, ch);
      var first := UpdateAll(members, a, policy, comp, ch);
      CountsAdd(UpdateAll(first.members, before, policy, comp, ch), first.count, last, policy, comp, ch);
    }
  }

  lemma UpdateLast(members: Scores, list: seq<MemberParam>, m: MemberParam, policy: string, comp: Comparison, ch: bool)
    ensures UpdateAll(members, list + [m], policy, comp, ch) ==
            UpdateOne(UpdateAll(members, list, policy, comp, ch), m, policy, comp, ch)
  {
    assert (list + [m])[..|list|] == list;
  }

  lemma CountsAdd(u: Updated, n: nat, m: MemberParam, policy: string, comp: Comparison, ch: bool)
    ensures var v := UpdateOne(u, m, policy, comp, ch);
            UpdateOne(Updated(u.members, n + u.count), m, policy, comp, ch) == Updated(v.members, n + v.count)
  {
  }

  /** One member, in the words of the options. */
  lemma OneMember(members: Scores, m: MemberParam, policy: string, comparison: string, ch: bool)
    ensures var u := UpdateAll(members, [m], policy, ComparisonOf(comparison), ch);
            var present := m.value in members;
            var was := if present then members[m.value] else 0.0;
            var p, c := ToLower(policy), ToLower(comparison);
            && u.members == (
                 if (p == "nx" && present) || (p == "xx" && !present) then members
                 else if p != "nx" && ((c == "gt" && m.score < was) || (c == "lt" && was < m.score)) then
                   members[m.value := was]
                 else members[m.value := m.score])
            && u.count == (
                 if p == "nx" then (if present then 0 else 1)
                 else if p == "xx" then (if present && ch then 1 else 0)
                 else if present && was == m.score then 0 else 1)
  {
    assert [m][..0] == [];
    PolicyWords();
  }

  /** NX changes no score that is there, adds every new member, and counts the additions. */
  lemma {:induction false} NxOnlyAdds(members: Scores, list: seq<MemberParam>, policy: string, comp: Comparison,
                                      ch: bool)
    requires ToLower(policy) == "nx"
    ensures var u := UpdateAll(members, list, policy, comp, ch);
            && (forall v :: v in members ==> v in u.members && u.members[v] == members[v])
            && (forall v :: v in u.members <==> v in members || Given(list, v))
            && u.count == |u.members| - |members|
  {
    PolicyWords();
    if list != [] {
      var before, last := list[..|list| - 1], list[|list| - 1];
      NxOnlyAdds(members, before, policy, comp, ch);
      var u := UpdateAll(members, before, policy, comp, ch);
      forall v ensures Given(list, v) <==> Given(before, v) || last.value == v {
        GivenLast(list, v);
      }
      if last.value !in u.members {
        assert u.members[last.value := last.score].Keys == u.members.Keys + {last.value};
      }
    }
  }

  /** XX adds nobody and drops nobody. */
  lemma {:induction false} XxOnlyUpdates(members: Scores, list: seq<MemberParam>, policy: string, comp: Comparison,
                                         ch: bool)
    requires ToLower(policy) == "xx"
    ensures var u := UpdateAll(members, list, policy, comp, ch);
            && u.members.Keys == members.Keys
            && (forall v :: v in members && !Given(list, v) ==> u.members[v] == members[v])
            && (!ch ==> u.count == 0)
  {
    PolicyWords();
    if list != [] {
      var before, last := list[..|list| - 1], list[|list| - 1];
      XxOnlyUpdates(members, before, policy, comp, ch);
      forall v ensures Given(list, v) <==> Given(before, v) || last.value == v {
        GivenLast(list, v);
      }
    }
  }

  ghost predicate GivenScore(list: seq<MemberParam>, value: string, score: real) {
    exists i :: 0 <= i < |list| && list[i] == MemberParam(value, score)
  }

  lemma GivenScoreLast(list: seq<MemberParam>, value: string, score: real)
    requires list != []
    ensures GivenScore(list, value, score) <==>
              GivenScore(list[..|list| - 1], value, score) || list[|list| - 1] == MemberParam(value, score)
  {
    var before := list[..|list| - 1];
    assert forall i :: 0 <= i < |before| ==> before[i] == list[i];
    if GivenScore(before, value, score) {
      var i :| 0 <= i < |before| && before[i] == MemberParam(value, score);
      assert list[i] == MemberParam(value, score);
    }
  }

  /** With GT a score that is there ends as the greatest of it and those given for its member. */
  lemma {:induction false} GtKeepsGreatest(members: Scores, list: seq<MemberParam>, policy: string, ch: bool, v: string)
    requires v in members && !EqualFold(policy, "nx")
    ensures var up := UpdateAll(members, list, policy, Gt, ch).members;
            && v in up && members[v] <= up[v]
            && (forall x :: GivenScore(list, v, x) ==> x <= up[v])
            && (up[v] == members[v] || GivenScore(list, v, up[v]))
  {
    if list != [] {
      GtKeepsGreatest(members, list[..|list| - 1], policy, ch, v);
      forall x {
        GivenScoreLast(list, v, x);
      }
    }
  }

  /** With LT, as the least. */
  lemma {:induction false} LtKeepsLeast(members: Scores, list: seq<MemberParam>, policy: string, ch: bool, v: string)
    requires v in members && !EqualFold(policy, "nx")
    ensures var down := UpdateAll(members, list, policy, Lt, ch).members;
            && v in down && down[v] <= members[v]
            && (forall x :: GivenScore(list, v, x) ==> down[v] <= x)
            && (down[v] == members[v] || GivenScore(list, v, down[v]))
  {
    if list != [] {
      LtKeepsLeast(members, list[..|list| - 1], policy, ch, v);
      forall x {
        GivenScoreLast(list, v, x);
      }
    }
  }

  lemma ComparisonInWords(members: Scores, list: seq<MemberParam>, policy: string, comparison: string, ch: bool)
    requires ToLower(policy) == "nx" ==> comparison == ""
    ensures var u := UpdateAll(members, list, policy, ComparisonOf(comparison), ch).members;
            && (ToLower(comparison) == "gt" ==>
                  forall v :: v in members ==>
                    && v in u && members[v] <= u[v] && (u[v] == members[v] || GivenScore(list, v, u[v]))
                    && forall x :: GivenScore(list, v, x) ==> x <= u[v])
            && (ToLower(comparison) == "lt" ==>
                  forall v :: v in members ==>
                    && v in u && u[v] <= members[v] && (u[v] == members[v] || GivenScore(list, v, u[v]))
                    && forall x :: GivenScore(list, v, x) ==> u[v] <= x)
  {
    PolicyWords();
    if ToLower(comparison) == "gt" {
      GtKeepsGreatestOfAll(members, list, policy, ch);
    } else if ToLower(comparison) == "lt" {
      LtKeepsLeastOfAll(members, list, policy, ch);
    }
  }

  lemma GtKeepsGreatestOfAll(members: Scores, list: seq<MemberParam>, policy: string, ch: bool)
    requires !EqualFold(policy, "nx")
    ensures var u := UpdateAll(members, list, policy, Gt, ch).members;
            forall v :: v in members ==>
              && v in u && members[v] <= u[v] && (u[v] == members[v] || GivenScore(list, v, u[v]))
              && forall x :: GivenScore(list, v, x) ==> x <= u[v]
  {
    var u := UpdateAll(members, list, policy, Gt, ch).members;
    forall v | v in members
      ensures v in u && members[v] <= u[v] && (u[v] == members[v] || GivenScore(list, v, u[v]))
      ensures forall x :: GivenScore(list, v, x) ==> x <= u[v]
    {
      GtKeepsGreatest(members, list, policy, ch, v);
    }
  }

  lemma LtKeepsLeastOfAll(members: Scores, list: seq<MemberParam>, policy: string, ch: bool)
    requires !EqualFold(policy, "nx")
    ensures var u := UpdateAll(members, list, policy, Lt, ch).members;
            forall v :: v in members ==>
              && v in u && u[v] <= members[v] && (u[v] == members[v] || GivenScore(list, v, u[v]))
              && forall x :: GivenScore(list, v, x) ==> u[v] <= x
  {
    var u := UpdateAll(members, list, policy, Lt, ch).members;
    forall v | v in members
      ensures v in u && u[v] <= members[v] && (u[v] == members[v] || GivenScore(list, v, u[v]))
      ensures forall x :: GivenScore(list, v, x) ==> u[v] <= x
    {
      LtKeepsLeast(members, list, policy, ch, v);
    }
  }

  // ----- the set ---------------------------------------------------------------------------------------

  /** An option of any type: not given, a string, or a value that is no string. */
  datatype Choice = NotGiven | Text(text: string) | NoText {
    function Or(default: string): string {
      if Text? then text else default
    }
  }

  datatype PopError = BadPolicy | NegativeCount

  datatype PopResult = Popped(popped: SortedSet) | PopFailed(error: PopError)

  /** Popped earlier under the policy: the lower score for "min", the higher for "max". */
  predicate PopsFirst(policy: string, a: real, b: real) {
    if EqualFold(policy, "min") then a <= b else b <= a
  }

  lemma PopWords()
    ensures ToLower("min") == "min" && ToLower("MIN") == "min"
    ensures ToLower("max") == "max" && ToLower("MAX") == "max" && "max" != "min"
  {
    assert "max"[1] != "min"[1];
  }

  predicate ValidPolicy(policy: string) {
    ToLower(policy) == "min" || ToLower(policy) == "max"
  }

  ghost predicate DistinctValues(list: seq<MemberParam>) {
    forall i, j :: 0 <= i < j < |list| ==> list[i].value != list[j].value
  }

  ghost predicate ScoresMatch(members: Scores, list: seq<MemberParam>) {
    forall i :: 0 <= i < |list| ==> list[i].value in members && members[list[i].value] == list[i].score
  }

  /** The list names every member once, with its score, in any order. */
  ghost predicate ListsAll(members: Scores, list: seq<MemberParam>) {
    DistinctValues(list) && ScoresMatch(members, list) && |list| == |members|
    && forall v :: v in members ==> Given(list, v)
  }

  ghost predicate SortedBy(policy: string, list: seq<MemberParam>) {
    forall i, j :: 0 <= i < j < |list| ==> PopsFirst(policy, list[i].score, list[j].score)
  }

  /** The members of `all` split in two, `size` of them popped, and none that
      stays was to be popped before one that went. */
  ghost predicate Splits(all: Scores, out: Scores, rest: Scores, policy: string, size: int) {
    && out.Keys !! rest.Keys && out + rest == all && |out| == size
    && forall v, w :: v in out && w in rest ==> PopsFirst(policy, out[v], rest[w])
  }

  class SortedSet {
    // Every member object in the source carries its own key and a true Exists flag.
    var members: Scores

    constructor (list: seq<MemberParam>)
      ensures members == FromList(list)
      ensures forall v :: v in members <==> Given(list, v)
      ensures forall i :: 0 <= i < |list| && (forall j :: i < j < |list| ==> list[j].value != list[i].value) ==>
                list[i].value in members && members[list[i].value] == list[i].score
    {
      forall v ensures v in FromList(list) <==> Given(list, v) {
        FromListKeys(list, v);
      }
      forall i | 0 <= i < |list| && (forall j :: i < j < |list| ==> list[j].value != list[i].value)
        ensures list[i].value in FromList(list) && FromList(list)[list[i].value] == list[i].score
      {
        FromListLast(list, i);
      }
      var built: Scores := map[];
      for i := 0 to |list|
        invariant built == FromList(list[..i])
      {
        FromListAdd(list[..i], list[i]);
        assert list[..i + 1] == list[..i] + [list[i]];
        built := built[list[i].value := list[i].score];
      }
      assert list[..|list|] == list;
      members := built;
    }

    predicate Contains(value: string)
      reads this
    {
      value in members
    }

    method GetAll() returns (list: seq<MemberParam>)
      ensures ListsAll(members, list)
    {
      var order := RangeOrder(members.Keys);
      list := [];
      for i := 0 to |order|
        invariant |list| == i
        invariant forall j :: 0 <= j < i ==> list[j] == MemberParam(order[j], members[order[j]])
      {
        list := list + [MemberParam(order[i], members[order[i]])];
      }
      forall v | v in members ensures Given(list, v) {
        assert v in order;
        var i :| 0 <= i < |order| && order[i] == v;
        assert list[i].value == v;
      }
    }

    method Remove(value: string) returns (removed: bool)
      modifies this
      ensures removed == (value in old(members))
      ensures members == old(members) - {value}
    {
      removed := value in members;
      if removed {
        members := members - {value};
      }
    }

    /** Without INCR, and with options that have been validated. */
    method UpdateEach(list: seq<MemberParam>, policy: string, comp: Comparison, ch: bool) returns (count: nat)
      modifies this
      ensures Updated(members, count) == UpdateAll(old(members), list, policy, comp, ch)
    {
      count := 0;
      for i := 0 to |list|
        invariant Updated(members, count) == UpdateAll(old(members), list[..i], policy, comp, ch)
      {
        assert list[..i + 1][..i] == list[..i];
        var m := list[i];
        if EqualFold(policy, "xx") {
          if Contains(m.value) {
            members := members[m.value := CompareScores(members[m.value], m.score, comp)];
            if ch {
              count := count + 1;
            }
          }
          continue;
        }
        if EqualFold(policy, "nx") {
          if !Contains(m.value) {
            members := members[m.value := m.score];
            count := count + 1;
          }
          continue;
        }
        var was := if Contains(m.value) then members[m.value] else 0.0;
        if was != m.score || !Contains(m.value) {
          count := count + 1;
        }
        members := members[m.value := CompareScores(was, m.score, comp)];
      }
      assert list[..|list|] == list;
    }

/** The same, with what it means in the words of the options. */
    method UpdateInWords(list: seq<MemberParam>, policy: string, comparison: string, ch: bool) returns (count: nat)
      requires ToLower(policy) == "nx" ==> comparison == ""
      modifies this
      ensures Updated(members, count) == UpdateAll(old(members), list, policy, ComparisonOf(comparison), ch)
      ensures |list| == 1 ==>
                var m := list[0];
                var present := m.value in old(members);
                var was := if present then old(members)[m.value] else 0.0;
                var p, c := ToLower(policy), ToLower(comparison);
                && members == (
                     if (p == "nx" && present) || (p == "xx" && !present) then old(members)
                     else if p != "nx" && ((c == "gt" && m.score < was) || (c == "lt" && was < m.score)) then
                       old(members)[m.value := was]
                     else old(members)[m.value := m.score])
                && count == (
                     if p == "nx" then (if present then 0 else 1)
                     else if p == "xx" then (if present && ch then 1 else 0)
                     else if present && was == m.score then 0 else 1)
      ensures ToLower(comparison) == "gt" ==>
                forall v :: v in old(members) ==>
                  && v in members && old(members)[v] <= members[v]
                  && (members[v] == old(members)[v] || GivenScore(list, v, members[v]))
                  && forall x :: GivenScore(list, v, x) ==> x <= members[v]
      ensures ToLower(comparison) == "lt" ==>
                forall v :: v in old(members) ==>
                  && v in members && members[v] <= old(members)[v]
                  && (members[v] == old(members)[v] || GivenScore(list, v, members[v]))
                  && forall x :: GivenScore(list, v, x) ==> members[v] <= x
      ensures ToLower(policy) == "nx" ==>
                && (forall v :: v in old(members) ==> v in members && members[v] == old(members)[v])
                && (forall v :: v in members <==> v in old(members) || Given(list, v))
                && count == |members| - |old(members)|
      ensures ToLower(policy) == "xx" ==>
                && members.Keys == old(members).Keys
                && (forall v :: v in members && !Given(list, v) ==> members[v] == old(members)[v])
                && (!ch ==> count == 0)
    {
      PolicyWords();
      count := UpdateEach(list, policy, ComparisonOf(comparison), ch);
      if |list| == 1 {
        OneMember(old(members), list[0], policy, comparison, ch);
        assert list == [list[0]];
      }
      ComparisonInWords(old(members), list, policy, comparison, ch);
      if ToLower(policy) == "nx" {
        NxOnlyAdds(old(members), list, policy, ComparisonOf(comparison), ch);
      } else if ToLower(policy) == "xx" {
        XxOnlyUpdates(old(members), list, policy, ComparisonOf(comparison), ch);
      }
    }

    method Increment(m: MemberParam, ch: bool) returns (count: nat)
      modifies this
      ensures members == old(members)[m.value :=
                m.score + if m.value in old(members) then old(members)[m.value] else 0.0]
      ensures count == if m.value !in old(members) || ch then 1 else 0
    {
      if !Contains(m.value) {
        members := members[m.value := m.score];
        return 1;
      }
      members := members[m.value := members[m.value] + m.score];
      count := if ch then 1 else 0;
    }

    /** A rejected call changes nothing. */
    method AddOrUpdate(list: seq<MemberParam>, updatePolicy: Choice, comparison: Choice,
                       changed: Choice, incr: Choice)
      returns (r: Option<nat>)
      modifies this
      ensures r.Some? <==> Accepted(list, updatePolicy, comparison, changed, incr)
      ensures r.Some? <==>
                && (updatePolicy.NotGiven? || (updatePolicy.Text? && ToLower(updatePolicy.text) in ["nx", "xx"]))
                && (comparison.NotGiven? || (comparison.Text? && ToLower(comparison.text) in ["lt", "gt"]))
                && (changed.NotGiven? || (changed.Text? && ToLower(changed.text) == "ch"))
                && (incr.NotGiven? || (incr.Text? && ToLower(incr.text) == "incr" && |list| == 1))
                && (updatePolicy.Text? && ToLower(updatePolicy.text) == "nx" ==> comparison.Or("") == "")
      ensures r.None? ==> members == old(members)
      ensures r.Some? && !incr.Text? ==>
                Updated(members, r.value) ==
                UpdateAll(old(members), list, updatePolicy.Or(""), ComparisonOf(comparison.Or("")), changed.Text?)
      ensures r.Some? && !incr.Text? && |list| == 1 ==>
                var m := list[0];
                var present := m.value in old(members);
                var was := if present then old(members)[m.value] else 0.0;
                var p, c := ToLower(updatePolicy.Or("")), ToLower(comparison.Or(""));
                && members == (
                     if (p == "nx" && present) || (p == "xx" && !present) then old(members)
                     else if p != "nx" && ((c == "gt" && m.score < was) || (c == "lt" && was < m.score)) then
                       old(members)[m.value := was]
                     else old(members)[m.value := m.score])
                && r.value == (
                     if p == "nx" then (if present then 0 else 1)
                     else if p == "xx" then (if present && changed.Text? then 1 else 0)
                     else if present && was == m.score then 0 else 1)
      ensures r.Some? && !incr.Text? && ToLower(comparison.Or("")) == "gt" ==>
                forall v :: v in old(members) ==>
                  && v in members && old(members)[v] <= members[v]
                  && (members[v] == old(members)[v] || GivenScore(list, v, members[v]))
                  && forall x :: GivenScore(list, v, x) ==> x <= members[v]
      ensures r.Some? && !incr.Text? && ToLower(comparison.Or("")) == "lt" ==>
                forall v :: v in old(members) ==>
                  && v in members && members[v] <= old(members)[v]
                  && (members[v] == old(members)[v] || GivenScore(list, v, members[v]))
                  && forall x :: GivenScore(list, v, x) ==> members[v] <= x
      ensures r.Some? && !incr.Text? && ToLower(updatePolicy.Or("")) == "nx" ==>
                && (forall v :: v in old(members) ==> v in members && members[v] == old(members)[v])
                && (forall v :: v in members <==> v in old(members) || Given(list, v))
                && r.value == |members| - |old(members)|
      ensures r.Some? && !incr.Text? && ToLower(updatePolicy.Or("")) == "xx" ==>
                && members.Keys == old(members).Keys
                && (forall v :: v in members && !Given(list, v) ==> members[v] == old(members)[v])
                && (!changed.Text? ==> r.value == 0)
      ensures r.Some? && incr.Text? ==>
                && members == old(members)[list[0].value :=
                     list[0].score + if list[0].value in old(members) then old(members)[list[0].value] else 0.0]
                && r.value == if list[0].value !in old(members) || changed.Text? then 1 else 0
    {
      AcceptedMeans(list, updatePolicy, comparison, changed, incr);
      if !ValidOption(updatePolicy, ["nx", "xx"]) || !ValidOption(comparison, ["lt", "gt"])
         || !ValidOption(changed, ["ch"]) || !ValidOption(incr, ["incr"]) {
        return None;
      }
      var policy, comp := updatePolicy.Or(""), comparison.Or("");
      PolicyWords();
      if EqualFold(policy, "nx") && comp != "" {
        return None;
      }
      if incr.Text? && |list| != 1 {
        return None;
      }
      if incr.Text? {
        var count := Increment(list[0], changed.Text?);
        return Some(count);
      }
      var count := UpdateInWords(list, policy, comp, changed.Text?);
      return Some(count);
    }

    /** Pops the first `count` members of `sorted`, the listing that sorting has left. */
    method Pop(count: int, policy: string, sorted: seq<MemberParam>) returns (r: PopResult)
      requires ListsAll(members, sorted) && SortedBy(policy, sorted)
      modifies this
      ensures r == PopFailed(BadPolicy) <==> !ValidPolicy(policy)
      ensures r == PopFailed(NegativeCount) <==> ValidPolicy(policy) && count < 0
      ensures r.PopFailed? ==> members == old(members)
      ensures r.Popped? ==>
                && fresh(r.popped)
                && Splits(old(members), r.popped.members, members, policy, Least(count, |old(members)|))
      ensures r.Popped? <==> (ToLower(policy) == "min" || ToLower(policy) == "max") && 0 <= count
      ensures r.Popped? ==>
                && r.popped.members.Keys !! members.Keys && r.popped.members + members == old(members)
                && |r.popped.members| == if count <= |old(members)| then count else |old(members)|
      ensures r.Popped? && ToLower(policy) == "min" ==>
                forall v, w :: v in r.popped.members && w in members ==> r.popped.members[v] <= members[w]
      ensures r.Popped? && ToLower(policy) == "max" ==>
                forall v, w :: v in r.popped.members && w in members ==> members[w] <= r.popped.members[v]
    {
      PopWords();
      if !ValidPolicy(policy) {
        return PopFailed(BadPolicy);
      }
      if count < 0 {
        return PopFailed(NegativeCount);
      }
      var popped := new SortedSet([]);
      if count == 0 {
        SplitNothing(members, policy);
        return Popped(popped);
      }
      var k := MoveFirsts(popped, count, sorted);
      FirstsSplit(old(members), policy, sorted, k);
      r := Popped(popped);
    }

    /** The loop: one after the other, members of the listing move to `popped`. */
    method MoveFirsts(popped: SortedSet, count: nat, sorted: seq<MemberParam>) returns (k: nat)
      requires popped != this && popped.members == map[]
      modifies this, popped
      ensures k == Least(count, |sorted|)
      ensures popped.members == Firsts(sorted, k)
      ensures members == old(members) - Firsts(sorted, k).Keys
    {
      k := 0;
      assert old(members) - Firsts(sorted, 0).Keys == old(members);
      while k < count
        invariant k <= |sorted| && k <= count
        invariant popped.members == Firsts(sorted, k)
        invariant members == old(members) - Firsts(sorted, k).Keys
      {
        if |sorted| <= k {
          break;
        }
        FirstsNext(sorted, k);
        RemoveNext(old(members), Firsts(sorted, k), sorted[k]);
        var removed := Remove(sorted[k].value);
        UpdateOnNothing(popped.members, sorted[k]);
        var added := popped.AddOrUpdate([sorted[k]], NotGiven, NotGiven, NotGiven, NotGiven);
        k := k + 1;
      }
    }
  }

  lemma RemoveNext(all: Scores, gone: Scores, m: MemberParam)
    ensures all - gone[m.value := m.score].Keys == all - gone.Keys - {m.value}
  {
  }

  predicate ValidOption(given: Choice, allowed: seq<string>) {
    given.NotGiven? || (given.Text? && ToLower(given.text) in allowed)
  }

  predicate Accepted(list: seq<MemberParam>, updatePolicy: Choice, comparison: Choice,
                     changed: Choice, incr: Choice) {
    && ValidOption(updatePolicy, ["nx", "xx"]) && ValidOption(comparison, ["lt", "gt"])
    && ValidOption(changed, ["ch"]) && ValidOption(incr, ["incr"])
    && !(EqualFold(updatePolicy.Or(""), "nx") && comparison.Or("") != "")
    && (incr.Text? ==> |list| == 1)
  }

  lemma AcceptedMeans(list: seq<MemberParam>, updatePolicy: Choice, comparison: Choice,
                      changed: Choice, incr: Choice)
    ensures Accepted(list, updatePolicy, comparison, changed, incr) <==>
              && (updatePolicy.NotGiven? || (updatePolicy.Text? && ToLower(updatePolicy.text) in ["nx", "xx"]))
              && (comparison.NotGiven? || (comparison.Text? && ToLower(comparison.text) in ["lt", "gt"]))
              && (changed.NotGiven? || (changed.Text? && ToLower(changed.text) == "ch"))
              && (incr.NotGiven? || (incr.Text? && ToLower(incr.text) == "incr" && |list| == 1))
              && (updatePolicy.Text? && ToLower(updatePolicy.text) == "nx" ==> comparison.Or("") == "")
  {
    PolicyWords();
  }

  // ----- popping: the first members of a sorted listing --------------------------------------------------

  ghost function Firsts(sorted: seq<MemberParam>, k: nat): Scores
    requires k <= |sorted|
  {
    FromList(sorted[..k])
  }

  lemma FirstsNext(sorted: seq<MemberParam>, k: nat)
    requires k < |sorted|
    ensures Firsts(sorted, k + 1) == Firsts(sorted, k)[sorted[k].value := sorted[k].score]
  {
    FromListAdd(sorted[..k], sorted[k]);
    assert sorted[..k + 1] == sorted[..k] + [sorted[k]];
  }

  lemma UpdateOnNothing(members: Scores, m: MemberParam)
    ensures UpdateAll(members, [m], "", ComparisonOf(""), false).members == members[m.value := m.score]
    ensures Accepted([m], NotGiven, NotGiven, NotGiven, NotGiven)
  {
    assert [m][..0] == [];
    assert ToLower("") == "" && ToLower("xx") == "xx" && ToLower("nx") == "nx";
  }

  function Least(a: int, b: int): int {
    if a <= b then a else b
  }

  lemma SplitNothing(members: Scores, policy: string)
    ensures Splits(members, map[], members, policy, 0)
  {
    assert map[] + members == members;
  }

  lemma FirstsHold(sorted: seq<MemberParam>, k: nat, v: string)
    requires k <= |sorted|
    ensures v in Firsts(sorted, k) <==> exists i :: 0 <= i < k && sorted[i].value == v
  {
    FromListKeys(sorted[..k], v);
    assert forall i :: 0 <= i < k ==> sorted[..k][i] == sorted[i];
  }

  lemma {:induction false} FirstsSize(sorted: seq<MemberParam>, k: nat)
    requires DistinctValues(sorted) && k <= |sorted|
    ensures |Firsts(sorted, k)| == k
    decreases k
  {
    if 0 < k {
      FirstsSize(sorted, k - 1);
      FirstsNext(sorted, k - 1);
      FirstsHold(sorted, k - 1, sorted[k - 1].value);
      assert Firsts(sorted, k).Keys == Firsts(sorted, k - 1).Keys + {sorted[k - 1].value};
    }
  }

  lemma {:induction false} FirstsScores(members: Scores, sorted: seq<MemberParam>, k: nat)
    requires ScoresMatch(members, sorted) && k <= |sorted|
    ensures forall v :: v in Firsts(sorted, k) ==> v in members && Firsts(sorted, k)[v] == members[v]
    decreases k
  {
    if 0 < k {
      FirstsScores(members, sorted, k - 1);
      FirstsNext(sorted, k - 1);
    }
  }

  lemma FirstsOrdered(members: Scores, policy: string, sorted: seq<MemberParam>, k: nat, v: string, w: string)
    requires ListsAll(members, sorted) && SortedBy(policy, sorted) && k <= |sorted|
    requires v in Firsts(sorted, k) && w in members && w !in Firsts(sorted, k)
    ensures v in members && PopsFirst(policy, members[v], members[w])
  {
    FirstsHold(sorted, k, v);
    FirstsHold(sorted, k, w);
    var i :| 0 <= i < k && sorted[i].value == v;
    assert Given(sorted, w);
    var j :| 0 <= j < |sorted| && sorted[j].value == w;
    assert PopsFirst(policy, sorted[i].score, sorted[j].score);
  }

  lemma SubmapSplits(all: Scores, part: Scores)
    requires forall v :: v in part ==> v in all && part[v] == all[v]
    ensures part + (all - part.Keys) == all
  {
  }

  lemma FirstsSplit(members: Scores, policy: string, sorted: seq<MemberParam>, k: nat)
    requires ListsAll(members, sorted) && SortedBy(policy, sorted) && k <= |sorted|
    ensures Splits(members, Firsts(sorted, k), members - Firsts(sorted, k).Keys, policy, k)
  {
    FirstsSize(sorted, k);
    FirstsScores(members, sorted, k);
    var out, rest := Firsts(sorted, k), members - Firsts(sorted, k).Keys;
    SubmapSplits(members, out);
    forall v, w | v in out && w in rest ensures PopsFirst(policy, out[v], rest[w]) {
      FirstsOrdered(members, policy, sorted, k, v, w);
    }
  }

  // ----- union and intersection ---------------------------------------------------------------------------------

  datatype SortedSetParam = SortedSetParam(set_: SortedSet, weight: int)

  ghost function Views(params: seq<SortedSetParam>): (r: seq<Weighted>)
    reads set p | p in params :: p.set_
    ensures |r| == |params|
  {
    seq(|params|, i requires 0 <= i < |params| reads set p | p in params :: p.set_ =>
      Weighted(params[i].set_.members, params[i].weight))
  }

  lemma ViewsSplit(params: seq<SortedSetParam>, k: nat)
    requires k <= |params|
    ensures Views(params) == Views(params[..k]) + Views(params[k..])
    ensures |Views(params)| == |params| && |Views(params[..k])| == k && |Views(params[k..])| == |params| - k
  {
  }

  function View(p: SortedSetParam): Weighted
    reads p.set_
  {
    Weighted(p.set_.members, p.weight)
  }

  ghost predicate Part(part: Scores, whole: Scores) {
    forall v :: v in part ==> v in whole && part[v] == whole[v]
  }

  /** A list that holds scores of `whole`, for the members of `done` so far. */
  ghost predicate Collected(list: seq<MemberParam>, done: set<string>, whole: Scores) {
    FromList(list).Keys == done && Part(FromList(list), whole)
  }

  lemma CollectOne(list: seq<MemberParam>, done: set<string>, whole: Scores, m: MemberParam)
    requires Collected(list, done, whole) && m.value in whole && whole[m.value] == m.score
    ensures Collected(list + [m], done + {m.value}, whole)
  {
    FromListAdd(list, m);
  }

  lemma CollectedAll(list: seq<MemberParam>, whole: Scores)
    requires Collected(list, whole.Keys, whole)
    ensures FromList(list) == whole
  {
  }

  ghost function Values(list: seq<MemberParam>, k: nat): set<string>
    requires k <= |list|
  {
    set i | 0 <= i < k :: list[i].value
  }

  lemma AllValues(members: Scores, list: seq<MemberParam>)
    requires ListsAll(members, list)
    ensures Values(list, |list|) == members.Keys
  {
    forall v | v in members ensures v in Values(list, |list|) {
      assert Given(list, v);
    }
  }

  lemma NextValue(list: seq<MemberParam>, k: nat)
    requires k < |list|
    ensures Values(list, k + 1) == Values(list, k) + {list[k].value}
  {
  }

  /** The score of a member of either set in their union. */
  function MergedScore(aggregate: string, left: Weighted, right: Weighted, v: string): real
    requires v in left.members || v in right.members
  {
    if v !in right.members then WeightedScore(left, v)
    else if v !in left.members then WeightedScore(right, v)
    else Combine(aggregate, WeightedScore(left, v), WeightedScore(right, v))
  }

  /** The scores of `whole` are those of the union. */
  ghost predicate HasScores(aggregate: string, left: Weighted, right: Weighted, whole: Scores) {
    forall v {:trigger MergedScore(aggregate, left, right, v)} ::
      v in whole && (v in left.members || v in right.members) ==> whole[v] == MergedScore(aggregate, left, right, v)
  }

  lemma MergeIs(aggregate: string, left: Weighted, right: Weighted)
    ensures var whole := Merge(aggregate, Scaled(left), Scaled(right));
            whole.Keys == left.members.Keys + right.members.Keys && HasScores(aggregate, left, right, whole)
  {
  }

  lemma MeetIs(aggregate: string, left: Weighted, right: Weighted)
    ensures var whole := Meet(aggregate, Scaled(left), Scaled(right));
            whole.Keys == left.members.Keys * right.members.Keys && HasScores(aggregate, left, right, whole)
  {
  }

  /** What slices.ContainsFunc finds: whether the list has the value. */
  method HasValue(list: seq<MemberParam>, value: string) returns (found: bool)
    ensures found == (value in FromList(list))
  {
    FromListKeys(list, value);
    for i := 0 to |list|
      invariant forall j :: 0 <= j < i ==> list[j].value != value
    {
      if list[i].value == value {
        return true;
      }
    }
    return false;
  }

  /** A left member's score, with the right score put to it where there is one. */
  method LeftScore(aggregate: string, left: Weighted, right: Weighted, m: MemberParam, ghost whole: Scores)
    returns (score: real)
    requires HasScores(aggregate, left, right, whole) && m.value in whole
    requires m.value in left.members && m.score == left.members[m.value]
    ensures score == whole[m.value]
  {
    ghost var _ := MergedScore(aggregate, left, right, m.value);
    score := m.score * left.weight as real;
    if m.value in right.members {
      score := Combine(aggregate, score, right.members[m.value] * right.weight as real);
    }
  }

  method RightScore(aggregate: string, left: Weighted, right: Weighted, m: MemberParam, ghost whole: Scores)
    returns (score: real)
    requires HasScores(aggregate, left, right, whole) && m.value in whole && m.value !in left.members
    requires m.value in right.members && m.score == right.members[m.value]
    ensures score == whole[m.value]
  {
    ghost var _ := MergedScore(aggregate, left, right, m.value);
    score := m.score * right.weight as real;
  }

  method CollectLeft(aggregate: string, left: Weighted, right: Weighted, all: seq<MemberParam>, ghost whole: Scores)
    returns (list: seq<MemberParam>)
    requires ListsAll(left.members, all) && HasScores(aggregate, left, right, whole)
    requires left.members.Keys <= whole.Keys
    ensures Collected(list, left.members.Keys, whole)
  {
    list := [];
    for i := 0 to |all|
      invariant Collected(list, Values(all, i), whole)
    {
      NextValue(all, i);
      var score := LeftScore(aggregate, left, right, all[i], whole);
      CollectOne(list, Values(all, i), whole, MemberParam(all[i].value, score));
      list := list + [MemberParam(all[i].value, score)];
    }
    AllValues(left.members, all);
  }

  /** A right member that is not in the list yet is added to it. */
  method AddRight(aggregate: string, left: Weighted, right: Weighted, m: MemberParam,
                  start: seq<MemberParam>, ghost done: set<string>, ghost whole: Scores)
    returns (list: seq<MemberParam>)
    requires HasScores(aggregate, left, right, whole) && m.value in whole
    requires m.value in right.members && m.score == right.members[m.value]
    requires Collected(start, done, whole) && left.members.Keys <= done
    ensures Collected(list, done + {m.value}, whole)
  {
    var found := HasValue(start, m.value);
    if found {
      assert done + {m.value} == done;
      return start;
    }
    var score := RightScore(aggregate, left, right, m, whole);
    CollectOne(start, done, whole, MemberParam(m.value, score));
    list := start + [MemberParam(m.value, score)];
  }

  method CollectRight(aggregate: string, left: Weighted, right: Weighted, all: seq<MemberParam>,
                      start: seq<MemberParam>, ghost whole: Scores)
    returns (list: seq<MemberParam>)
    requires ListsAll(right.members, all) && HasScores(aggregate, left, right, whole)
    requires right.members.Keys <= whole.Keys && Collected(start, left.members.Keys, whole)
    ensures Collected(list, left.members.Keys + right.members.Keys, whole)
  {
    list := start;
    ghost var mine := left.members.Keys;
    assert mine + Values(all, 0) == mine;
    for i := 0 to |all|
      invariant Collected(list, mine + Values(all, i), whole)
    {
      NextUnion(mine, all, i);
      list := AddRight(aggregate, left, right, all[i], list, mine + Values(all, i), whole);
    }
    AllValues(right.members, all);
  }

  lemma NextUnion(base: set<string>, list: seq<MemberParam>, k: nat)
    requires k < |list|
    ensures base + Values(list, k + 1) == base + Values(list, k) + {list[k].value}
  {
  }

  /** The left members that are also right members, with the scores put together. */
  method CollectCommon(aggregate: string, left: Weighted, right: Weighted, all: seq<MemberParam>, ghost whole: Scores)
    returns (list: seq<MemberParam>)
    requires ListsAll(left.members, all) && HasScores(aggregate, left, right, whole)
    requires whole.Keys == left.members.Keys * right.members.Keys
    ensures FromList(list) == whole
  {
    list := [];
    ghost var done := {};
    for i := 0 to |all|
      invariant Collected(list, done, whole)
      invariant done == Values(all, i) * right.members.Keys
    {
      NextValue(all, i);
      if all[i].value in right.members {
        var score := LeftScore(aggregate, left, right, all[i], whole);
        CollectOne(list, done, whole, MemberParam(all[i].value, score));
        list := list + [MemberParam(all[i].value, score)];
        done := done + {all[i].value};
      }
    }
    AllValues(left.members, all);
    CollectedAll(list, whole);
  }

  /** Both sets scaled by their weights and put together; the source spells the
      combination out once with weights and once, for its sub-results, without. */
  method UnionOfTwo(aggregate: string, left: SortedSetParam, right: SortedSetParam) returns (r: SortedSet)
    ensures fresh(r) && r.members == Merge(aggregate, Scaled(View(left)), Scaled(View(right)))
  {
    ghost var whole := Merge(aggregate, Scaled(View(left)), Scaled(View(right)));
    MergeIs(aggregate, View(left), View(right));
    var all := left.set_.GetAll();
    var list := CollectLeft(aggregate, View(left), View(right), all, whole);
    all := right.set_.GetAll();
    list := CollectRight(aggregate, View(left), View(right), all, list, whole);
    CollectedAll(list, whole);
    r := new SortedSet(list);
  }

  method IntersectionOfTwo(aggregate: string, left: SortedSetParam, right: SortedSetParam) returns (r: SortedSet)
    ensures fresh(r) && r.members == Meet(aggregate, Scaled(View(left)), Scaled(View(right)))
  {
    MeetIs(aggregate, View(left), View(right));
    var all := left.set_.GetAll();
    var list := CollectCommon(aggregate, View(left), View(right), all,
                              Meet(aggregate, Scaled(View(left)), Scaled(View(right))));
    r := new SortedSet(list);
  }

  method Weigh(p: SortedSetParam) returns (r: SortedSet)
    ensures fresh(r) && r.members == Scaled(View(p))
  {
    var members := p.set_.GetAll();
    var list: seq<MemberParam> := [];
    for i := 0 to |members|
      invariant Collected(list, Values(members, i), Scaled(View(p)))
    {
      NextValue(members, i);
      var m := MemberParam(members[i].value, members[i].score * p.weight as real);
      CollectOne(list, Values(members, i), Scaled(View(p)), m);
      list := list + [m];
    }
    AllValues(p.set_.members, members);
    CollectedAll(list, Scaled(View(p)));
    r := new SortedSet(list);
  }

  lemma ScaledByOne(members: Scores)
    ensures Scaled(Weighted(members, 1)) == members
  {
  }

  /** The sum of a member's scores times the weights, over the sets that hold it. */
  ghost function SumOfWeighted(params: seq<SortedSetParam>, member: string): real
    reads set p | p in params :: p.set_
  {
    if params == [] then 0.0
    else
      var p := params[0];
      (if member in p.set_.members then p.set_.members[member] * p.weight as real else 0.0)
      + SumOfWeighted(params[1..], member)
  }

  lemma {:induction false} SumOfViews(params: seq<SortedSetParam>, member: string)
    ensures SumOfWeighted(params, member) == WeightedSum(Views(params), member)
  {
    if params != [] {
      SumOfViews(params[1..], member);
      assert Views(params)[1..] == Views(params[1..]);
    }
  }

  lemma {:induction false} ScoreIsSum(params: seq<SortedSetParam>, m: string)
    requires ScoresOf(Views(params), m) != []
    ensures Fold("sum", ScoresOf(Views(params), m)) == SumOfWeighted(params, m)
  {
    FoldMeaning("sum", ScoresOf(Views(params), m));
    TotalIsWeightedSum(Views(params), m);
    SumOfViews(params, m);
  }

  lemma {:induction false} ScoreIsOneOf(aggregate: string, params: seq<SortedSetParam>, m: string) returns (i: nat)
    requires ScoresOf(Views(params), m) != [] && aggregate != "sum"
    ensures i < |params| && m in params[i].set_.members
    ensures Fold(aggregate, ScoresOf(Views(params), m)) == params[i].set_.members[m] * params[i].weight as real
  {
    FoldMeaning(aggregate, ScoresOf(Views(params), m));
    i := HolderOfScore(Views(params), m, Fold(aggregate, ScoresOf(Views(params), m)));
    assert Views(params)[i] == View(params[i]);
  }

  lemma {:induction false} ScoreIsBound(aggregate: string, params: seq<SortedSetParam>, m: string, i: nat)
    requires i < |params| && m in params[i].set_.members && aggregate != "sum"
    ensures ScoresOf(Views(params), m) != []
    ensures var score := Fold(aggregate, ScoresOf(Views(params), m));
            if aggregate == "min" then score <= params[i].set_.members[m] * params[i].weight as real
            else params[i].set_.members[m] * params[i].weight as real <= score
  {
    var x := WeightedScore(View(params[i]), m);
    assert x in ScoresOf(Views(params), m) by {
      assert Views(params)[i] == View(params[i]);
      ScoreOfHolder(Views(params), m, i);
    }
    FoldBounds(aggregate, ScoresOf(Views(params), m), x);
  }

  lemma {:induction false} ViewsHold(params: seq<SortedSetParam>, m: string)
    ensures ScoresOf(Views(params), m) != [] <==> exists i :: 0 <= i < |params| && m in params[i].set_.members
    ensures |ScoresOf(Views(params), m)| == |params| <==>
            forall i :: 0 <= i < |params| ==> m in params[i].set_.members
  {
    ScoresOfHolders(Views(params), m);
    assert forall i :: 0 <= i < |params| ==> Views(params)[i].members == params[i].set_.members;
  }

  /** Union of any number of weighted sets: a fresh set, equal to the flat
      definition at every depth of the recursion; the inputs are left alone. */
  method UnionByHalves(aggregate: string, params: seq<SortedSetParam>) returns (r: SortedSet)
    ensures fresh(r) && r.members == FlatUnion(aggregate, Views(params))
    decreases |params|
  {
    var n := |params|;
    if n == 0 {
      r := new SortedSet([]);
    } else if n == 1 {
      OneSet(aggregate, View(params[0]));
      assert Views(params) == [View(params[0])];
      r := Weigh(params[0]);
    } else if n == 2 {
      TwoViews(aggregate, params);
      r := UnionOfTwo(aggregate, params[0], params[1]);
    } else {
      ViewsSplit(params, n / 2);
      UnionSplits(aggregate, Views(params[..n / 2]), Views(params[n / 2..]));
      var left := UnionByHalves(aggregate, params[..n / 2]);
      var right := UnionByHalves(aggregate, params[n / 2..]);
      ScaledByOne(left.members);
      ScaledByOne(right.members);
      r := UnionOfTwo(aggregate, SortedSetParam(left, 1), SortedSetParam(right, 1));
    }
  }

  /** The same for intersections. */
  method IntersectByHalves(aggregate: string, params: seq<SortedSetParam>) returns (r: SortedSet)
    ensures fresh(r) && r.members == FlatIntersection(aggregate, Views(params))
    decreases |params|
  {
    var n := |params|;
    if n == 0 {
      r := new SortedSet([]);
    } else if n == 1 {
      OneSet(aggregate, View(params[0]));
      assert Views(params) == [View(params[0])];
      r := Weigh(params[0]);
    } else if n == 2 {
      TwoViews(aggregate, params);
      r := IntersectionOfTwo(aggregate, params[0], params[1]);
    } else {
      ViewsSplit(params, n / 2);
      IntersectionSplits(aggregate, Views(params[..n / 2]), Views(params[n / 2..]));
      var left := IntersectByHalves(aggregate, params[..n / 2]);
      var right := IntersectByHalves(aggregate, params[n / 2..]);
      ScaledByOne(left.members);
      ScaledByOne(right.members);
      r := IntersectionOfTwo(aggregate, SortedSetParam(left, 1), SortedSetParam(right, 1));
    }
  }

  lemma TwoViews(aggregate: string, params: seq<SortedSetParam>)
    requires |params| == 2
    ensures FlatUnion(aggregate, Views(params)) == Merge(aggregate, Scaled(View(params[0])), Scaled(View(params[1])))
    ensures FlatIntersection(aggregate, Views(params)) ==
            Meet(aggregate, Scaled(View(params[0])), Scaled(View(params[1])))
  {
    assert Views(params) == [View(params[0]), View(params[1])];
    TwoSets(aggregate, View(params[0]), View(params[1]));
  }

  /** The scores of a union or an intersection. */
  ghost predicate Folds(aggregate: string, views: seq<Weighted>, members: Scores) {
    forall m :: m in members ==> ScoresOf(views, m) != [] && members[m] == Fold(aggregate, ScoresOf(views, m))
  }

  lemma {:induction false} OnesWeighted(aggregate: string, params: seq<SortedSetParam>, views: seq<Weighted>,
                                        members: Scores)
    requires views == Views(params) && Folds(aggregate, views, members) && aggregate != "sum"
    ensures forall m :: m in members ==>
              exists i :: 0 <= i < |params| && m in params[i].set_.members
                          && members[m] == params[i].set_.members[m] * params[i].weight as real
  {
    forall m | m in members
      ensures exists i :: 0 <= i < |params| && m in params[i].set_.members
                          && members[m] == params[i].set_.members[m] * params[i].weight as real
    {
      var i := ScoreIsOneOf(aggregate, params, m);
    }
  }

  lemma {:induction false} Weighs(aggregate: string, params: seq<SortedSetParam>, views: seq<Weighted>,
                                  members: Scores)
    requires views == Views(params) && Folds(aggregate, views, members)
    ensures aggregate == "sum" ==> forall m :: m in members ==> members[m] == SumOfWeighted(params, m)
    ensures aggregate != "sum" ==> forall m :: m in members ==>
              exists i :: 0 <= i < |params| && m in params[i].set_.members
                          && members[m] == params[i].set_.members[m] * params[i].weight as real
    ensures aggregate == "min" ==> forall m, i ::
              m in members && 0 <= i < |params| && m in params[i].set_.members ==>
              members[m] <= params[i].set_.members[m] * params[i].weight as real
    ensures aggregate != "sum" && aggregate != "min" ==> forall m, i ::
              m in members && 0 <= i < |params| && m in params[i].set_.members ==>
              params[i].set_.members[m] * params[i].weight as real <= members[m]
  {
    if aggregate == "sum" {
      forall m | m in members ensures members[m] == SumOfWeighted(params, m) {
        ScoreIsSum(params, m);
      }
    } else {
      OnesWeighted(aggregate, params, views, members);
      forall m, i | m in members && 0 <= i < |params| && m in params[i].set_.members
        ensures if aggregate == "min" then members[m] <= params[i].set_.members[m] * params[i].weight as real
                else params[i].set_.members[m] * params[i].weight as real <= members[m]
      {
        ScoreIsBound(aggregate, params, m, i);
      }
    }
  }

  lemma {:induction false} UnionKeys(params: seq<SortedSetParam>)
    ensures forall m :: m in AllMembers(Views(params)) <==>
                        exists i :: 0 <= i < |params| && m in params[i].set_.members
  {
    forall m
      ensures m in AllMembers(Views(params)) <==> exists i :: 0 <= i < |params| && m in params[i].set_.members
    {
      ViewsHold(params, m);
    }
  }

  lemma {:induction false} CommonKeys(params: seq<SortedSetParam>)
    ensures forall m :: m in CommonMembers(Views(params)) <==>
                        params != [] && forall i :: 0 <= i < |params| ==> m in params[i].set_.members
  {
    forall m
      ensures m in CommonMembers(Views(params)) <==>
              params != [] && forall i :: 0 <= i < |params| ==> m in params[i].set_.members
    {
      ViewsHold(params, m);
    }
  }

  /** Union as the commands ask for it.  Any aggregate but "sum" and "min" is taken as "max". */
  method Union(aggregate: string, params: seq<SortedSetParam>) returns (r: SortedSet)
    ensures fresh(r) && r.members == FlatUnion(aggregate, Views(params))
    ensures forall m :: m in r.members <==> exists i :: 0 <= i < |params| && m in params[i].set_.members
    ensures aggregate == "sum" ==> forall m :: m in r.members ==> r.members[m] == SumOfWeighted(params, m)
    ensures aggregate != "sum" ==> forall m :: m in r.members ==>
              exists i :: 0 <= i < |params| && m in params[i].set_.members
                          && r.members[m] == params[i].set_.members[m] * params[i].weight as real
    ensures aggregate == "min" ==> forall m, i ::
              m in r.members && 0 <= i < |params| && m in params[i].set_.members ==>
              r.members[m] <= params[i].set_.members[m] * params[i].weight as real
    ensures aggregate != "sum" && aggregate != "min" ==> forall m, i ::
              m in r.members && 0 <= i < |params| && m in params[i].set_.members ==>
              params[i].set_.members[m] * params[i].weight as real <= r.members[m]
  {
    r := UnionByHalves(aggregate, params);
    UnionKeys(params);
    Weighs(aggregate, params, Views(params), r.members);
  }

  /** Intersection as the commands ask for it. */
  method Intersect(aggregate: string, params: seq<SortedSetParam>) returns (r: SortedSet)
    ensures fresh(r) && r.members == FlatIntersection(aggregate, Views(params))
    ensures forall m :: m in r.members <==>
                        params != [] && forall i :: 0 <= i < |params| ==> m in params[i].set_.members
    ensures aggregate == "sum" ==> forall m :: m in r.members ==> r.members[m] == SumOfWeighted(params, m)
    ensures aggregate != "sum" ==> forall m :: m in r.members ==>
              exists i :: 0 <= i < |params| && m in params[i].set_.members
                          && r.members[m] == params[i].set_.members[m] * params[i].weight as real
    ensures aggregate == "min" ==> forall m, i ::
              m in r.members && 0 <= i < |params| && m in params[i].set_.members ==>
              r.members[m] <= params[i].set_.members[m] * params[i].weight as real
    ensures aggregate != "sum" && aggregate != "min" ==> forall m, i ::
              m in r.members && 0 <= i < |params| && m in params[i].set_.members ==>
              params[i].set_.members[m] * params[i].weight as real <= r.members[m]
  {
    r := IntersectByHalves(aggregate, params);
    CommonKeys(params);
    Weighs(aggregate, params, Views(params), r.members);
  }
}
