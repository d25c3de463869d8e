/** The arguments of the sorted-set union and intersection commands: building
    their tokens and taking them apart again. */
module ZArguments {
  import opened Common
  import opened Decimal

  datatype Arguments =
    | Arguments(keys: seq<string>, weights: seq<int>, aggregate: string, withScores: bool)
    | Rejected
    | Panics  // a slice index out of range

  predicate IsWord(s: string, word: string) {
    ToLower(s) == word
  }

  predicate IsKeyword(s: string) {
    IsWord(s, "weights") || IsWord(s, "aggregate") || IsWord(s, "withscores")
  }

  predicate ValidAggregate(s: string) {
    IsWord(s, "sum") || IsWord(s, "min") || IsWord(s, "max")
  }

  // ----- taking apart, as a function ------------------------------------------------------------

  function IndexOfWord(cmd: seq<string>, word: string): (r: Option<nat>)
    ensures r.Some? ==> r.value < |cmd| && IsWord(cmd[r.value], word)
    ensures forall i :: 0 <= i < (if r.Some? then r.value else |cmd|) ==> !IsWord(cmd[i], word)
  {
    if cmd == [] then None
    else if IsWord(cmd[0], word) then Some(0)
    else
      match IndexOfWord(cmd[1..], word)
      case None => None
      case Some(i) => Some(i + 1)
  }

  /** The numbers up to the next AGGREGATE or WITHSCORES, `None` if one is not a number. */
  function WeightsIn(tokens: seq<string>): Option<seq<int>> {
    if tokens == [] || IsWord(tokens[0], "aggregate") || IsWord(tokens[0], "withscores") then Some([])
    else
      match Atoi(tokens[0])
      case None => None
      case Some(w) =>
        match WeightsIn(tokens[1..])
        case None => None
        case Some(rest) => Some([w] + rest)
  }

  function Earlier(a: Option<nat>, b: Option<nat>): Option<nat> {
    if a.None? then b else if b.None? || a.value <= b.value then a else b
  }

  function FirstModifier(cmd: seq<string>): Option<nat> {
    Earlier(Earlier(IndexOfWord(cmd, "weights"), IndexOfWord(cmd, "aggregate")), IndexOfWord(cmd, "withscores"))
  }

  function Ones(n: nat): seq<int> {
    seq(n, _ => 1)
  }

  function WeightsOf(cmd: seq<string>): Option<seq<int>> {
    match IndexOfWord(cmd, "weights")
    case None => Some([])
    case Some(i) => WeightsIn(cmd[i + 1..])
  }

  /** `None` when the command word itself is a modifier: the slice would be out of range. */
  function KeysOf(cmd: seq<string>): Option<seq<string>> {
    var end := if FirstModifier(cmd).Some? then FirstModifier(cmd).value else |cmd|;
    if end < 1 then None else Some(cmd[1..end])
  }

  /** The checks in the order in which the source makes them. */
  function Extract(cmd: seq<string>): Arguments {
    var weights := WeightsOf(cmd);
    var aggregateAt := IndexOfWord(cmd, "aggregate");
    if weights.None? then Rejected
    else if aggregateAt.Some? && aggregateAt.value + 1 == |cmd| then Panics
    else if aggregateAt.Some? && !ValidAggregate(cmd[aggregateAt.value + 1]) then Rejected
    else
      var keys := KeysOf(cmd);
      var weighted := IndexOfWord(cmd, "weights").Some?;
      if keys.None? then Panics
      else if weighted && |keys.value| != |weights.value| then Rejected
      else Arguments(keys.value,
                     if weighted then weights.value else Ones(|keys.value|),
                     if aggregateAt.Some? then ToLower(cmd[aggregateAt.value + 1]) else "sum",
                     IndexOfWord(cmd, "withscores").Some?)
  }

  // ----- taking apart, as the source's loops do --------------------------------------------------

  lemma IndexIs(cmd: seq<string>, word: string, i: nat)
    requires i < |cmd| && IsWord(cmd[i], word) && forall j :: 0 <= j < i ==> !IsWord(cmd[j], word)
    ensures IndexOfWord(cmd, word) == Some(i)
  {
    var r := IndexOfWord(cmd, word);
    assert r.Some? ==> r.value == i;
  }

  method FindWord(cmd: seq<string>, word: string) returns (index: Option<nat>)
    ensures index == IndexOfWord(cmd, word)
  {
    for i := 0 to |cmd|
      invariant forall j :: 0 <= j < i ==> !IsWord(cmd[j], word)
    {
      if IsWord(cmd[i], word) {
        IndexIs(cmd, word, i);
        return Some(i);
      }
    }
    return None;
  }

  method ReadWeights(tokens: seq<string>) returns (weights: Option<seq<int>>)
    ensures weights == WeightsIn(tokens)
  {
    var read: seq<int> := [];
    assert tokens[0..] == tokens;
    assert WeightsIn(tokens).Some? ==> read + WeightsIn(tokens).value == WeightsIn(tokens).value;
    for i := 0 to |tokens|
      invariant WeightsIn(tokens) ==
                match WeightsIn(tokens[i..])
                case None => None
                case Some(rest) => Some(read + rest)
    {
      assert tokens[i..][0] == tokens[i] && tokens[i..][1..] == tokens[i + 1..];
      if IsWord(tokens[i], "aggregate") || IsWord(tokens[i], "withscores") {
        assert read + [] == read;
        return Some(read);
      }
      var w := Atoi(tokens[i]);
      if w.None? {
        return None;
      }
      if WeightsIn(tokens[i + 1..]).Some? {
        ConcatAssoc(read, [w.value], WeightsIn(tokens[i + 1..]).value);
      }
      read := read + [w.value];
    }
    assert tokens[|tokens|..] == [] && read + [] == read;
    weights := Some(read);
  }

  method FindFirstModifier(indices: seq<Option<nat>>) returns (first: Option<nat>)
    requires |indices| == 3
    ensures first == Earlier(Earlier(indices[0], indices[1]), indices[2])
  {
    first := None;
    for i := 0 to 3
      invariant i == 1 ==> first == indices[0]
      invariant i == 2 ==> first == Earlier(indices[0], indices[1])
      invariant i == 3 ==> first == Earlier(Earlier(indices[0], indices[1]), indices[2])
      invariant i == 0 ==> first == None
    {
      if indices[i].None? {
        continue;
      }
      if first.None? || indices[i].value < first.value {
        first := indices[i];
      }
    }
  }

  method ExtractArguments(cmd: seq<string>) returns (r: Arguments)
    ensures r == Extract(cmd)
  {
    var weightsAt := FindWord(cmd, "weights");
    var weights: Option<seq<int>> := Some([]);
    if weightsAt.Some? {
      weights := ReadWeights(cmd[weightsAt.value + 1..]);
      if weights.None? {
        return Rejected;
      }
    }
    var aggregate := "sum";
    var aggregateAt := FindWord(cmd, "aggregate");
    if aggregateAt.Some? {
      if aggregateAt.value + 1 == |cmd| {
        return Panics;
      }
      if !ValidAggregate(cmd[aggregateAt.value + 1]) {
        return Rejected;
      }
      aggregate := ToLower(cmd[aggregateAt.value + 1]);
    }
    var withScoresAt := FindWord(cmd, "withscores");
    var keys := KeysBefore(cmd, weightsAt, aggregateAt, withScoresAt);
    if keys.None? {
      return Panics;
    }
    if weightsAt.Some? && |keys.value| != |weights.value| {
      return Rejected;
    }
    r := Arguments(keys.value, if weightsAt.Some? then weights.value else Ones(|keys.value|), aggregate,
                   withScoresAt.Some?);
  }

  /** The tokens between the command and the first modifier. */
  method KeysBefore(cmd: seq<string>, weightsAt: Option<nat>, aggregateAt: Option<nat>, withScoresAt: Option<nat>)
    returns (keys: Option<seq<string>>)
    requires weightsAt == IndexOfWord(cmd, "weights") && aggregateAt == IndexOfWord(cmd, "aggregate")
    requires withScoresAt == IndexOfWord(cmd, "withscores")
    ensures keys == KeysOf(cmd)
  {
    var first := FindFirstModifier([weightsAt, aggregateAt, withScoresAt]);
    var end := if first.Some? then first.value else |cmd|;
    return if end < 1 then None else Some(cmd[1..end]);
  }

  // ----- building, with the options in any order -----------------------------------------------------

  /** An option as it is written: its word in any case, and what follows it.  The weights
      are printed numbers. */
  datatype Modifier =
    | Weights(word: string, numbers: seq<string>)
    | Aggregate(word: string, name: string)
    | WithScores(word: string)

  function Name(m: Modifier): (name: string)
    ensures name == "weights" <==> m.Weights?
    ensures name == "aggregate" <==> m.Aggregate?
    ensures name == "withscores" <==> m.WithScores?
  {
    match m
    case Weights(_, _) => "weights"
    case Aggregate(_, _) => "aggregate"
    case WithScores(_) => "withscores"
  }

  function Operands(m: Modifier): seq<string> {
    match m
    case Weights(_, numbers) => numbers
    case Aggregate(_, name) => [name]
    case WithScores(_) => []
  }

  function Tokens(m: Modifier): (r: seq<string>)
    ensures |r| == 1 + |Operands(m)| && r[0] == m.word && r[1..] == Operands(m)
  {
    [m.word] + Operands(m)
  }

  function Written(ms: seq<Modifier>): seq<string> {
    if ms == [] then [] else Tokens(ms[0]) + Written(ms[1..])
  }

  function Build(command: string, keys: seq<string>, ms: seq<Modifier>): seq<string> {
    [command] + keys + Written(ms)
  }

  predicate Plain(tokens: seq<string>) {
    forall i :: 0 <= i < |tokens| ==> !IsKeyword(tokens[i])
  }

  /** Each of these options once, in some order, and its word in any case. */
  ghost predicate Gives(ms: seq<Modifier>, weights: Option<seq<string>>, aggregate: Option<string>, withScores: bool) {
    && (forall i, j :: 0 <= i < j < |ms| ==> Name(ms[i]) != Name(ms[j]))
    && (forall i :: 0 <= i < |ms| ==> IsWord(ms[i].word, Name(ms[i])))
    && (forall i :: 0 <= i < |ms| && ms[i].Weights? ==> weights == Some(ms[i].numbers))
    && (forall i :: 0 <= i < |ms| && ms[i].Aggregate? ==> aggregate == Some(ms[i].name))
    && (weights.Some? <==> exists i :: 0 <= i < |ms| && ms[i].Weights?)
    && (aggregate.Some? <==> exists i :: 0 <= i < |ms| && ms[i].Aggregate?)
    && (withScores <==> exists i :: 0 <= i < |ms| && ms[i].WithScores?)
  }

  // ----- building and taking apart undo each other -----------------------------------------------------

  predicate NoWord(tokens: seq<string>, word: string) {
    forall i :: 0 <= i < |tokens| ==> !IsWord(tokens[i], word)
  }

  predicate IsName(name: string) {
    name == "weights" || name == "aggregate" || name == "withscores"
  }

  lemma NoSuchWord(a: seq<string>, name: string)
    requires NoWord(a, name)
    ensures IndexOfWord(a, name) == None
  {
  }

  /** An option in which nothing can be taken for the word `name`. */
  ghost predicate Silent(m: Modifier, name: string) {
    Name(m) != name && IsWord(m.word, Name(m)) && Plain(Operands(m))
  }

  lemma SilentTokens(m: Modifier, name: string)
    requires Silent(m, name) && IsName(name)
    ensures NoWord(Tokens(m), name)
  {
    forall i | 0 <= i < |Tokens(m)| ensures !IsWord(Tokens(m)[i], name) {
      assert i == 0 || Tokens(m)[i] == Operands(m)[i - 1];
    }
  }

  lemma NoWordAppend(a: seq<string>, b: seq<string>, name: string)
    requires NoWord(a, name) && NoWord(b, name)
    ensures NoWord(a + b, name)
  {
  }

  lemma {:induction false} SkipModifiers(ms: seq<Modifier>, name: string)
    requires IsName(name) && forall i :: 0 <= i < |ms| ==> Silent(ms[i], name)
    ensures NoWord(Written(ms), name)
  {
    if ms != [] {
      SilentTokens(ms[0], name);
      SkipModifiers(ms[1..], name);
      NoWordAppend(Tokens(ms[0]), Written(ms[1..]), name);
    }
  }

  lemma {:induction false} WrittenSplits(ms: seq<Modifier>, k: nat)
    requires k <= |ms|
    ensures Written(ms) == Written(ms[..k]) + Written(ms[k..])
  {
    if k == 0 {
      assert ms[0..] == ms && ms[..0] == [];
    } else {
      WrittenSplits(ms[1..], k - 1);
      assert ms[..k][1..] == ms[1..][..k - 1] && ms[1..][k - 1..] == ms[k..];
      ConcatAssoc(Tokens(ms[0]), Written(ms[..k][1..]), Written(ms[k..]));
    }
  }

  lemma SplitAt(a: seq<string>, ms: seq<Modifier>, k: nat)
    requires k < |ms|
    ensures a + Written(ms) == (a + Written(ms[..k])) + (Tokens(ms[k]) + Written(ms[k + 1..]))
  {
    WrittenSplits(ms, k);
    assert ms[k..][1..] == ms[k + 1..];
    ConcatAssoc(a, Written(ms[..k]), Written(ms[k..]));
  }

  /** The word of option `k` is the first of its name, and the options from there on follow. */
  lemma FindModifier(a: seq<string>, ms: seq<Modifier>, k: nat, name: string)
    requires k < |ms| && NoWord(a, name) && IsName(name) && Name(ms[k]) == name && IsWord(ms[k].word, name)
    requires forall i :: 0 <= i < k ==> Silent(ms[i], name)
    ensures var at := IndexOfWord(a + Written(ms), name);
            && at.Some?
            && (a + Written(ms))[at.value + 1..] == Operands(ms[k]) + Written(ms[k + 1..])
  {
    SkipModifiers(ms[..k], name);
    NoWordAppend(a, Written(ms[..k]), name);
    SplitAt(a, ms, k);
    FirstAfter(a + Written(ms[..k]), Tokens(ms[k]), Written(ms[k + 1..]), name);
  }

  lemma FirstAfter(before: seq<string>, tokens: seq<string>, rest: seq<string>, name: string)
    requires NoWord(before, name) && tokens != [] && IsWord(tokens[0], name)
    ensures IndexOfWord(before + (tokens + rest), name) == Some(|before|)
    ensures (before + (tokens + rest))[|before| + 1..] == tokens[1..] + rest
  {
    var cmd := before + (tokens + rest);
    forall j | 0 <= j < |before| ensures !IsWord(cmd[j], name) {
      assert cmd[j] == before[j];
    }
    assert cmd[|before|] == tokens[0];
    IndexIs(cmd, name, |before|);
  }

  /** Reading stops at the end of the tokens or at a stop word. */
  predicate Stops(rest: seq<string>) {
    rest == [] || IsWord(rest[0], "aggregate") || IsWord(rest[0], "withscores")
  }

  /** The whole numbers that are printed, `None` if one is not whole. */
  function Numbers(weights: seq<string>): Option<seq<int>> {
    if weights == [] then Some([])
    else
      match Atoi(weights[0])
      case None => None
      case Some(w) =>
        match Numbers(weights[1..])
        case None => None
        case Some(rest) => Some([w] + rest)
  }

  lemma WeightRead(weights: seq<string>, others: seq<string>, tokens: seq<string>)
    requires weights != [] && !IsKeyword(weights[0]) && tokens == [weights[0]] + others
    requires WeightsIn(others) == Numbers(weights[1..])
    ensures WeightsIn(tokens) == Numbers(weights)
  {
    assert tokens[1..] == others;
  }

  lemma {:induction false} WeightsRead(weights: seq<string>, rest: seq<string>)
    requires Plain(weights) && Stops(rest)
    ensures WeightsIn(weights + rest) == Numbers(weights)
  {
    if weights == [] {
      assert [] + rest == rest;
    } else {
      assert Plain(weights[1..]) && !IsKeyword(weights[0]);
      WeightsRead(weights[1..], rest);
      WeightRead(weights, weights[1..] + rest, weights + rest);
    }
  }

  lemma {:induction false} NumbersLength(weights: seq<string>)
    requires Numbers(weights).Some?
    ensures |Numbers(weights).value| == |weights|
  {
    if weights != [] {
      NumbersLength(weights[1..]);
    }
  }

  lemma HeadHasNoWord(command: string, keys: seq<string>, name: string)
    requires !IsKeyword(command) && Plain(keys) && IsName(name)
    ensures NoWord([command] + keys, name)
  {
    forall i | 0 <= i < |keys| + 1 ensures !IsWord(([command] + keys)[i], name) {
      assert i == 0 || ([command] + keys)[i] == keys[i - 1];
    }
  }

  lemma NotGiven(command: string, keys: seq<string>, ms: seq<Modifier>, name: string)
    requires !IsKeyword(command) && Plain(keys) && IsName(name) && forall i :: 0 <= i < |ms| ==> Silent(ms[i], name)
    ensures IndexOfWord(Build(command, keys, ms), name) == None
  {
    HeadHasNoWord(command, keys, name);
    SkipModifiers(ms, name);
    NoWordAppend([command] + keys, Written(ms), name);
    NoSuchWord([command] + keys + Written(ms), name);
  }

  lemma GivenAt(command: string, keys: seq<string>, ms: seq<Modifier>, k: nat, name: string)
    requires !IsKeyword(command) && Plain(keys) && IsName(name) && k < |ms|
    requires Name(ms[k]) == name && IsWord(ms[k].word, name) && forall i :: 0 <= i < k ==> Silent(ms[i], name)
    ensures var cmd := Build(command, keys, ms);
            var at := IndexOfWord(cmd, name);
            at.Some? && cmd[at.value + 1..] == Operands(ms[k]) + Written(ms[k + 1..])
  {
    HeadHasNoWord(command, keys, name);
    FindModifier([command] + keys, ms, k, name);
  }

  lemma OthersSilent(ms: seq<Modifier>, weights: Option<seq<string>>,
                     aggregate: Option<string>, withScores: bool, k: nat)
    requires Gives(ms, weights, aggregate, withScores) && k < |ms|
    requires weights.Some? ==> Plain(weights.value)
    requires aggregate.Some? && !ms[k].Aggregate? ==> !IsKeyword(aggregate.value)
    ensures forall i :: 0 <= i < |ms| && i != k ==> Silent(ms[i], Name(ms[k]))
  {
  }

  lemma AllSilent(ms: seq<Modifier>, weights: Option<seq<string>>,
                  aggregate: Option<string>, withScores: bool, name: string)
    requires Gives(ms, weights, aggregate, withScores) && IsName(name)
    requires weights.Some? ==> Plain(weights.value)
    requires aggregate.Some? && name != "aggregate" ==> !IsKeyword(aggregate.value)
    requires forall i :: 0 <= i < |ms| ==> Name(ms[i]) != name
    ensures forall i :: 0 <= i < |ms| ==> Silent(ms[i], name)
  {
  }

  lemma WeightsEnd(ms: seq<Modifier>, k: nat)
    requires k < |ms| && ms[k].Weights?
    requires forall i, j :: 0 <= i < j < |ms| ==> Name(ms[i]) != Name(ms[j])
    requires forall i :: 0 <= i < |ms| ==> IsWord(ms[i].word, Name(ms[i]))
    ensures Stops(Written(ms[k + 1..]))
  {
    if k + 1 < |ms| {
      assert Written(ms[k + 1..])[0] == ms[k + 1].word && Name(ms[k]) != Name(ms[k + 1]);
    }
  }

  lemma WeightsAt(command: string, keys: seq<string>, ms: seq<Modifier>, k: nat)
    requires !IsKeyword(command) && Plain(keys) && k < |ms| && ms[k].Weights? && IsWord(ms[k].word, "weights")
    requires forall i :: 0 <= i < k ==> Silent(ms[i], "weights")
    requires Plain(ms[k].numbers) && Stops(Written(ms[k + 1..]))
    ensures IndexOfWord(Build(command, keys, ms), "weights").Some?
    ensures WeightsOf(Build(command, keys, ms)) == Numbers(ms[k].numbers)
  {
    GivenAt(command, keys, ms, k, "weights");
    WeightsRead(ms[k].numbers, Written(ms[k + 1..]));
  }

  lemma AggregateAt(command: string, keys: seq<string>, ms: seq<Modifier>, k: nat)
    requires !IsKeyword(command) && Plain(keys) && k < |ms| && ms[k].Aggregate? && IsWord(ms[k].word, "aggregate")
    requires forall i :: 0 <= i < k ==> Silent(ms[i], "aggregate")
    ensures var cmd := Build(command, keys, ms);
            var at := IndexOfWord(cmd, "aggregate");
            at.Some? && at.value + 1 < |cmd| && cmd[at.value + 1] == ms[k].name
  {
    GivenAt(command, keys, ms, k, "aggregate");
    var cmd := Build(command, keys, ms);
    assert cmd[IndexOfWord(cmd, "aggregate").value + 1..][0] == ms[k].name;
  }

  lemma BuiltWeights(command: string, keys: seq<string>, ms: seq<Modifier>, weights: Option<seq<string>>,
                     aggregate: Option<string>, withScores: bool)
    requires !IsKeyword(command) && Plain(keys) && Gives(ms, weights, aggregate, withScores)
    requires weights.Some? ==> Plain(weights.value)
    requires aggregate.Some? ==> !IsKeyword(aggregate.value)
    ensures IndexOfWord(Build(command, keys, ms), "weights").Some? == weights.Some?
    ensures WeightsOf(Build(command, keys, ms)) == if weights.None? then Some([]) else Numbers(weights.value)
  {
    if weights.None? {
      AllSilent(ms, weights, aggregate, withScores, "weights");
      NotGiven(command, keys, ms, "weights");
    } else {
      var k :| 0 <= k < |ms| && ms[k].Weights?;
      OthersSilent(ms, weights, aggregate, withScores, k);
      WeightsEnd(ms, k);
      WeightsAt(command, keys, ms, k);
    }
  }

  /** Where the aggregate is asked for, its name follows. */
  lemma BuiltAggregate(command: string, keys: seq<string>, ms: seq<Modifier>, weights: Option<seq<string>>,
                       aggregate: Option<string>, withScores: bool)
    requires !IsKeyword(command) && Plain(keys) && Gives(ms, weights, aggregate, withScores)
    requires weights.Some? ==> Plain(weights.value)
    ensures var cmd := Build(command, keys, ms);
            var at := IndexOfWord(cmd, "aggregate");
            && at.Some? == aggregate.Some?
            && (at.Some? ==> at.value + 1 < |cmd| && cmd[at.value + 1] == aggregate.value)
  {
    if aggregate.None? {
      AllSilent(ms, weights, aggregate, withScores, "aggregate");
      NotGiven(command, keys, ms, "aggregate");
    } else {
      var k :| 0 <= k < |ms| && ms[k].Aggregate?;
      OthersSilent(ms, weights, aggregate, withScores, k);
      AggregateAt(command, keys, ms, k);
    }
  }

  lemma BuiltScores(command: string, keys: seq<string>, ms: seq<Modifier>, weights: Option<seq<string>>,
                    aggregate: Option<string>, withScores: bool)
    requires !IsKeyword(command) && Plain(keys) && Gives(ms, weights, aggregate, withScores)
    requires weights.Some? ==> Plain(weights.value)
    requires aggregate.Some? ==> !IsKeyword(aggregate.value)
    ensures IndexOfWord(Build(command, keys, ms), "withscores").Some? == withScores
  {
    if withScores {
      var k :| 0 <= k < |ms| && ms[k].WithScores?;
      OthersSilent(ms, weights, aggregate, withScores, k);
      GivenAt(command, keys, ms, k, "withscores");
    } else {
      AllSilent(ms, weights, aggregate, withScores, "withscores");
      NotGiven(command, keys, ms, "withscores");
    }
  }

  /** The keys end where the first modifier begins. */
  lemma BuiltKeys(command: string, keys: seq<string>, ms: seq<Modifier>)
    requires !IsKeyword(command) && Plain(keys)
    requires ms != [] ==> IsWord(ms[0].word, Name(ms[0]))
    ensures KeysOf(Build(command, keys, ms)) == Some(keys)
  {
    var cmd, n := Build(command, keys, ms), |keys| + 1;
    assert forall i :: 0 <= i < n ==> cmd[i] == ([command] + keys)[i];
    forall name | IsName(name) ensures IndexOfWord(cmd, name).Some? ==> n <= IndexOfWord(cmd, name).value {
      HeadHasNoWord(command, keys, name);
    }
    assert cmd[1..n] == keys;
    if ms != [] {
      assert cmd[n] == ms[0].word;
      HeadHasNoWord(command, keys, Name(ms[0]));
      IndexIs(cmd, Name(ms[0]), n);
    }
  }

  lemma ValidAggregates(name: string)
    ensures ValidAggregate(name) <==> ToLower(name) in ["sum", "min", "max"]
    ensures ValidAggregate(name) ==> !IsKeyword(name)
  {
  }

  lemma BuiltExtracts(command: string, keys: seq<string>, ms: seq<Modifier>, weights: Option<seq<string>>,
                      aggregate: Option<string>, withScores: bool)
    requires !IsKeyword(command) && Plain(keys) && Gives(ms, weights, aggregate, withScores)
    requires weights.Some? ==> Plain(weights.value)
    requires aggregate.Some? ==> ValidAggregate(aggregate.value)
    ensures Extract(Build(command, keys, ms)) ==
            if weights.Some? && (Numbers(weights.value).None? || |weights.value| != |keys|) then Rejected
            else Arguments(keys,
                           if weights.None? then Ones(|keys|) else Numbers(weights.value).value,
                           if aggregate.None? then "sum" else ToLower(aggregate.value),
                           withScores)
  {
    ValidAggregates(aggregate.Or("sum"));
    BuiltWeights(command, keys, ms, weights, aggregate, withScores);
    BuiltAggregate(command, keys, ms, weights, aggregate, withScores);
    BuiltKeys(command, keys, ms);
    BuiltScores(command, keys, ms, weights, aggregate, withScores);
    if weights.Some? && Numbers(weights.value).Some? {
      NumbersLength(weights.value);
    }
  }

  /** Keys that come out whole hold no keyword: it would have cut them short. */
  lemma CutAtKeyword(command: string, keys: seq<string>, rest: seq<string>)
    requires KeysOf([command] + keys + rest) == Some(keys)
    ensures Plain(keys)
  {
    var cmd := [command] + keys + rest;
    var end := if FirstModifier(cmd).Some? then FirstModifier(cmd).value else |cmd|;
    assert |cmd[1..end]| == |keys|;
    forall i | 0 <= i < |keys| ensures !IsKeyword(keys[i]) {
      assert cmd[i + 1] == keys[i];
    }
  }

  /** Whatever the order of its options, what a command gives is taken out of it again exactly
      when no key is a keyword, the aggregate is one that there is, and the weights are whole
      numbers and as many as the keys.  (No printed number is a keyword.) */
  lemma ExtractUndoesBuildIff(command: string, keys: seq<string>, ms: seq<Modifier>, weights: Option<seq<string>>,
                              aggregate: Option<string>, withScores: bool)
    requires !IsKeyword(command) && Gives(ms, weights, aggregate, withScores)
    requires weights.Some? ==> Plain(weights.value)
    ensures Extract(Build(command, keys, ms)) ==
            Arguments(keys,
                      if weights.None? then Ones(|keys|) else Numbers(weights.value).Or([]),
                      if aggregate.None? then "sum" else ToLower(aggregate.value),
                      withScores)
       <==> && Plain(keys)
            && (aggregate.Some? ==> ToLower(aggregate.value) in ["sum", "min", "max"])
            && (weights.Some? ==> |weights.value| == |keys| && Numbers(weights.value).Some?)
  {
    var r := Extract(Build(command, keys, ms));
    ValidAggregates(aggregate.Or("sum"));
    if r.Arguments? && r.keys == keys {
      CutAtKeyword(command, keys, Written(ms));
      BuiltAggregate(command, keys, ms, weights, aggregate, withScores);
    }
    if Plain(keys) && (aggregate.Some? ==> ValidAggregate(aggregate.value)) {
      BuiltExtracts(command, keys, ms, weights, aggregate, withScores);
    }
  }

  // ----- the repository's own builder ------------------------------------------------------------------

  function With(cmd: seq<string>, given: bool, tokens: seq<string>): seq<string> {
    if given then cmd + tokens else cmd
  }

  /** The tokens that ZUnion puts together: no weights and an empty aggregate leave the option out. */
  function ZUnionTokens(keys: seq<string>, weights: seq<string>, aggregate: string, withScores: bool): seq<string> {
    var weighted := With(["ZUNION"] + keys, weights != [], ["WEIGHTS"] + weights);
    var aggregated := With(weighted, aggregate != "", ["AGGREGATE", aggregate]);
    With(aggregated, withScores, ["WITHSCORES"])
  }

  function Also(ms: seq<Modifier>, given: bool, m: Modifier): seq<Modifier> {
    if given then ms + [m] else ms
  }

  function GivenOptions(weights: seq<string>, aggregate: string, withScores: bool): seq<Modifier> {
    Also(Also(Also([], weights != [], Weights("WEIGHTS", weights)), aggregate != "", Aggregate("AGGREGATE", aggregate)),
         withScores, WithScores("WITHSCORES"))
  }

  function NonEmpty<T>(s: seq<T>): Option<seq<T>> {
    if s == [] then None else Some(s)
  }

  lemma OptionsGiven(weights: seq<string>, aggregate: string, withScores: bool)
    ensures Gives(GivenOptions(weights, aggregate, withScores), NonEmpty(weights), NonEmpty(aggregate), withScores)
  {
    Words();
    var ms := GivenOptions(weights, aggregate, withScores);
    assert weights != [] ==> ms[0].Weights?;
    assert aggregate != "" ==> ms[if weights == [] then 0 else 1].Aggregate?;
    assert withScores ==> ms[|ms| - 1].WithScores?;
  }

  lemma WrittenAfter(a: seq<Modifier>, m: Modifier)
    ensures Written(a + [m]) == Written(a) + Tokens(m)
  {
    WrittenSplits(a + [m], |a|);
    assert (a + [m])[..|a|] == a && (a + [m])[|a|..] == [m] && [m][1..] == [];
    assert Written([m]) == Tokens(m);
  }

  lemma BuildsOn(head: seq<string>, ms: seq<Modifier>, given: bool, m: Modifier)
    ensures head + Written(Also(ms, given, m)) == With(head + Written(ms), given, Tokens(m))
  {
    if given {
      WrittenAfter(ms, m);
      ConcatAssoc(head, Written(ms), Tokens(m));
    }
  }

  lemma BuilderWrites(keys: seq<string>, weights: seq<string>, aggregate: string, withScores: bool)
    ensures ZUnionTokens(keys, weights, aggregate, withScores) ==
            Build("ZUNION", keys, GivenOptions(weights, aggregate, withScores))
  {
    var head := ["ZUNION"] + keys;
    var w := Also([], weights != [], Weights("WEIGHTS", weights));
    var a := Also(w, aggregate != "", Aggregate("AGGREGATE", aggregate));
    assert head + Written([]) == head;
    BuildsOn(head, [], weights != [], Weights("WEIGHTS", weights));
    BuildsOn(head, w, aggregate != "", Aggregate("AGGREGATE", aggregate));
    BuildsOn(head, a, withScores, WithScores("WITHSCORES"));
    assert Tokens(Aggregate("AGGREGATE", aggregate)) == ["AGGREGATE", aggregate];
    assert Tokens(WithScores("WITHSCORES")) == ["WITHSCORES"];
  }

  lemma CommandIsPlain()
    ensures !IsKeyword("ZUNION")
  {
    Words();
    assert |ToLower("ZUNION")| == 6;
  }

  /** What ZUnion builds from its arguments is taken out of it again exactly when no key is
      a keyword, the aggregate is one that there is, and the weights match the keys and are
      whole numbers. */
  lemma BuilderUndoneIff(keys: seq<string>, weights: seq<string>, aggregate: string, withScores: bool)
    requires Plain(weights)
    ensures Extract(ZUnionTokens(keys, weights, aggregate, withScores)) ==
            Arguments(keys,
                      if weights == [] then Ones(|keys|) else Numbers(weights).Or([]),
                      if aggregate == "" then "sum" else ToLower(aggregate),
                      withScores)
       <==> && Plain(keys)
            && (aggregate != "" ==> ToLower(aggregate) in ["sum", "min", "max"])
            && (weights != [] ==> |weights| == |keys| && Numbers(weights).Some?)
  {
    CommandIsPlain();
    BuilderWrites(keys, weights, aggregate, withScores);
    OptionsGiven(weights, aggregate, withScores);
    ExtractUndoesBuildIff("ZUNION", keys, GivenOptions(weights, aggregate, withScores), NonEmpty(weights),
                          NonEmpty(aggregate), withScores);
  }

  /** A key with the name of a modifier: it is taken for one, and no key is left. */
  lemma KeywordKeyIsLost()
    ensures Extract(Build("ZUNION", ["weights"], [])) == Arguments([], [], "sum", false)
  {
    Words();
    var cmd := Build("ZUNION", ["weights"], []);
    assert cmd == ["ZUNION", "weights"] && cmd[1..] == ["weights"] && cmd[1..][1..] == [];
    IndexIs(cmd, "weights", 1);
    assert cmd[2..] == [] && cmd[1..1] == [];
  }

  lemma Words()
    ensures ToLower("ZUNION") == "zunion" && ToLower("WEIGHTS") == "weights" == ToLower("weights")
    ensures ToLower("AGGREGATE") == "aggregate" && ToLower("WITHSCORES") == "withscores"
    ensures ToLower("aggregate") == "aggregate" && ToLower("MAX") == "max"
  {
  }

  // ----- whole and other weights -----------------------------------------------------------------------

  function Numerals(weights: seq<int>): (r: seq<string>)
    ensures |r| == |weights|
  {
    if weights == [] then [] else [Itoa(weights[0])] + Numerals(weights[1..])
  }

  lemma NumeralIsNoWord(n: int)
    ensures !IsKeyword(Itoa(n))
  {
    ItoaLength(n);
    assert ToLower(Itoa(n))[0] == Itoa(n)[0];
  }

  lemma OneNumeral(n: int, tokens: seq<string>, weights: seq<int>)
    requires MIN_INT64 <= n <= MAX_INT64 && Numbers(tokens) == Some(weights)
    ensures Numbers([Itoa(n)] + tokens) == Some([n] + weights)
  {
    ItoaRoundTrip(n);
    assert ([Itoa(n)] + tokens)[1..] == tokens;
  }

  lemma {:induction false} NumeralsAreWhole(weights: seq<int>)
    requires forall i :: 0 <= i < |weights| ==> MIN_INT64 <= weights[i] <= MAX_INT64
    ensures Plain(Numerals(weights)) && Numbers(Numerals(weights)) == Some(weights)
  {
    if weights != [] {
      NumeralIsNoWord(weights[0]);
      NumeralsAreWhole(weights[1..]);
      OneNumeral(weights[0], Numerals(weights[1..]), weights[1..]);
      assert [weights[0]] + weights[1..] == weights;
    }
  }

  /** With whole weights of 64 bits, only a keyword among the keys can be in the way. */
  lemma ExtractUndoesBuild(command: string, keys: seq<string>, ms: seq<Modifier>, weights: seq<int>,
                           printed: seq<string>, aggregate: Option<string>, withScores: bool)
    requires !IsKeyword(command) && Gives(ms, Some(printed), aggregate, withScores)
    requires aggregate.Some? ==> ValidAggregate(aggregate.value)
    requires |weights| == |keys| && forall i :: 0 <= i < |weights| ==> MIN_INT64 <= weights[i] <= MAX_INT64
    requires printed == Numerals(weights)
    ensures Extract(Build(command, keys, ms)) ==
            Arguments(keys, weights, if aggregate.None? then "sum" else ToLower(aggregate.value), withScores)
       <==> Plain(keys)
  {
    NumeralsAreWhole(weights);
    ValidAggregates(aggregate.Or("sum"));
    ExtractUndoesBuildIff(command, keys, ms, Some(printed), aggregate, withScores);
  }

  lemma ExampleGives(ms: seq<Modifier>)
    requires ms == [WithScores("WITHSCORES"), Aggregate("aggregate", "MAX"), Weights("WEIGHTS", ["7", "-2"])]
    ensures Gives(ms, Some(["7", "-2"]), Some("MAX"), true)
    ensures Written(ms) == ["WITHSCORES", "aggregate", "MAX", "WEIGHTS", "7", "-2"]
  {
    Words();
    assert ms[0].WithScores? && ms[1].Aggregate? && ms[2].Weights?;
    assert ms[1..] == [ms[1], ms[2]] && ms[1..][1..] == [ms[2]] && ms[1..][1..][1..] == [];
    assert Written([ms[2]]) == ["WEIGHTS", "7", "-2"];
    assert Written([ms[1], ms[2]]) == ["aggregate", "MAX", "WEIGHTS", "7", "-2"];
  }

  lemma ExampleNumerals()
    ensures Itoa(7) == "7" && Itoa(-2) == "-2" && Numerals([7, -2]) == ["7", "-2"]
  {
    assert Digits(7) == "7" && Digits(2) == "2";
    assert [7, -2][1..] == [-2] && [-2][1..] == [];
    assert Numerals([-2]) == [Itoa(-2)] + [];
    assert Numerals([7, -2]) == [Itoa(7)] + Numerals([-2]);
  }

  lemma ExampleKeys(keys: seq<string>)
    requires keys == ["k1", "k2"]
    ensures !IsKeyword("ZUNION") && Plain(keys)
  {
    CommandIsPlain();
    assert |ToLower(keys[0])| == |ToLower(keys[1])| == 2;
  }

  /** The weights last, as the repository's own tests have them. */
  lemma OptionsExample(cmd: seq<string>)
    requires cmd == ["ZUNION", "k1", "k2", "WITHSCORES", "aggregate", "MAX", "WEIGHTS", "7", "-2"]
    ensures Extract(cmd) == Arguments(["k1", "k2"], [7, -2], "max", true)
  {
    Words();
    var ms := [WithScores("WITHSCORES"), Aggregate("aggregate", "MAX"), Weights("WEIGHTS", ["7", "-2"])];
    var keys := ["k1", "k2"];
    ExampleGives(ms);
    ExampleNumerals();
    ExampleKeys(keys);
    assert cmd == ["ZUNION"] + keys + Written(ms);
    ExtractUndoesBuild("ZUNION", keys, ms, [7, -2], Numerals([7, -2]), Some("MAX"), true);
  }

  /** Weights that do not match the keys are refused, and so is one printed with a point. */
  lemma WrongWeightsRejected(command: string, keys: seq<string>, ms: seq<Modifier>, weights: seq<string>,
                             aggregate: Option<string>, withScores: bool)
    requires !IsKeyword(command) && Plain(keys) && Gives(ms, Some(weights), aggregate, withScores) && Plain(weights)
    requires aggregate.Some? ==> ValidAggregate(aggregate.value)
    requires |weights| != |keys| || exists w :: w in weights && '.' in w
    ensures Extract(Build(command, keys, ms)) == Rejected
  {
    BuiltExtracts(command, keys, ms, Some(weights), aggregate, withScores);
    if w :| w in weights && '.' in w {
      PointIsNotWhole(weights, w);
    }
  }

  lemma {:induction false} PointIsNotWhole(weights: seq<string>, w: string)
    requires w in weights && '.' in w
    ensures Numbers(weights) == None
  {
    if weights[0] == w {
      var digits := if w[0] == '-' || w[0] == '+' then w[1..] else w;
      assert '.' in digits;
    } else {
      PointIsNotWhole(weights[1..], w);
    }
  }
}
