/** Types and string helpers shared by the whole model. */
module Common {

  datatype Option<+T> = None | Some(value: T) {
    function Or(default: T): T {
      if Some? then value else default
    }
  }

  // ----- maps ---------------------------------------------------------------

  ghost predicate EqualAt<K, V>(m: map<K, V>, m': map<K, V>, k: K) {
    (k in m <==> k in m') && (k in m ==> m[k] == m'[k])
  }

  lemma MapsEqual<K(!new), V>(m: map<K, V>, m': map<K, V>)
    requires forall k :: EqualAt(m, m', k)
    ensures m == m'
  {
    forall k ensures k in m <==> k in m' {
      assert EqualAt(m, m', k);
    }
    assert m.Keys == m'.Keys;
    forall k | k in m ensures m[k] == m'[k] {
      assert EqualAt(m, m', k);
    }
  }

  // ----- sequences ----------------------------------------------------------

  lemma ConcatAssoc<T>(a: seq<T>, b: seq<T>, c: seq<T>)
    ensures a + b + c == a + (b + c)
  {
  }

  ghost predicate Distinct<T>(s: seq<T>) {
    forall i, j :: 0 <= i < j < |s| ==> s[i] != s[j]
  }

  /** Sequence `s` lists the elements of `elems`, each exactly once. */
  ghost predicate Lists<T(!new)>(s: seq<T>, elems: set<T>) {
    Distinct(s) && (forall x :: x in s <==> x in elems)
  }

  /** The keys of a map in the order in which one `range` loop visits them:
      each key once, in no particular order. */
  method RangeOrder<T(!new, ==)>(keys: set<T>) returns (order: seq<T>)
    ensures Lists(order, keys)
    ensures |order| == |keys|
  {
    var unseen := keys;
    order := [];
    while unseen != {}
      invariant unseen <= keys
      invariant Lists(order, keys - unseen)
      invariant |order| == |keys| - |unseen|
      decreases |unseen|
    {
      var k :| k in unseen;
      unseen := unseen - {k};
      order := order + [k];
    }
  }

  function Elems<T(!new)>(s: seq<T>): (r: set<T>)
    ensures forall x :: x in r <==> x in s
  {
    set x | x in s
  }

  lemma {:induction false} DistinctCardinality<T(!new)>(s: seq<T>)
    requires Distinct(s)
    ensures |Elems(s)| == |s|
  {
    if s == [] {
      assert Elems(s) == {};
    } else {
      var last := |s| - 1;
      DistinctCardinality(s[..last]);
      assert Elems(s) == Elems(s[..last]) + {s[last]};
    }
  }

  lemma SwapSameElements<T>(s: seq<T>, i: nat, j: nat)
    requires i < |s| && j < |s|
    ensures forall x <- s :: x in s[i := s[j]][j := s[i]]
    ensures forall x <- s[i := s[j]][j := s[i]] :: x in s
  {
    var t := s[i := s[j]][j := s[i]];
    forall x | x in s ensures x in t {
      var k :| 0 <= k < |s| && s[k] == x;
      assert t[if k == i then j else if k == j then i else k] == x;
    }
  }

  // ----- case-insensitive comparison of ASCII words ---------------------------

  function LowerChar(c: char): char {
    if 'A' <= c <= 'Z' then (c as int + 32) as char else c
  }

  function ToLower(s: string): (r: string)
    ensures |r| == |s|
    ensures forall i :: 0 <= i < |s| ==> r[i] == LowerChar(s[i])
  {
    seq(|s|, i requires 0 <= i < |s| => LowerChar(s[i]))
  }

  predicate EqualFold(s: string, t: string) {
    ToLower(s) == ToLower(t)
  }
}
