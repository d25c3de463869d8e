/** The comparison of strings that the ZLEX commands use, against bytewise
    lexicographic order.  A char stands for a byte. */
module Lexicographic {

  predicate OccursAt(t: string, s: string, i: int) {
    0 <= i <= |s| - |t| && s[i..i + |t|] == t
  }

  /** strings.Contains. */
  predicate Contains(s: string, t: string) {
    exists i | 0 <= i <= |s| - |t| :: OccursAt(t, s, i)
  }

  /** The sign of the first difference, 0 if one string runs out first. */
  function FirstDifference(s1: string, s2: string): int {
    if s1 == [] || s2 == [] then 0
    else if s1[0] < s2[0] then -1
    else if s1[0] > s2[0] then 1
    else FirstDifference(s1[1..], s2[1..])
  }

  function Compare(s1: string, s2: string): int {
    if s1 == s2 then 0
    else if Contains(s1, s2) then 1
    else if Contains(s2, s1) then -1
    else FirstDifference(s1, s2)
  }

  /** The comparison with its loop. */
  method CompareLex(s1: string, s2: string) returns (c: int)
    ensures c == Compare(s1, s2)
  {
    if s1 == s2 {
      return 0;
    }
    if Contains(s1, s2) {
      return 1;
    }
    if Contains(s2, s1) {
      return -1;
    }
    var limit := if |s2| < |s1| then |s2| else |s1|;
    c := 0;
    assert s1[0..] == s1 && s2[0..] == s2;
    for i := 0 to limit
      invariant c == 0 && FirstDifference(s1, s2) == FirstDifference(s1[i..], s2[i..])
    {
      assert s1[i..][1..] == s1[i + 1..] && s2[i..][1..] == s2[i + 1..];
      c := if s1[i] < s2[i] then -1 else if s1[i] > s2[i] then 1 else 0;
      if c != 0 {
        break;
      }
    }
  }

  /** Bytewise lexicographic order, a proper prefix first. */
  function Lex(s1: string, s2: string): int {
    if s1 == [] then (if s2 == [] then 0 else -1)
    else if s2 == [] then 1
    else if s1[0] < s2[0] then -1
    else if s1[0] > s2[0] then 1
    else Lex(s1[1..], s2[1..])
  }

  lemma ContainsShorter(s: string, t: string)
    requires Contains(s, t)
    ensures |t| <= |s| && (|t| == |s| ==> s == t)
  {
    var i :| OccursAt(t, s, i);
    if |t| == |s| {
      assert s[0..|s|] == s;
    }
  }

  lemma PrefixIsContained(s: string, t: string)
    requires t <= s
    ensures Contains(s, t)
  {
    assert OccursAt(t, s, 0);
  }

  lemma {:induction false} DifferenceFacts(s1: string, s2: string)
    ensures -1 <= FirstDifference(s1, s2) == -FirstDifference(s2, s1) <= 1
    ensures FirstDifference(s1, s2) == 0 <==> s1 <= s2 || s2 <= s1
    ensures FirstDifference(s1, s2) != 0 ==> Lex(s1, s2) == FirstDifference(s1, s2)
    ensures FirstDifference(s1, s2) == 0 ==> Lex(s1, s2) == (if |s1| < |s2| then -1 else if |s2| < |s1| then 1 else 0)
  {
    if s1 != [] && s2 != [] {
      DifferenceFacts(s1[1..], s2[1..]);
      assert s1 == [s1[0]] + s1[1..] && s2 == [s2[0]] + s2[1..];
    }
  }

  lemma Antisymmetric(s1: string, s2: string)
    ensures Compare(s1, s2) == -Compare(s2, s1)
  {
    DifferenceFacts(s1, s2);
    if Contains(s1, s2) {
      ContainsShorter(s1, s2);
    }
    if Contains(s2, s1) {
      ContainsShorter(s2, s1);
    }
  }

  lemma ZeroOnlyOnEqual(s1: string, s2: string)
    ensures Compare(s1, s2) == 0 <==> s1 == s2
  {
    DifferenceFacts(s1, s2);
    if s1 <= s2 {
      PrefixIsContained(s2, s1);
    }
    if s2 <= s1 {
      PrefixIsContained(s1, s2);
    }
  }

  /** It is lexicographic order exactly when no string occurs inside the other
      while being the greater of the two at the first difference. */
  lemma IsLexIff(s1: string, s2: string)
    ensures Compare(s1, s2) == Lex(s1, s2)
       <==> !(Contains(s1, s2) && FirstDifference(s1, s2) < 0) && !(Contains(s2, s1) && 0 < FirstDifference(s1, s2))
  {
    DifferenceFacts(s1, s2);
    if s1 <= s2 {
      PrefixIsContained(s2, s1);
    }
    if s2 <= s1 {
      PrefixIsContained(s1, s2);
    }
    if Contains(s1, s2) {
      ContainsShorter(s1, s2);
    }
    if Contains(s2, s1) {
      ContainsShorter(s2, s1);
    }
  }

  lemma {:induction false} LexTransitive(s1: string, s2: string, s3: string)
    requires Lex(s1, s2) < 0 && Lex(s2, s3) < 0
    ensures Lex(s1, s3) < 0
  {
    if s1 != [] && s2 != [] && s3 != [] && s1[0] == s2[0] == s3[0] {
      LexTransitive(s1[1..], s2[1..], s3[1..]);
    }
  }

  lemma {:induction false} LexTotal(s1: string, s2: string)
    ensures Lex(s1, s2) == -Lex(s2, s1)
    ensures Lex(s1, s2) == 0 <==> s1 == s2
  {
    if s1 != [] && s2 != [] {
      LexTotal(s1[1..], s2[1..]);
      assert s1 == [s1[0]] + s1[1..] && s2 == [s2[0]] + s2[1..];
    }
  }

  lemma ContainsTransitive(s: string, t: string, u: string)
    requires Contains(s, t) && Contains(t, u)
    ensures Contains(s, u)
  {
    var i :| 0 <= i <= |s| - |t| && OccursAt(t, s, i);
    var j :| 0 <= j <= |t| - |u| && OccursAt(u, t, j);
    forall k | 0 <= k < |u| ensures s[i + j + k] == u[k] {
      assert s[i..i + |t|][j + k] == t[j + k] && t[j..j + |u|][k] == u[k];
    }
    assert OccursAt(u, s, i + j);
  }

  /** Of two strings in lexicographic order, the first is the greater exactly when it
      contains the second. */
  lemma InOrder(s1: string, s2: string)
    requires Lex(s1, s2) < 0
    ensures Compare(s1, s2) == if Contains(s1, s2) then 1 else -1
  {
    DifferenceFacts(s1, s2);
    LexTotal(s1, s2);
    if s1 <= s2 {
      PrefixIsContained(s2, s1);
    }
    if s2 <= s1 {
      PrefixIsContained(s1, s2);
    }
  }

  /** In lexicographic order, but the first contains the last without containing the
      middle one, and the middle one does not contain the last either. */
  ghost predicate Bends(a: string, b: string, c: string) {
    && Lex(a, b) < 0 && Lex(b, c) < 0
    && Contains(a, c) && !Contains(a, b) && !Contains(b, c)
  }

  ghost predicate Cycle(a: string, b: string, c: string) {
    Compare(a, b) < 0 && Compare(b, c) < 0 && Compare(c, a) < 0
  }

  lemma InOrderCycleIff(a: string, b: string, c: string)
    requires Lex(a, b) < 0 && Lex(b, c) < 0
    ensures Cycle(a, b, c) <==> Bends(a, b, c)
    ensures !Cycle(c, b, a)
  {
    LexTransitive(a, b, c);
    InOrder(a, b);
    InOrder(b, c);
    InOrder(a, c);
    Antisymmetric(a, b);
    Antisymmetric(b, c);
    Antisymmetric(a, c);
    if Contains(a, b) && Contains(b, c) {
      ContainsTransitive(a, b, c);
    }
  }

  /** Three different strings follow each other in lexicographic order, one way or
      the other, from one of them on. */
  lemma CycleIff(a: string, b: string, c: string)
    ensures Cycle(a, b, c) <==> Bends(a, b, c) || Bends(b, c, a) || Bends(c, a, b)
  {
    LexTotal(a, b);
    LexTotal(b, c);
    LexTotal(c, a);
    ZeroOnlyOnEqual(a, b);
    ZeroOnlyOnEqual(b, c);
    ZeroOnlyOnEqual(c, a);
    if Lex(a, b) < 0 && Lex(b, c) < 0 { InOrderCycleIff(a, b, c); }
    if Lex(b, c) < 0 && Lex(c, a) < 0 { InOrderCycleIff(b, c, a); }
    if Lex(c, a) < 0 && Lex(a, b) < 0 { InOrderCycleIff(c, a, b); }
    if Lex(c, b) < 0 && Lex(b, a) < 0 { InOrderCycleIff(c, b, a); }
    if Lex(b, a) < 0 && Lex(a, c) < 0 { InOrderCycleIff(b, a, c); }
    if Lex(a, c) < 0 && Lex(c, b) < 0 { InOrderCycleIff(a, c, b); }
  }

  /** The comparison fails to be transitive on exactly these triples. */
  lemma IntransitiveIff(s1: string, s2: string, s3: string)
    ensures Compare(s1, s2) <= 0 && Compare(s2, s3) <= 0 && 0 < Compare(s1, s3)
       <==> Bends(s1, s2, s3) || Bends(s2, s3, s1) || Bends(s3, s1, s2)
  {
    CycleIff(s1, s2, s3);
    Antisymmetric(s1, s3);
    ZeroOnlyOnEqual(s1, s2);
    ZeroOnlyOnEqual(s2, s3);
    ZeroOnlyOnEqual(s1, s3);
  }

  /** On strings of one length it is a total order. */
  lemma TransitiveOnOneLength(s1: string, s2: string, s3: string)
    requires |s1| == |s2| == |s3|
    requires Compare(s1, s2) <= 0 && Compare(s2, s3) <= 0
    ensures Compare(s1, s3) <= 0
  {
    IntransitiveIff(s1, s2, s3);
    SameLengthNeverBends(s1, s2, s3);
    SameLengthNeverBends(s2, s3, s1);
    SameLengthNeverBends(s3, s1, s2);
  }

  lemma SameLengthNeverBends(a: string, b: string, c: string)
    requires |a| == |b| == |c|
    ensures !Bends(a, b, c)
  {
    if Bends(a, b, c) {
      LexTransitive(a, b, c);
      LexTotal(a, c);
      ContainsShorter(a, c);
      assert false;
    }
  }

  lemma ContainsItsChars(s: string, t: string, c: char)
    requires Contains(s, t) && c in t
    ensures c in s
  {
    var i :| 0 <= i <= |s| - |t| && OccursAt(t, s, i);
    var k :| 0 <= k < |t| && t[k] == c;
    assert s[i + k] == s[i..i + |t|][k];
  }

  /** The condition is met on strings of different lengths: b < ab < ac < b. */
  lemma NotTransitive()
    ensures Bends("ab", "ac", "b")
    ensures Compare("b", "ab") < 0 && Compare("ab", "ac") < 0 && Compare("ac", "b") < 0
  {
    assert OccursAt("b", "ab", 1);
    assert "ab"[1..] == "b" && "ac"[1..] == "c";
    if Contains("ab", "ac") {
      ContainsItsChars("ab", "ac", 'c');
    }
    if Contains("ac", "b") {
      ContainsItsChars("ac", "b", 'b');
    }
    CycleIff("ab", "ac", "b");
  }
}
