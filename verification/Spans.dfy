/** Where a sequence stands inside another. */
module Spans {

  /** The elements of part stand in s from i up to j, and s goes on there. */
  ghost predicate Spot<T>(s: seq<T>, i: nat, part: seq<T>, j: nat) {
    j == i + |part| < |s| && s[i..j] == part
  }

  lemma Elem<T>(s: seq<T>, i: nat, part: seq<T>, j: nat, k: nat)
    requires Spot(s, i, part, j) && k < |part|
    ensures i + k < |s| && s[i + k] == part[k]
  {
    assert s[i..j][k] == s[i + k];
  }

  lemma Cut<T>(s: seq<T>, i: nat, a: seq<T>, b: seq<T>, n: nat) returns (j: nat)
    requires Spot(s, i, a + b, n)
    ensures Spot(s, i, a, j) && Spot(s, j, b, n)
    ensures b != [] ==> s[j] == b[0]
  {
    j := i + |a|;
    assert s[i..j] == s[i..n][..|a|] == (a + b)[..|a|] == a;
    assert s[j..n] == s[i..n][|a|..] == (a + b)[|a|..] == b;
    if b != [] { assert s[j..n][0] == s[j]; }
  }

  lemma CutHead<T>(s: seq<T>, i: nat, t: T, b: seq<T>, n: nat)
    requires Spot(s, i, [t] + b, n)
    ensures i + 1 < |s| && s[i] == t && Spot(s, i + 1, b, n)
  {
    var j := Cut(s, i, [t], b, n);
    Elem(s, i, [t], j, 0);
  }

  lemma CutEnd<T>(s: seq<T>, i: nat, a: seq<T>, t: T, n: nat) returns (j: nat)
    requires Spot(s, i, a + [t], n)
    ensures Spot(s, i, a, j) && j < |s| && s[j] == t && n == j + 1
  {
    j := Cut(s, i, a, [t], n);
  }

  lemma CutAt<T>(s: seq<T>, i: nat, a: seq<T>, t: T, b: seq<T>, n: nat) returns (j: nat)
    requires Spot(s, i, a + [t] + b, n)
    ensures Spot(s, i, a, j) && j + 1 < |s| && s[j] == t && Spot(s, j + 1, b, n)
  {
    var k := Cut(s, i, a + [t], b, n);
    j := CutEnd(s, i, a, t, k);
  }

  /** A chain of three parts, from the left and from the right. */
  lemma Regroup<T>(a: seq<T>, b: seq<T>, c: seq<T>)
    ensures a + b + c == a + (b + c)
  {
  }
}
