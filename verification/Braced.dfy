/** Where the brace of an embedded expression closes, told by a split of the source into strings and bytes. */
module Braced {
  import opened Literals

  /** The inside of a string: escaped bytes, and bytes that are neither its quote nor a backslash. */
  predicate Inside(s: string, quote: char) {
    s == "" || (s[0] == '\\' && |s| > 1 && Inside(s[2..], quote)) || (s[0] != '\\' && s[0] != quote && Inside(s[1..], quote))
  }

  /** A whole quoted string stands from a up to b. */
  predicate Whole(src: string, a: nat, b: nat) {
    a + 1 < b <= |src| && (src[a] == '"' || src[a] == '\'') && src[b - 1] == src[a] && Inside(src[a + 1..b - 1], src[a])
  }

  /** From a up to b stands a whole quoted string, or one byte that is no quote. */
  predicate Unit(src: string, a: nat, b: nat) {
    (b == a + 1 <= |src| && src[a] != '"' && src[a] != '\'') || Whole(src, a, b)
  }

  /** The offsets cut the source from j up to k into units. */
  predicate Cuts(src: string, cs: seq<nat>, j: nat, k: nat) {
    |cs| > 0 && cs[0] == j && cs[|cs| - 1] == k && forall i :: 0 <= i < |cs| - 1 ==> Unit(src, cs[i], cs[i + 1])
  }

  function Step(src: string, a: nat, b: nat): int
    requires Unit(src, a, b)
  {
    if b == a + 1 && src[a] == '{' then 1 else if b == a + 1 && src[a] == '}' then -1 else 0
  }

  /** How many braces are open behind the first n units. */
  function Open(src: string, cs: seq<nat>, n: nat): int
    requires n < |cs| && forall i :: 0 <= i < |cs| - 1 ==> Unit(src, cs[i], cs[i + 1])
    decreases n
  {
    if n == 0 then 0 else Open(src, cs, n - 1) + Step(src, cs[n - 1], cs[n])
  }

  /** The braces open at j close for the first time with the last unit, behind which is k. */
  predicate Balances(src: string, cs: seq<nat>, j: nat, k: nat, depth: int) {
    && Cuts(src, cs, j, k) && |cs| > 1
    && depth + Open(src, cs, |cs| - 1) == 0
    && forall n :: 0 <= n < |cs| - 1 ==> depth + Open(src, cs, n) > 0
  }

  lemma {:induction false} InsideEnds(src: string, i: nat, b: nat, quote: char)
    requires i < b <= |src| && src[b - 1] == quote && quote != '\\' && Inside(src[i..b - 1], quote)
    ensures SkipEnd(src, i, quote) == EndAt(b)
    decreases b - i
  {
    var s := src[i..b - 1];
    if s != "" {
      assert s[0] == src[i];
      if s[0] == '\\' {
        assert s[2..] == src[i + 2..b - 1];
        InsideEnds(src, i + 2, b, quote);
      } else {
        assert s[1..] == src[i + 1..b - 1];
        InsideEnds(src, i + 1, b, quote);
      }
    }
  }

  lemma {:induction false} EndsInside(src: string, i: nat, quote: char)
    requires i <= |src| && SkipEnd(src, i, quote).EndAt? && quote != '\\'
    ensures Inside(src[i..SkipEnd(src, i, quote).pos - 1], quote)
    decreases |src| - i
  {
    var b := SkipEnd(src, i, quote).pos;
    var s := src[i..b - 1];
    if src[i] == '\\' && i + 1 < |src| {
      EndsInside(src, i + 2, quote);
      assert s[2..] == src[i + 2..b - 1];
    } else if src[i] != quote {
      EndsInside(src, i + 1, quote);
      assert s[1..] == src[i + 1..b - 1];
    }
  }

  /** What stands at a quote is a whole string exactly where skipping it ends. */
  lemma WholeIsSkip(src: string, a: nat, b: nat)
    requires a < |src| && Quote(src[a])
    ensures Whole(src, a, b) <==> SkipEnd(src, a + 1, src[a]) == EndAt(b)
  {
    if Whole(src, a, b) { InsideEnds(src, a + 1, b, src[a]); }
    if SkipEnd(src, a + 1, src[a]) == EndAt(b) { EndsInside(src, a + 1, src[a]); }
  }

  lemma {:induction false} OpenTail(src: string, cs: seq<nat>, n: nat)
    requires 0 < n < |cs| && forall i :: 0 <= i < |cs| - 1 ==> Unit(src, cs[i], cs[i + 1])
    ensures forall i :: 0 <= i < |cs[1..]| - 1 ==> Unit(src, cs[1..][i], cs[1..][i + 1])
    ensures Open(src, cs, n) == Step(src, cs[0], cs[1]) + Open(src, cs[1..], n - 1)
    decreases n
  {
    hide Unit, Step;
    var rest := cs[1..];
    forall i | 0 <= i < |rest| - 1 ensures Unit(src, rest[i], rest[i + 1]) {
      assert rest[i] == cs[i + 1] && rest[i + 1] == cs[i + 2] && Unit(src, cs[i + 1], cs[i + 1 + 1]);
    }
    if n > 1 {
      OpenTail(src, cs, n - 1);
      assert rest[n - 2] == cs[n - 1] && rest[n - 1] == cs[n];
    }
  }

  // A split that balances, without its first unit.
  lemma BalancesRest(src: string, cs: seq<nat>, j: nat, k: nat, depth: int)
    requires depth > 0 && Balances(src, cs, j, k, depth)
    ensures Unit(src, j, cs[1])
    ensures if depth + Step(src, j, cs[1]) == 0 then cs[1] == k else Balances(src, cs[1..], cs[1], k, depth + Step(src, j, cs[1]))
    ensures depth + Step(src, j, cs[1]) >= 0
  {
    hide Unit;
    assert Unit(src, cs[0], cs[0 + 1]);
    var rest := cs[1..];
    assert Open(src, cs, 1) == Step(src, cs[0], cs[1]) by { assert Open(src, cs, 0) == 0; }
    hide Step;
    if |cs| > 2 {
      forall n | 0 < n < |cs| ensures n - 1 < |rest| && Cuts(src, rest, cs[1], k) && Open(src, rest, n - 1) == Open(src, cs, n) - Step(src, cs[0], cs[1]) {
        OpenTail(src, cs, n);
      }
      forall n | 0 <= n < |rest| - 1 ensures depth + Step(src, j, cs[1]) + Open(src, rest, n) > 0 {
        assert Open(src, rest, n + 1 - 1) == Open(src, cs, n + 1) - Step(src, cs[0], cs[1]);
      }
      assert Open(src, rest, |cs| - 1 - 1) == Open(src, cs, |cs| - 1) - Step(src, cs[0], cs[1]);
      assert depth + Open(src, cs, 1) > 0;
    }
  }

  // And a unit put in front of one.
  lemma BalancesMore(src: string, rest: seq<nat>, j: nat, b: nat, k: nat, depth: int)
    requires depth > 0 && Unit(src, j, b) && Balances(src, rest, b, k, depth + Step(src, j, b))
    ensures Balances(src, [j] + rest, j, k, depth)
  {
    hide Unit, Step;
    var cs := [j] + rest;
    assert cs[1..] == rest;
    forall i | 0 <= i < |cs| - 1 ensures Unit(src, cs[i], cs[i + 1]) {
      if i > 0 { assert Unit(src, rest[i - 1], rest[i - 1 + 1]); }
    }
    forall n | 0 < n < |cs| ensures Open(src, cs, n) == Step(src, j, b) + Open(src, rest, n - 1) { OpenTail(src, cs, n); }
    forall n | 0 <= n < |cs| - 1 ensures depth + Open(src, cs, n) > 0 {
      if n > 0 { assert Open(src, cs, n) == Step(src, j, b) + Open(src, rest, n - 1); }
    }
    assert Open(src, cs, |cs| - 1) == Step(src, j, b) + Open(src, rest, |cs| - 1 - 1);
  }

  lemma BalancesOne(src: string, j: nat, depth: int)
    requires j < |src| && src[j] == '}' && depth == 1
    ensures Balances(src, [j, j + 1], j, j + 1, depth)
  {
    var cs := [j, j + 1];
    assert Unit(src, cs[0], cs[0 + 1]);
    assert Open(src, cs, 1) == Open(src, cs, 0) + Step(src, cs[0], cs[1]);
  }

  lemma {:induction false} EndBalances(src: string, j: nat, depth: int) returns (cs: seq<nat>)
    requires j <= |src| && depth > 0 && CurlyEnd(src, j, depth).EndAt?
    ensures Balances(src, cs, j, CurlyEnd(src, j, depth).pos, depth)
    decreases |src| - j
  {
    hide Balances, Unit, Step;
    if Quote(src[j]) {
      var b := SkipEnd(src, j + 1, src[j]).pos;
      WholeIsSkip(src, j, b);
      WholeUnit(src, j, b);
      var rest := EndBalances(src, b, depth);
      BalancesMore(src, rest, j, b, CurlyEnd(src, j, depth).pos, depth);
      cs := [j] + rest;
    } else {
      ByteUnit(src, j);
      if src[j] == '}' && depth == 1 {
        BalancesOne(src, j, depth);
        cs := [j, j + 1];
      } else {
        var rest := EndBalances(src, j + 1, depth + Step(src, j, j + 1));
        BalancesMore(src, rest, j, j + 1, CurlyEnd(src, j, depth).pos, depth);
        cs := [j] + rest;
      }
    }
  }

  lemma WholeUnit(src: string, a: nat, b: nat)
    requires Whole(src, a, b)
    ensures Unit(src, a, b) && Step(src, a, b) == 0
  {
  }

  lemma ByteUnit(src: string, a: nat)
    requires a < |src| && !Quote(src[a])
    ensures Unit(src, a, a + 1) && Step(src, a, a + 1) == if src[a] == '{' then 1 else if src[a] == '}' then -1 else 0
  {
  }

  // A unit is the whole string at a quote, or the byte.
  lemma UnitIs(src: string, a: nat, b: nat)
    requires Unit(src, a, b)
    ensures a < b <= |src| && (Quote(src[a]) <==> Whole(src, a, b)) && (!Quote(src[a]) ==> b == a + 1)
  {
    hide Inside;
  }

  lemma {:induction false} BalancesEnd(src: string, cs: seq<nat>, j: nat, k: nat, depth: int)
    requires j <= |src| && depth > 0 && Balances(src, cs, j, k, depth)
    ensures CurlyEnd(src, j, depth) == EndAt(k)
    decreases |cs|
  {
    hide Unit, Step;
    BalancesRest(src, cs, j, k, depth);
    var b := cs[1];
    hide Balances;
    UnitIs(src, j, b);
    if Quote(src[j]) {
      WholeIsSkip(src, j, b);
      WholeUnit(src, j, b);
      BalancesEnd(src, cs[1..], b, k, depth);
    } else {
      ByteUnit(src, j);
      if depth + Step(src, j, b) != 0 { BalancesEnd(src, cs[1..], b, k, depth + Step(src, j, b)); }
    }
  }

  /** The brace at i closes behind a split, in front of k. */
  predicate Closes(src: string, cs: seq<nat>, i: nat, k: nat) {
    Balances(src, cs, i + 1, k, 1)
  }

  /**
   The scan of an embedded expression ends behind offset k - 1 exactly where the source splits into
   whole strings and single bytes that are no quotes such that over the bytes the braces, the one at i
   included, close there for the first time. It fails exactly where they close nowhere.
   */
  lemma BraceCloses(src: string, i: nat)
    requires At(src, i, '{')
    ensures forall k: nat :: CurlyEnd(src, i, 0) == EndAt(k) <==> exists cs :: Closes(src, cs, i, k)
    ensures CurlyEnd(src, i, 0).Unclosed? <==> forall k: nat, cs :: !Closes(src, cs, i, k)
  {
    hide Balances;
    if CurlyEnd(src, i, 0).EndAt? {
      var cs := EndBalances(src, i + 1, 1);
      assert Closes(src, cs, i, CurlyEnd(src, i, 0).pos);
    }
    forall k: nat, cs | Closes(src, cs, i, k) ensures CurlyEnd(src, i, 0) == EndAt(k) { BalancesEnd(src, cs, i + 1, k, 1); }
  }
}
