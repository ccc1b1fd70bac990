/** What a token in PHP mode is and where it ends, told by its bytes. */
module TokenShapes {
  import opened Literals
  import opened Tokens

  /** The operators of more than one byte. */
  predicate Sign(op: string) {
    || op in {"===", "!==", "**=", "<<=", ">>="}
    || op in {"**", "<<", ">>", "&=", "|=", "^=", "==", "!=", "<=", ">=", "&&", "||", "->", "=>", "::"}
    || op in {"++", "--", "+=", "-=", "*=", "/=", "%=", ".="}
  }

  lemma SignTable(op: string)
    ensures op in MULTI <==> Sign(op)
  {
  }

  lemma {:induction false} FirstSign(src: string, i: nat, k: nat)
    requires k <= |MULTI|
    ensures
      var op := MultiAt(src, i, MULTI[k..]);
      && (op == "" ==> forall j :: k <= j < |MULTI| ==> !PrefixAt(src, i, MULTI[j]))
      && (op != "" ==> exists m :: k <= m < |MULTI| && op == MULTI[m] && PrefixAt(src, i, op) && forall j :: k <= j < m ==> !PrefixAt(src, i, MULTI[j]))
    decreases |MULTI| - k
  {
    hide PrefixAt;
    if k < |MULTI| {
      FirstSign(src, i, k + 1);
      assert MULTI[k..][1..] == MULTI[k + 1..] && MULTI[k..][0] == MULTI[k];
      NotEmpty(k);
      if !PrefixAt(src, i, MULTI[k]) {
        var op := MultiAt(src, i, MULTI[k + 1..]);
        if op != "" {
          var m :| k + 1 <= m < |MULTI| && op == MULTI[m] && PrefixAt(src, i, op) && forall j :: k + 1 <= j < m ==> !PrefixAt(src, i, MULTI[j]);
        }
      }
    }
  }

  lemma NotEmpty(k: nat)
    requires k < |MULTI|
    ensures |MULTI[k]| == if k < 5 then 3 else 2
  {
  }

  /** Of the operators that stand at an offset the longest is taken. */
  lemma LongestSign(src: string, i: nat)
    ensures
      var op := MultiAt(src, i, MULTI);
      && (op != "" ==> Sign(op) && PrefixAt(src, i, op))
      && forall other :: Sign(other) && PrefixAt(src, i, other) ==> op != "" && |other| <= |op|
  {
    hide PrefixAt, Sign, MultiAt;
    var op := MultiAt(src, i, MULTI);
    FirstSign(src, i, 0);
    assert MULTI[0..] == MULTI;
    if op != "" { SignTable(op); }
    forall other | Sign(other) && PrefixAt(src, i, other) ensures op != "" && |other| <= |op| {
      SignTable(other);
      var k :| 0 <= k < |MULTI| && MULTI[k] == other;
      NotEmpty(k);
      if op != "" {
        var m :| 0 <= m < |MULTI| && op == MULTI[m] && forall j :: 0 <= j < m ==> !PrefixAt(src, i, MULTI[j]);
        NotEmpty(m);
      }
    }
  }

  // ---- runs of bytes ----

  lemma {:induction false} BlankRun(src: string, i: nat)
    requires i <= |src|
    ensures
      var j := BlankEnd(src, i);
      (forall k :: i <= k < j ==> src[k] in {' ', '\t', '\r', '\n'}) && (j < |src| ==> src[j] !in {' ', '\t', '\r', '\n'})
    decreases |src| - i
  {
    if i < |src| && Blank(src[i]) { BlankRun(src, i + 1); }
  }

  lemma {:induction false} IdentRun(src: string, i: nat)
    requires i <= |src|
    ensures
      var j := IdentEnd(src, i);
      (forall k :: i <= k < j ==> IdentPart(src[k])) && (j < |src| ==> !IdentPart(src[j]))
    decreases |src| - i
  {
    if i < |src| && IdentPart(src[i]) { IdentRun(src, i + 1); }
  }

  predicate DigitLike(c: char) {
    '0' <= c <= '9' || c == '_'
  }

  lemma {:induction false} DigitRun(src: string, i: nat)
    requires i <= |src|
    ensures
      var j := DigitEnd(src, i);
      (forall k :: i <= k < j ==> DigitLike(src[k])) && (j < |src| ==> !DigitLike(src[j]))
    decreases |src| - i
  {
    if i < |src| && DigitLike(src[i]) { DigitRun(src, i + 1); }
  }

  /** A digit of the base that letter stands for, or an underscore. */
  predicate InBase(letter: char, c: char) {
    || c == '_'
    || (letter in {'x', 'X'} && ('0' <= c <= '9' || 'a' <= c <= 'f' || 'A' <= c <= 'F'))
    || (letter in {'b', 'B'} && '0' <= c <= '1')
    || (letter in {'o', 'O'} && '0' <= c <= '7')
  }

  lemma {:induction false} BaseRun(src: string, i: nat, letter: char)
    requires i <= |src| && Prefixed(letter)
    ensures
      var j := BaseEnd(src, i, letter);
      (forall k :: i <= k < j ==> InBase(letter, src[k])) && (j < |src| ==> !InBase(letter, src[j]))
    decreases |src| - i
  {
    if i < |src| && InBase(letter, src[i]) { BaseRun(src, i + 1, letter); }
  }

  predicate LineStop(src: string, i: nat) {
    At(src, i, '\n') || (At(src, i, '?') && At(src, i + 1, '>'))
  }

  lemma {:induction false} LineRun(src: string, i: nat)
    requires i <= |src|
    ensures
      var j := LineEnd(src, i);
      (forall k :: i <= k < j ==> !LineStop(src, k)) && (j < |src| ==> LineStop(src, j))
    decreases |src| - i
  {
    if i < |src| {
      Pair(src, i, "?>");
      if !LineStop(src, i) { LineRun(src, i + 1); }
    }
  }

  lemma Pair(src: string, i: nat, p: string)
    requires |p| == 2
    ensures PrefixAt(src, i, p) <==> At(src, i, p[0]) && At(src, i + 1, p[1])
  {
    if i + 2 <= |src| { assert src[i..i + 2] == [src[i], src[i + 1]]; }
  }

  lemma {:induction false} MarkFirst(src: string, i: nat, mark: string)
    requires i <= |src|
    ensures
      var j := MarkAt(src, i, mark);
      (forall k :: i <= k < j ==> !PrefixAt(src, k, mark)) && (j < |src| ==> PrefixAt(src, j, mark))
    decreases |src| - i
  {
    hide PrefixAt;
    if i < |src| && !PrefixAt(src, i, mark) { MarkFirst(src, i + 1, mark); }
  }

  // ---- numbers ----

  /** A digit, and digits and underscores behind it. */
  predicate DigitsAt(src: string, a: nat, b: nat) {
    a < b <= |src| && '0' <= src[a] <= '9' && forall k :: a <= k < b ==> DigitLike(src[k])
  }

  predicate FractionAt(src: string, a: nat, b: nat) {
    a < b <= |src| && src[a] == '.' && forall k :: a < k < b ==> DigitLike(src[k])
  }

  predicate ExponentAt(src: string, a: nat, b: nat) {
    && a + 1 < b <= |src| && (src[a] == 'e' || src[a] == 'E')
    && (DigitsAt(src, a + 1, b) || ((src[a + 1] == '+' || src[a + 1] == '-') && DigitsAt(src, a + 2, b)))
  }

  /** Digits, then a fraction or none up to q, then an exponent or none. */
  predicate DecimalAt(src: string, i: nat, p: nat, q: nat, j: nat) {
    && DigitsAt(src, i, p) && (p == q || FractionAt(src, p, q))
    && ((q == j && q <= |src|) || ExponentAt(src, q, j))
  }

  predicate BasedAt(src: string, i: nat, j: nat) {
    && i + 2 < j <= |src| && src[i] == '0' && src[i + 1] in {'x', 'X', 'b', 'B', 'o', 'O'}
    && forall k :: i + 2 <= k < j ==> InBase(src[i + 1], src[k])
  }

  /** A number stands from i up to j, a float if it has a fraction or an exponent. */
  ghost predicate NumberAt(src: string, i: nat, j: nat, float: bool) {
    || (BasedAt(src, i, j) && !float)
    || exists p: nat, q: nat :: DecimalAt(src, i, p, q, j) && (float <==> p < j)
  }

  lemma BasedNumber(src: string, i: nat, j: nat)
    requires i + 1 < |src| && src[i] == '0' && Prefixed(src[i + 1]) && BaseEnd(src, i + 2, src[i + 1]) > i + 2
    ensures BasedAt(src, i, BaseEnd(src, i + 2, src[i + 1]))
    ensures BasedAt(src, i, j) ==> j <= BaseEnd(src, i + 2, src[i + 1])
    ensures forall p: nat, q: nat :: DecimalAt(src, i, p, q, j) ==> j <= i + 1
  {
    hide BaseEnd;
    BaseRun(src, i + 2, src[i + 1]);
    hide InBase, DigitsAt, FractionAt, ExponentAt;
    forall p: nat, q: nat | DecimalAt(src, i, p, q, j) ensures j <= i + 1 { AfterZero(src, i, p, q, j); }
  }

  lemma AfterZero(src: string, i: nat, p: nat, q: nat, j: nat)
    requires i + 1 < |src| && Prefixed(src[i + 1]) && DecimalAt(src, i, p, q, j)
    ensures j <= i + 1
  {
    hide ExponentAt;
    DigitsStop(src, i, p, i + 1);
    NoExponent(src, q, j);
  }

  // Digits end in front of what is none.
  lemma DigitsStop(src: string, a: nat, b: nat, n: nat)
    requires DigitsAt(src, a, b) && a < n && (n < |src| ==> !DigitLike(src[n]))
    ensures b <= n
  {
  }

  lemma FractionStops(src: string, a: nat, b: nat, n: nat)
    requires FractionAt(src, a, b) && a < n && (n < |src| ==> !DigitLike(src[n]))
    ensures b <= n
  {
  }

  lemma NoExponent(src: string, q: nat, j: nat)
    requires q < |src| && src[q] != 'e' && src[q] != 'E'
    ensures !ExponentAt(src, q, j)
  {
  }

  lemma NotBased(src: string, i: nat, j: nat)
    requires i < |src| && !(src[i] == '0' && i + 1 < |src| && Prefixed(src[i + 1]) && BaseEnd(src, i + 2, src[i + 1]) > i + 2)
    ensures !BasedAt(src, i, j)
  {
    if i + 1 < |src| && Prefixed(src[i + 1]) && i + 2 <= |src| {
      hide BaseEnd, InBase;
      BaseRun(src, i + 2, src[i + 1]);
    }
  }

  // The digits, the fraction and the exponent of the longest decimal number.
  lemma DecimalEnd(src: string, i: nat) returns (p: nat, q: nat, j: nat)
    requires i < |src| && Digit(src[i])
    ensures p == DigitEnd(src, i + 1) && q == if At(src, p, '.') then DigitEnd(src, p + 1) else p
    ensures
      j == if At(src, q, 'e') || At(src, q, 'E') then
        var e := if At(src, q + 1, '+') || At(src, q + 1, '-') then q + 2 else q + 1;
        (if e < |src| && Digit(src[e]) then DigitEnd(src, e) else q) else q
    ensures DecimalAt(src, i, p, q, j) && i < p <= q <= j <= |src|
    ensures forall a: nat, b: nat, n: nat :: DecimalAt(src, i, a, b, n) ==> n <= j
  {
    hide DigitEnd;
    p := DigitEnd(src, i + 1);
    DigitRun(src, i + 1);
    q := if At(src, p, '.') then DigitEnd(src, p + 1) else p;
    if At(src, p, '.') { DigitRun(src, p + 1); }
    var e := if At(src, q + 1, '+') || At(src, q + 1, '-') then q + 2 else q + 1;
    j := q;
    if At(src, q, 'e') || At(src, q, 'E') {
      if e < |src| && Digit(src[e]) {
        DigitRun(src, e);
        j := DigitEnd(src, e);
        DigitsMove(src, e);
        assert ExponentAt(src, q, j);
      }
    }
    forall a: nat, b: nat, n: nat | DecimalAt(src, i, a, b, n) ensures n <= j { NoLonger(src, i, p, q, e, j, a, b, n); }
  }

  lemma DigitsMove(src: string, e: nat)
    requires e < |src| && Digit(src[e])
    ensures DigitEnd(src, e) > e
  {
  }

  lemma NoLonger(src: string, i: nat, p: nat, q: nat, e: nat, j: nat, a: nat, b: nat, n: nat)
    requires i < p <= q <= j <= |src| && DecimalAt(src, i, a, b, n)
    requires p < |src| ==> !DigitLike(src[p])
    requires forall k :: i < k < p ==> DigitLike(src[k])
    requires if At(src, p, '.') then (forall k :: p < k < q ==> DigitLike(src[k])) && (q < |src| ==> !DigitLike(src[q])) && p < q else q == p
    requires e == if At(src, q + 1, '+') || At(src, q + 1, '-') then q + 2 else q + 1
    requires
      if (At(src, q, 'e') || At(src, q, 'E')) && e < |src| && Digit(src[e]) then j < |src| ==> !DigitLike(src[j])
      else j == q
    requires (At(src, q, 'e') || At(src, q, 'E')) && e < |src| && Digit(src[e]) ==> e < j
    ensures n <= j
  {
    hide ExponentAt, DigitsAt, FractionAt;
    InOrder(src, i, a, b, n);
    DigitsStop(src, i, a, p);
    if a < p {
      EndsEarly(src, i, a, b, n);
    } else if b < q {
      DotEndsEarly(src, a, b, n, q);
    } else {
      if b > p { FractionStops(src, p, b, q); }
      if b != n { ExponentStops(src, q, n, e, j); }
    }
  }

  lemma InOrder(src: string, i: nat, a: nat, b: nat, n: nat)
    requires DecimalAt(src, i, a, b, n)
    ensures i < a <= b <= n <= |src| && (a < b ==> At(src, a, '.'))
  {
  }

  // Where digits go on, a number that stops among them has no more parts.
  lemma EndsEarly(src: string, i: nat, a: nat, b: nat, n: nat)
    requires DecimalAt(src, i, a, b, n) && a < |src| && DigitLike(src[a])
    ensures n == a
  {
  }

  lemma DotEndsEarly(src: string, p: nat, b: nat, n: nat, q: nat)
    requires (p == b || FractionAt(src, p, b)) && ((b == n && b <= |src|) || ExponentAt(src, b, n))
    requires p < q <= |src| && src[p] == '.' && b < q && forall k :: p < k < q ==> DigitLike(src[k])
    ensures n == b
  {
    NoExponent(src, b, n);
  }

  lemma ExponentStops(src: string, q: nat, n: nat, e: nat, j: nat)
    requires ExponentAt(src, q, n) && q <= j
    requires e == if At(src, q + 1, '+') || At(src, q + 1, '-') then q + 2 else q + 1
    requires (At(src, q, 'e') || At(src, q, 'E')) && e < |src| && Digit(src[e]) ==> e < j && (j < |src| ==> !DigitLike(src[j]))
    ensures n <= j
  {
    if DigitsAt(src, q + 1, n) { DigitsStop(src, q + 1, n, j); } else { DigitsStop(src, q + 2, n, j); }
  }

  /** A number is read as far as any number reaches. */
  lemma NumberIs(src: string, i: nat)
    requires i < |src| && Digit(src[i])
    ensures
      var r := NumberEnd(src, i);
      && r.0 <= |src| && NumberAt(src, i, r.0, r.1)
      && forall j: nat, float :: NumberAt(src, i, j, float) ==> j <= r.0
  {
    hide BaseEnd, DigitEnd, DecimalAt, BasedAt;
    if src[i] == '0' && i + 1 < |src| && Prefixed(src[i + 1]) && BaseEnd(src, i + 2, src[i + 1]) > i + 2 {
      forall j: nat, float | NumberAt(src, i, j, float) ensures j <= NumberEnd(src, i).0 { BasedNumber(src, i, j); }
      BasedNumber(src, i, 0);
    } else {
      var p, q, j := DecimalEnd(src, i);
      assert NumberEnd(src, i) == (j, p < j) by { FloatIs(src, i, p, q, j); }
      assert DecimalAt(src, i, p, q, j);
      forall n: nat, float | NumberAt(src, i, n, float) ensures n <= j { NotBased(src, i, n); }
    }
  }

  lemma FloatIs(src: string, i: nat, p: nat, q: nat, j: nat)
    requires i < |src| && Digit(src[i]) && p == DigitEnd(src, i + 1) && q == if At(src, p, '.') then DigitEnd(src, p + 1) else p
    requires !(src[i] == '0' && i + 1 < |src| && Prefixed(src[i + 1]) && BaseEnd(src, i + 2, src[i + 1]) > i + 2)
    requires
      j == if At(src, q, 'e') || At(src, q, 'E') then
        var e := if At(src, q + 1, '+') || At(src, q + 1, '-') then q + 2 else q + 1;
        (if e < |src| && Digit(src[e]) then DigitEnd(src, e) else q) else q
    ensures NumberEnd(src, i) == (j, p < j)
  {
    if At(src, q, 'e') || At(src, q, 'E') {
      var e := if At(src, q + 1, '+') || At(src, q + 1, '-') then q + 2 else q + 1;
      if e < |src| && Digit(src[e]) { DigitsMove(src, e); }
    }
  }

  // ---- one token ----

  predicate LineCommentAt(src: string, i: nat, j: nat) {
    && i < j <= |src| && (src[i] == '#' || (src[i] == '/' && At(src, i + 1, '/')))
    && (forall k :: i < k < j ==> !LineStop(src, k)) && (j < |src| ==> LineStop(src, j))
  }

  /** Up to the first closing mark, or to the end of a source without one. */
  predicate BlockCommentAt(src: string, i: nat, j: nat) {
    && i + 2 <= j <= |src| && src[i] == '/' && src[i + 1] == '*'
    && (forall k :: i + 2 <= k < j - 2 ==> !PrefixAt(src, k, "*/"))
    && ((i + 4 <= j && PrefixAt(src, j - 2, "*/")) || (j == |src| && forall k :: i + 2 <= k < |src| ==> !PrefixAt(src, k, "*/")))
  }

  predicate NameAt(src: string, i: nat, from: nat, j: nat) {
    i < j <= |src| && (forall k :: from <= k < j ==> IdentPart(src[k])) && (j < |src| ==> !IdentPart(src[j]))
  }

  /** The token is what stands from i up to j. */
  ghost predicate Shaped(src: string, i: nat, t: Token, j: nat)
    requires i < |src|
  {
    match t
    case Tok(CloseTag, text) =>
      At(src, i, '?') && At(src, i + 1, '>') && text == (if At(src, i + 2, '\n') then "?>\n" else "?>") && j == i + |text|
    case Tok(Whitespace, text) =>
      && i < j <= |src| && text == src[i..j]
      && (forall k :: i <= k < j ==> src[k] in {' ', '\t', '\r', '\n'}) && (j < |src| ==> src[j] !in {' ', '\t', '\r', '\n'})
    case Tok(Comment, text) => j <= |src| && i <= j && text == src[i..j] && (LineCommentAt(src, i, j) || BlockCommentAt(src, i, j))
    case Tok(Variable, text) => src[i] == '$' && NameAt(src, i, i + 1, j) && text == src[i..j]
    case Tok(Word, text) => IdentStart(src[i]) && NameAt(src, i, i, j) && text == src[i..j]
    case Tok(IntNumber, text) => Longest(src, i, j, false) && i <= j <= |src| && text == src[i..j]
    case Tok(FloatNumber, text) => Longest(src, i, j, true) && i <= j <= |src| && text == src[i..j]
    case Tok(Operator, text) =>
      && Sign(text) && PrefixAt(src, i, text) && j == i + |text|
      && (forall other :: Sign(other) && PrefixAt(src, i, other) ==> |other| <= |text|)
    case Char(text) =>
      && j == i + 1 && text == Encoded(src[i]) && (forall other :: Sign(other) ==> !PrefixAt(src, i, other))
      && !(At(src, i, '?') && At(src, i + 1, '>')) && src[i] !in {' ', '\t', '\r', '\n', '#', '$'} && !IdentStart(src[i]) && !Digit(src[i])
      && !(src[i] == '/' && (At(src, i + 1, '/') || At(src, i + 1, '*')))
    case _ => false
  }

  ghost predicate Longest(src: string, i: nat, j: nat, float: bool) {
    && i < |src| && Digit(src[i]) && NumberAt(src, i, j, float)
    && forall n: nat, f :: NumberAt(src, i, n, f) ==> n <= j
  }

  // What a step reads has that shape, and only a closing tag leaves PHP.
  ghost predicate Told(src: string, i: nat, s: Step)
    requires i < |src|
  {
    |s.toks| == 1 && Shaped(src, i, s.toks[0], s.next) && (s.php <==> s.toks[0].Char? || s.toks[0].id != CloseTag)
  }

  lemma CloseTold(src: string, i: nat)
    requires i < |src| && !Quote(src[i]) && PrefixAt(src, i, "?>")
    ensures Told(src, i, PhpStep(src, i))
  {
    Pair(src, i, "?>");
    hide PrefixAt, BlankEnd, LineEnd, MarkAt, IdentEnd, NumberEnd, MultiAt, Sign, Longest;
  }

  lemma BlankTold(src: string, i: nat)
    requires i < |src| && !Quote(src[i]) && Blank(src[i])
    ensures Told(src, i, PhpStep(src, i))
  {
    hide BlankEnd, LineEnd, MarkAt, IdentEnd, NumberEnd, MultiAt, Sign, Longest;
    Pair(src, i, "?>");
    BlankRun(src, i + 1);
  }

  lemma LineTold(src: string, i: nat)
    requires i < |src| && (src[i] == '#' || PrefixAt(src, i, "//"))
    ensures Told(src, i, PhpStep(src, i))
  {
    hide BlankEnd, LineEnd, MarkAt, IdentEnd, NumberEnd, MultiAt, Sign, Longest, LineStop, BlockCommentAt;
    Pair(src, i, "?>");
    Pair(src, i, "//");
    LineRun(src, i + 1);
  }

  lemma BlockTold(src: string, i: nat)
    requires i < |src| && PrefixAt(src, i, "/*")
    ensures Told(src, i, PhpStep(src, i))
  {
    hide BlankEnd, LineEnd, MarkAt, IdentEnd, NumberEnd, MultiAt, Sign, Longest, LineCommentAt, BlockCommentAt;
    Pair(src, i, "?>");
    Pair(src, i, "//");
    Pair(src, i, "/*");
    BlockRun(src, i);
  }

  lemma NameTold(src: string, i: nat)
    requires i < |src| && !Quote(src[i]) && (src[i] == '$' || IdentStart(src[i]))
    ensures Told(src, i, PhpStep(src, i))
  {
    hide BlankEnd, LineEnd, MarkAt, IdentEnd, NumberEnd, MultiAt, Sign, Longest, IdentPart;
    Pair(src, i, "?>");
    Pair(src, i, "//");
    Pair(src, i, "/*");
    IdentRun(src, i + 1);
    if src[i] != '$' { StartIsPart(src[i]); }
  }

  lemma NumberTold(src: string, i: nat)
    requires i < |src| && Digit(src[i])
    ensures Told(src, i, PhpStep(src, i))
  {
    hide BlankEnd, LineEnd, MarkAt, IdentEnd, NumberEnd, MultiAt, Sign, Longest, NumberAt;
    Pair(src, i, "?>");
    Pair(src, i, "//");
    Pair(src, i, "/*");
    NumberIs(src, i);
    Most(src, i);
  }

  lemma SignTold(src: string, i: nat)
    requires i < |src| && !Quote(src[i]) && !PrefixAt(src, i, "?>") && !Blank(src[i]) && src[i] != '#' && src[i] != '$'
    requires !PrefixAt(src, i, "//") && !PrefixAt(src, i, "/*") && !IdentStart(src[i]) && !Digit(src[i])
    ensures Told(src, i, PhpStep(src, i))
  {
    hide PrefixAt, BlankEnd, LineEnd, MarkAt, IdentEnd, NumberEnd, MultiAt, Sign, Longest, IdentStart, Encoded;
    Pair(src, i, "?>");
    Pair(src, i, "//");
    Pair(src, i, "/*");
    LongestSign(src, i);
  }

  /** At anything but a quote one token is read; its kind and its end are told by the bytes alone. */
  lemma StepIs(src: string, i: nat)
    requires i < |src| && !Quote(src[i])
    ensures
      var s := PhpStep(src, i);
      |s.toks| == 1 && Shaped(src, i, s.toks[0], s.next) && (s.php <==> s.toks[0].Char? || s.toks[0].id != CloseTag)
  {
    hide PhpStep, PrefixAt, Shaped, IdentStart;
    if PrefixAt(src, i, "?>") { CloseTold(src, i); }
    else if Blank(src[i]) { BlankTold(src, i); }
    else if src[i] == '#' || PrefixAt(src, i, "//") { LineTold(src, i); }
    else if PrefixAt(src, i, "/*") { BlockTold(src, i); }
    else if src[i] == '$' || IdentStart(src[i]) { NameTold(src, i); }
    else if Digit(src[i]) { NumberTold(src, i); }
    else { SignTold(src, i); }
  }

  lemma StartIsPart(c: char)
    requires IdentStart(c)
    ensures IdentPart(c)
  {
  }

  lemma Most(src: string, i: nat)
    requires i < |src| && Digit(src[i]) && NumberAt(src, i, NumberEnd(src, i).0, NumberEnd(src, i).1)
    requires forall j: nat, float :: NumberAt(src, i, j, float) ==> j <= NumberEnd(src, i).0
    ensures Longest(src, i, NumberEnd(src, i).0, NumberEnd(src, i).1)
  {
    hide NumberAt, NumberEnd;
  }

  lemma BlockRun(src: string, i: nat)
    requires i + 2 <= |src| && src[i] == '/' && src[i + 1] == '*'
    ensures var j := MarkAt(src, i + 2, "*/"); BlockCommentAt(src, i, if j + 2 <= |src| then j + 2 else |src|)
  {
    hide MarkAt;
    MarkFirst(src, i + 2, "*/");
  }

  /** The opening tag at h, with one blank behind `<?php`. */
  function OpenTagAt(src: string, h: nat): string
    requires PrefixAt(src, h, "<?")
  {
    if !PrefixAt(src, h, "<?php") then "<?"
    else if h + 5 < |src| && src[h + 5] in {' ', '\t', '\r', '\n'} then src[h..h + 6]
    else "<?php"
  }

  /** Outside PHP everything up to the first opening tag is text, and the tag enters PHP. */
  lemma HtmlIs(src: string, i: nat)
    requires i < |src|
    ensures
      var s := HtmlStep(src, i);
      if forall k :: i <= k < |src| ==> !PrefixAt(src, k, "<?") then s == Step([Tok(InlineHtml, src[i..])], |src|, false)
      else
        exists h ::
          && i <= h < |src| && PrefixAt(src, h, "<?") && (forall k :: i <= k < h ==> !PrefixAt(src, k, "<?"))
          && s.toks == (if i < h then [Tok(InlineHtml, src[i..h])] else []) + [Tok(OpenTag, OpenTagAt(src, h))]
          && s.next == h + |OpenTagAt(src, h)| && s.php
  {
    hide HtmlStep, OpenTagAt, PrefixAt, MarkAt;
    MarkFirst(src, i, "<?");
    var h := MarkAt(src, i, "<?");
    if h == |src| { NoTagStep(src, i); } else { TagStep(src, i, h); }
  }

  lemma NoTagStep(src: string, i: nat)
    requires i < |src| && MarkAt(src, i, "<?") == |src|
    ensures HtmlStep(src, i) == Step([Tok(InlineHtml, src[i..])], |src|, false)
  {
    hide MarkAt;
    assert src[i..|src|] == src[i..];
  }

  lemma TagStep(src: string, i: nat, h: nat)
    requires i <= h < |src| && MarkAt(src, i, "<?") == h && PrefixAt(src, h, "<?")
    ensures
      HtmlStep(src, i) ==
        Step((if i < h then [Tok(InlineHtml, src[i..h])] else []) + [Tok(OpenTag, OpenTagAt(src, h))], h + |OpenTagAt(src, h)|, true)
  {
    hide MarkAt;
    if PrefixAt(src, h, "<?php") && h + 5 < |src| { SixBytes(src, h); }
  }

  lemma SixBytes(src: string, h: nat)
    requires h + 5 < |src| && PrefixAt(src, h, "<?php")
    ensures src[h..h + 6] == "<?php" + [src[h + 5]]
  {
    assert src[h..h + 6] == src[h..h + 5] + [src[h + 5]];
  }

  // ---- the tokens of an embedded variable ----

  /** A subscript is a variable, a number, or a bare word, by how it starts. A sign is a token of its own. */
  lemma SubscriptIs(sub: string)
    requires sub != ""
    ensures
      var ts := Subscript(sub);
      && (sub[0] == '$' <==> ts == [Tok(Variable, sub)])
      && (sub[0] == '-' <==> ts == [Char("-"), Tok(NumString, sub[1..])])
      && (Digit(sub[0]) <==> ts == [Tok(NumString, sub)])
      && (ts == [Tok(Word, sub)] <==> sub[0] != '$' && sub[0] != '-' && !Digit(sub[0]))
  {
  }

  /** Behind the variable stands its property, or its subscript in brackets, and nothing where it has neither. */
  lemma EmbeddedIs(src: string, p: Part)
    requires p.Simple? && p.from < p.to <= |src|
    ensures
      var ts := PartToks(src, p);
      && ts[0] == Tok(Variable, "$" + p.name)
      && (p.prop != "" ==> ts[1..] == [Tok(Operator, "->"), Tok(Word, p.prop)])
      && (p.prop == "" && p.sub == "" ==> |ts| == 1)
      && (p.prop == "" && p.sub != "" ==> ts[1..] == [Char("[")] + Subscript(p.sub) + [Char("]")])
  {
    hide Subscript, Toks;
  }

  // ---- the alphabet ----

  /** Places 48, 65 and 97 of ASCII start the ten digits and the letters. Behind ASCII a byte is read as Latin-1. */
  lemma Alphabet(c: char)
    ensures
      var n := c as int;
      && (Digit(c) <==> 0 <= n - 48 < 10)
      && (OctDigit(c) <==> 0 <= n - 48 < 8)
      && (HexDigit(c) <==> Digit(c) || 0 <= n - 65 < 6 || 0 <= n - 97 < 6)
      && (n < 128 ==> (IdentStart(c) <==> n == 95 || 0 <= n - 65 < 26 || 0 <= n - 97 < 26))
      && (128 <= n < 256 ==> (IdentStart(c) <==> n in {0xAA, 0xB5, 0xBA} || (n >= 0xC0 && n != 0xD7 && n != 0xF7)))
      && (IdentPart(c) <==> IdentStart(c) || Digit(c))
  {
  }
}
