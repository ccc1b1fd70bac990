/**
 What the printer gives back of the tokens a tree was read from: never more than were there, and
 all of them where the source holds nothing the tree does not keep.
 */
module Verbatim {
  import opened Syntax
  import opened Printer
  import opened Grammar
  import opened Shape

  /** The dynamic members of e that lose the braces they need when they are printed. */
  function Lost(e: Expr): nat
    decreases e
  {
    match e
    case Paren(x) => Lost(x)
    case Append(base) => Lost(base)
    case Index(base, key) => Lost(base) + Lost(key)
    case Prop(base, m) => Lost(base) + LostProp(m)
    case Method(base, m, args) => Lost(base) + LostMethod(m) + LostArgs(args)
    case Call(_, args) => LostArgs(args)
    case Invoke(base, args) => Lost(base) + LostArgs(args)
    case Prefix(_, x) => Lost(x)
    case Postfix(_, base) => Lost(base)
    case Cast(_, x) => Lost(x)
    case Binary(_, l, r) => Lost(l) + Lost(r)
    case Coalesce(l, r, _) => Lost(l) + Lost(r)
    case Ternary(c, t, f) => Lost(c) + Lost(t) + Lost(f)
    case Assign(t, op, v) => Lost(t) + (if ReadsTarget(op, v) then Lost(v.right) else Lost(v))
    case _ => 0
  }

  function LostProp(m: Member): nat
    decreases m
  {
    match m
    case Named(_) => 0
    case Dynamic(x) => Lost(x) + (if (Unwrap(x).Var? || Unwrap(x).Const?) && !x.Var? then 1 else 0)
  }

  function LostMethod(m: Member): nat
    decreases m
  {
    match m
    case Named(_) => 0
    case Dynamic(x) => Lost(x) + (if x.Var? then 0 else 1)
  }

  function LostArgs(args: Args): nat
    decreases args
  {
    match args
    case FirstClass => 0
    case Args(es) => LostList(es)
  }

  function LostList(es: seq<Expr>): nat
    decreases es
  {
    if es == [] then 0 else Lost(es[0]) + LostList(es[1..])
  }

  /** The printer's spelling of the keywords it writes itself. */
  predicate Canonical(t: Token) {
    t.TIdent? ==>
      && t.name !in {"TRUE", "True", "FALSE", "False", "NULL", "Null"}
      && (WordLevel(t) >= 0 ==> t == TIdent(WordName(WordLevel(t))))
  }

  /** A variable or the name of a constant, in parentheses or not. */
  predicate WrapsName(s: seq<Token>)
    decreases |s|
  {
    || (|s| == 1 && (s[0].TVar? || (s[0].TIdent? && KeywordLiteral(s[0].name) == [])))
    || (|s| > 2 && s[0] == TOp(LParen) && s[|s| - 1] == TOp(RParen) && WrapsName(s[1..|s| - 1]))
  }

  /** No `? :` without an operand in between. */
  ghost predicate NoShort(toks: seq<Token>, i: nat, n: nat) {
    n <= |toks| && forall k :: i <= k && k + 1 < n ==> !(toks[k] == TOp(Question) && toks[k + 1] == TOp(Colon))
  }

  /** Token k leaves no trace of its own in a tree: it is left out or respelled. */
  predicate Dropped(toks: seq<Token>, k: nat, n: nat)
    requires k < n <= |toks|
  {
    LeftOut(toks, k, n) || !Canonical(toks[k])
  }

  /** Braces around nothing but a name. */
  predicate NameBraces(toks: seq<Token>, k: nat, m: nat)
    requires k < m < |toks|
  {
    toks[k] == TOp(LBrace) && toks[m] == TOp(RBrace) && WrapsName(toks[k + 1..m])
  }

  /** Token k stands where the printer leaves it out, on its own or with the token behind it. */
  predicate LeftOut(toks: seq<Token>, k: nat, n: nat)
    requires k < n <= |toks|
  {
    || toks[k] == TOp(Silence)
    || (k + 1 < n && toks[k] == TOp(Question) && toks[k + 1] == TOp(Colon))
    || (k + 1 < n && toks[k] == TOp(Comma) && toks[k + 1] == TOp(RParen))
    || (k + 1 < n && toks[k] == TOp(RBrace) && toks[k + 1] == TOp(LParen))
  }

  /** No `@`, no short ternary, no comma in front of `)`, no braced method name and no braces around a name. */
  ghost predicate Kept(toks: seq<Token>, i: nat, n: nat) {
    && n <= |toks|
    && (forall k :: i <= k < n ==> !LeftOut(toks, k, n))
    && (forall k, m :: i <= k < m < n ==> !NameBraces(toks, k, m))
  }

  /** Every keyword is spelled as the printer spells it. */
  predicate AllCanonical(toks: seq<Token>, i: nat, n: nat) {
    n <= |toks| && forall k :: i <= k < n ==> Canonical(toks[k])
  }

  /** The tokens from i up to n hold nothing the printer leaves out or respells. */
  ghost predicate Spelled(toks: seq<Token>, i: nat, n: nat) {
    && n <= |toks|
    && (forall k :: i <= k < n ==> !Dropped(toks, k, n))
    && (forall k, m :: i <= k < m < n ==> !NameBraces(toks, k, m))
  }

  lemma SpelledPart(toks: seq<Token>, i: nat, n: nat, a: nat, b: nat)
    requires Spelled(toks, i, n) && i <= a <= b <= n
    ensures Spelled(toks, a, b)
  {
    forall k | a <= k < b ensures !Dropped(toks, k, b) {
      assert !Dropped(toks, k, n);
      hide Canonical;
    }
  }

  /** The printed tokens p of what was read from i up to n, which lost that many braces. */
  ghost predicate Faithful(toks: seq<Token>, i: nat, n: nat, p: seq<Token>, lost: nat) {
    && i <= n <= |toks|
    && (NoShort(toks, i, n) ==> |p| + lost <= n - i)
    && (Spelled(toks, i, n) ==> p == toks[i..n])
  }

  ghost predicate Reads(toks: seq<Token>, i: nat, n: nat, e: Expr) {
    Faithful(toks, i, n, Print(e), Lost(e))
  }

  lemma Join(toks: seq<Token>, i: nat, j: nat, n: nat, a: seq<Token>, b: seq<Token>, la: nat, lb: nat)
    requires Faithful(toks, i, j, a, la) && Faithful(toks, j, n, b, lb)
    ensures Faithful(toks, i, n, a + b, la + lb)
  {
    hide Dropped, NameBraces;
    if NoShort(toks, i, n) {
      assert NoShort(toks, i, j) && NoShort(toks, j, n);
    }
    if Spelled(toks, i, n) {
      SpelledPart(toks, i, n, i, j);
      SpelledPart(toks, i, n, j, n);
      assert toks[i..n] == toks[i..j] + toks[j..n];
    }
  }

  lemma JoinToken(toks: seq<Token>, i: nat, j: nat, a: seq<Token>, t: Token, lost: nat)
    requires Faithful(toks, i, j, a, lost) && j < |toks| && (Canonical(toks[j]) ==> toks[j] == t)
    ensures Faithful(toks, i, j + 1, a + [t], lost)
  {
    TokenItself(toks, j, t);
    Join(toks, i, j, j + 1, a, [t], lost, 0);
  }

  lemma TokenItself(toks: seq<Token>, i: nat, t: Token)
    requires i < |toks| && (Canonical(toks[i]) ==> toks[i] == t)
    ensures Faithful(toks, i, i + 1, [t], 0)
  {
    hide Canonical, NameBraces;
    assert toks[i..i + 1] == [toks[i]];
    assert Spelled(toks, i, i + 1) ==> !Dropped(toks, i, i + 1);
  }

  lemma Infix(toks: seq<Token>, i: nat, j: nat, n: nat, a: seq<Token>, t: Token, b: seq<Token>, la: nat, lb: nat)
    requires Faithful(toks, i, j, a, la) && j < |toks| && (Canonical(toks[j]) ==> toks[j] == t)
    requires Faithful(toks, j + 1, n, b, lb)
    ensures Faithful(toks, i, n, a + [t] + b, la + lb)
  {
    hide *;
    JoinToken(toks, i, j, a, t, la);
    Join(toks, i, j + 1, n, a + [t], b, la, lb);
  }

  lemma Leading(toks: seq<Token>, i: nat, n: nat, b: seq<Token>, lost: nat)
    requires i < |toks| && Faithful(toks, i + 1, n, b, lost)
    ensures Faithful(toks, i, n, [toks[i]] + b, lost)
  {
    hide *;
    TokenItself(toks, i, toks[i]);
    Join(toks, i, i + 1, n, [toks[i]], b, 0, lost);
  }

  /** A token that leaves no trace in front of a tree. */
  lemma Silent(toks: seq<Token>, i: nat, n: nat, p: seq<Token>, lost: nat)
    requires i < |toks| && toks[i] == TOp(Silence) && Faithful(toks, i + 1, n, p, lost)
    ensures Faithful(toks, i, n, p, lost)
  {
    hide NameBraces;
    assert Dropped(toks, i, n);
    assert NoShort(toks, i, n) ==> NoShort(toks, i + 1, n);
  }

  // ---- one rule for each way a tree is built ----

  lemma ReadsBinary(toks: seq<Token>, s: nat, i: nat, n: nat, op: BinOp, l: Expr, r: Expr)
    requires Reads(toks, s, i, l) && i < |toks| && Reads(toks, i + 1, n, r)
    requires Canonical(toks[i]) ==> toks[i] == BinToken(op)
    ensures Reads(toks, s, n, Binary(op, l, r))
  {
    hide Faithful, BinToken, Canonical;
    Infix(toks, s, i, n, Print(l), BinToken(op), Print(r), Lost(l), Lost(r));
  }

  lemma ReadsCoalesce(toks: seq<Token>, s: nat, i: nat, n: nat, l: Expr, r: Expr)
    requires Reads(toks, s, i, l) && i < |toks| && toks[i] == TOp(Coal) && Reads(toks, i + 1, n, r)
    ensures Reads(toks, s, n, Coalesce(l, r, false))
  {
    hide Faithful, Canonical;
    Infix(toks, s, i, n, Print(l), TOp(Coal), Print(r), Lost(l), Lost(r));
  }

  lemma ReadsAssign(toks: seq<Token>, s: nat, i: nat, n: nat, target: Expr, value: Expr, r: Parse<Expr>)
    requires Reads(toks, s, i, target) && i < |toks| && AssignOp(toks[i]) && Reads(toks, i + 1, n, value)
    requires r == AssignExpr(target, toks[i].op, value, n) && r.Ok? && !(value.Coalesce? && value.assign)
    ensures Reads(toks, s, n, r.value)
  {
    hide Faithful, Canonical, Print, Lost, Unwrap;
    Infix(toks, s, i, n, Print(target), toks[i], Print(value), Lost(target), Lost(value));
    AssignPrints(target, toks[i].op, value, n);
  }

  /** An assignment prints as its target, the operator that was read and its value. */
  lemma AssignPrints(target: Expr, op: Op, value: Expr, n: nat)
    requires AssignExpr(target, op, value, n).Ok? && !(value.Coalesce? && value.assign)
    ensures
      var e := AssignExpr(target, op, value, n).value;
      Print(e) == Print(target) + [TOp(op)] + Print(value) && Lost(e) == Lost(target) + Lost(value)
  {
    hide Unwrap, Print, Lost;
    if op == CoalEq { CoalPrints(target, Coalesce(target, value, true)); } else { PlainPrints(target, op, value); }
  }

  lemma CoalPrints(target: Expr, value: Expr)
    requires value.Coalesce? && value.assign
    ensures Print(Assign(target, Eq, value)) == Print(target) + [TOp(CoalEq)] + Print(value.right)
    ensures Lost(Assign(target, Eq, value)) == Lost(target) + Lost(value.right)
  {
    assert ReadsTarget(Eq, value);
  }

  lemma PlainPrints(target: Expr, op: Op, value: Expr)
    requires !ReadsTarget(op, value)
    ensures Print(Assign(target, op, value)) == Print(target) + [TOp(op)] + Print(value)
    ensures Lost(Assign(target, op, value)) == Lost(target) + Lost(value)
  {
    hide Print, Unwrap, LostProp, LostMethod, LostArgs, LostList;
    PlainSpelling(Assign(target, op, value));
  }

  lemma PlainSpelling(e: Expr)
    requires e.Assign? && !ReadsTarget(e.op, e.value)
    ensures Print(e) == Print(e.target) + [TOp(e.op)] + Print(e.value)
  {
    hide ReadsTarget, PrintProp, PrintMethod, PrintArgs, PrintLit;
  }

  lemma ReadsTernary(toks: seq<Token>, s: nat, i: nat, j: nat, n: nat, c: Expr, t: Expr, f: Expr)
    requires Reads(toks, s, i, c) && i < |toks| && toks[i] == TOp(Question)
    requires Reads(toks, i + 1, j, t) && j < |toks| && toks[j] == TOp(Colon) && Reads(toks, j + 1, n, f)
    ensures Reads(toks, s, n, Ternary(c, t, f))
  {
    hide Faithful, Canonical;
    Infix(toks, s, i, j, Print(c), TOp(Question), Print(t), Lost(c), Lost(t));
    Infix(toks, s, j, n, Print(c) + [TOp(Question)] + Print(t), TOp(Colon), Print(f), Lost(c) + Lost(t), Lost(f));
  }

  lemma ReadsShort(toks: seq<Token>, s: nat, i: nat, n: nat, e: Expr)
    requires s <= i && i + 1 < n <= |toks| && toks[i] == TOp(Question) && toks[i + 1] == TOp(Colon)
    ensures Reads(toks, s, n, e)
  {
    hide Print, Lost, NameBraces, Canonical;
    assert Dropped(toks, i, n);
  }

  lemma ReadsPrefix(toks: seq<Token>, i: nat, n: nat, op: Op, x: Expr)
    requires i < |toks| && toks[i] == TOp(op) && Reads(toks, i + 1, n, x)
    ensures Reads(toks, i, n, Prefix(op, x))
  {
    hide Faithful;
    Leading(toks, i, n, Print(x), Lost(x));
  }

  lemma ReadsCast(toks: seq<Token>, i: nat, n: nat, typ: string, x: Expr)
    requires i + 2 < |toks| && toks[i] == TOp(LParen) && toks[i + 1] == TIdent(typ) && toks[i + 2] == TOp(RParen)
    requires Reads(toks, i + 3, n, x)
    ensures Reads(toks, i, n, Cast(typ, x))
  {
    hide Faithful;
    Leading(toks, i + 2, n, Print(x), Lost(x));
    Leading(toks, i + 1, n, [TOp(RParen)] + Print(x), Lost(x));
    Leading(toks, i, n, [TIdent(typ)] + ([TOp(RParen)] + Print(x)), Lost(x));
    assert [TOp(LParen)] + ([TIdent(typ)] + ([TOp(RParen)] + Print(x))) == Print(Cast(typ, x));
  }

  lemma ReadsParen(toks: seq<Token>, i: nat, j: nat, x: Expr)
    requires i < |toks| && toks[i] == TOp(LParen) && Reads(toks, i + 1, j, x) && j < |toks| && toks[j] == TOp(RParen)
    ensures Reads(toks, i, j + 1, Paren(x))
  {
    hide Faithful, Canonical;
    Leading(toks, i, j, Print(x), Lost(x));
    JoinToken(toks, i, j, [TOp(LParen)] + Print(x), TOp(RParen), Lost(x));
  }

  lemma ReadsAtom(toks: seq<Token>, i: nat, e: Expr)
    requires i < |toks| && Lost(e) == 0 && |Print(e)| == 1 && (Canonical(toks[i]) ==> Print(e)[0] == toks[i])
    ensures Reads(toks, i, i + 1, e)
  {
    hide Faithful, Canonical;
    TokenItself(toks, i, Print(e)[0]);
    assert Print(e) == [Print(e)[0]] by { hide Print; }
  }

  lemma ReadsAppend(toks: seq<Token>, s: nat, i: nat, l: Expr)
    requires Reads(toks, s, i, l) && i + 1 < |toks| && toks[i] == TOp(LBracket) && toks[i + 1] == TOp(RBracket)
    ensures Reads(toks, s, i + 2, Append(l))
  {
    hide Faithful, Canonical;
    JoinToken(toks, s, i, Print(l), TOp(LBracket), Lost(l));
    JoinToken(toks, s, i + 1, Print(l) + [TOp(LBracket)], TOp(RBracket), Lost(l));
    assert Print(l) + [TOp(LBracket)] + [TOp(RBracket)] == Print(Append(l));
  }

  lemma ReadsIndex(toks: seq<Token>, s: nat, i: nat, j: nat, l: Expr, key: Expr)
    requires Reads(toks, s, i, l) && i < |toks| && toks[i] == TOp(LBracket)
    requires Reads(toks, i + 1, j, key) && j < |toks| && toks[j] == TOp(RBracket)
    ensures Reads(toks, s, j + 1, Index(l, key))
  {
    hide Faithful, Canonical;
    Infix(toks, s, i, j, Print(l), TOp(LBracket), Print(key), Lost(l), Lost(key));
    JoinToken(toks, s, j, Print(l) + [TOp(LBracket)] + Print(key), TOp(RBracket), Lost(l) + Lost(key));
  }

  lemma ReadsStep(toks: seq<Token>, s: nat, i: nat, l: Expr, op: Op)
    requires Reads(toks, s, i, l) && i < |toks| && toks[i] == TOp(op)
    ensures Reads(toks, s, i + 1, Postfix(op, l))
  {
    hide Faithful, Canonical;
    JoinToken(toks, s, i, Print(l), TOp(op), Lost(l));
  }

  ghost predicate ReadsArgs(toks: seq<Token>, i: nat, n: nat, args: Args) {
    Faithful(toks, i, n, PrintArgs(args), LostArgs(args))
  }

  /** Expressions and the parenthesis that closes their list. */
  ghost predicate ReadsList(toks: seq<Token>, i: nat, n: nat, es: seq<Expr>) {
    Faithful(toks, i, n, PrintList(es) + [TOp(RParen)], LostList(es))
  }

  lemma ReadsInvoke(toks: seq<Token>, s: nat, i: nat, n: nat, l: Expr, args: Args)
    requires Reads(toks, s, i, l) && ReadsArgs(toks, i, n, args)
    ensures Reads(toks, s, n, Invoke(l, args))
  {
    hide Faithful;
    Join(toks, s, i, n, Print(l), PrintArgs(args), Lost(l), LostArgs(args));
  }

  lemma ReadsCall(toks: seq<Token>, i: nat, n: nat, name: string, args: Args)
    requires i < |toks| && toks[i] == TIdent(name) && ReadsArgs(toks, i + 1, n, args)
    ensures Reads(toks, i, n, Call(name, args))
  {
    hide Faithful;
    Leading(toks, i, n, PrintArgs(args), LostArgs(args));
  }

  lemma ReadsMarker(toks: seq<Token>, i: nat)
    requires Stream(toks) && MarkerAt(toks, i)
    ensures ReadsArgs(toks, i, i + 5, FirstClass)
  {
    hide Dropped, NameBraces;
    var p := PrintArgs(FirstClass);
    assert toks[i..i + 5] == p;
  }

  lemma ReadsArgList(toks: seq<Token>, i: nat, n: nat, es: seq<Expr>)
    requires i < |toks| && toks[i] == TOp(LParen) && ReadsList(toks, i + 1, n, es)
    ensures ReadsArgs(toks, i, n, Args(es))
  {
    hide Faithful;
    Leading(toks, i, n, PrintList(es) + [TOp(RParen)], LostList(es));
    assert [TOp(LParen)] + (PrintList(es) + [TOp(RParen)]) == PrintArgs(Args(es));
  }

  lemma ReadsLast(toks: seq<Token>, i: nat, j: nat, e: Expr)
    requires Reads(toks, i, j, e) && j < |toks| && toks[j] == TOp(RParen)
    ensures ReadsList(toks, i, j + 1, [e])
  {
    hide Faithful, Canonical;
    JoinToken(toks, i, j, Print(e), TOp(RParen), Lost(e));
    assert LostList([e]) == Lost(e) + LostList([]);
  }

  lemma ReadsMore(toks: seq<Token>, i: nat, j: nat, n: nat, e: Expr, rest: seq<Expr>)
    requires Reads(toks, i, j, e) && j < |toks| && toks[j] == TOp(Comma) && ReadsList(toks, j + 1, n, rest) && rest != []
    ensures ReadsList(toks, i, n, [e] + rest)
  {
    hide Faithful, Canonical;
    Infix(toks, i, j, n, Print(e), TOp(Comma), PrintList(rest) + [TOp(RParen)], Lost(e), LostList(rest));
    var es := [e] + rest;
    assert es[0] == e && es[1..] == rest;
    assert Print(e) + [TOp(Comma)] + (PrintList(rest) + [TOp(RParen)]) == PrintList(es) + [TOp(RParen)];
  }

  /** A comma in front of the closing parenthesis is not kept. */
  lemma ReadsTrailing(toks: seq<Token>, i: nat, j: nat, e: Expr)
    requires Reads(toks, i, j, e) && j + 1 < |toks| && toks[j] == TOp(Comma) && toks[j + 1] == TOp(RParen)
    ensures ReadsList(toks, i, j + 2, [e])
  {
    hide Print, Lost, NameBraces, Canonical;
    var p := Print(e) + [TOp(RParen)];
    assert LostList([e]) == Lost(e) + LostList([]) && PrintList([e]) == Print(e);
    assert Dropped(toks, j, j + 2);
    assert NoShort(toks, i, j + 2) ==> NoShort(toks, i, j);
  }

  ghost predicate ReadsProp(toks: seq<Token>, i: nat, n: nat, m: Member) {
    Faithful(toks, i, n, PrintProp(m), LostProp(m))
  }

  /** A member in front of an argument list, which no brace may close. */
  ghost predicate ReadsMethod(toks: seq<Token>, i: nat, n: nat, m: Member) {
    && i < n < |toks|
    && (NoShort(toks, i, n) ==> |PrintMethod(m)| + LostMethod(m) <= n - i)
    && (Spelled(toks, i, n) && toks[n - 1] != TOp(RBrace) ==> PrintMethod(m) == toks[i..n])
  }

  lemma ReadsNamed(toks: seq<Token>, i: nat, m: Member)
    requires i + 1 < |toks|
    requires (toks[i].TVar? && m == Dynamic(Var(toks[i].name))) || (toks[i].TIdent? && m == Named(toks[i].name))
    ensures ReadsProp(toks, i, i + 1, m) && ReadsMethod(toks, i, i + 1, m)
  {
    hide Dropped, NameBraces, Print, Lost, PrintProp, PrintMethod, LostProp, LostMethod;
    assert toks[i..i + 1] == [toks[i]];
    NamedOnce(toks[i], m);
  }

  lemma NamedOnce(t: Token, m: Member)
    requires (t.TVar? && m == Dynamic(Var(t.name))) || (t.TIdent? && m == Named(t.name))
    ensures LostProp(m) == 0 && LostMethod(m) == 0 && PrintProp(m) == [t] && PrintMethod(m) == [t]
  {
    if m.Dynamic? { assert Print(m.x) == [t] && Lost(m.x) == 0 && Unwrap(m.x) == m.x; }
  }

  lemma ReadsBraced(toks: seq<Token>, i: nat, j: nat, x: Expr)
    requires i < |toks| && toks[i] == TOp(LBrace) && Reads(toks, i + 1, j, x) && j + 1 < |toks| && toks[j] == TOp(RBrace)
    requires Unwrap(x).Const? ==> KeywordLiteral(Unwrap(x).name) == []
    ensures ReadsProp(toks, i, j + 1, Dynamic(x)) && ReadsMethod(toks, i, j + 1, Dynamic(x))
  {
    hide Print, Lost, Dropped, Unwrap, WrapsName;
    assert NoShort(toks, i, j + 1) ==> NoShort(toks, i + 1, j);
    if Spelled(toks, i, j + 1) {
      SpelledPart(toks, i, j + 1, i + 1, j);
      assert Print(x) == toks[i + 1..j];
      assert !NameBraces(toks, i, j);
      if Unwrap(x).Var? || Unwrap(x).Const? { NameWraps(x); }
      Enclosed(toks, i, j);
    }
  }

  lemma Enclosed<T>(s: seq<T>, i: nat, j: nat)
    requires i < j < |s|
    ensures s[i..j + 1] == [s[i]] + s[i + 1..j] + [s[j]]
  {
  }

  lemma {:induction false} NameWraps(x: Expr)
    requires Unwrap(x).Var? || (Unwrap(x).Const? && KeywordLiteral(Unwrap(x).name) == [])
    ensures WrapsName(Print(x))
    decreases x
  {
    if x.Paren? {
      NameWraps(x.x);
      var p := Print(x);
      assert p[1..|p| - 1] == Print(x.x);
    }
  }

  lemma ReadsProperty(toks: seq<Token>, s: nat, i: nat, n: nat, l: Expr, m: Member)
    requires Reads(toks, s, i, l) && i < |toks| && toks[i] == TOp(Arrow) && ReadsProp(toks, i + 1, n, m)
    ensures Reads(toks, s, n, Prop(l, m))
  {
    hide Faithful, Canonical;
    Infix(toks, s, i, n, Print(l), TOp(Arrow), PrintProp(m), Lost(l), LostProp(m));
  }

  lemma ReadsMethodCall(toks: seq<Token>, s: nat, i: nat, j: nat, n: nat, l: Expr, m: Member, args: Args)
    requires Reads(toks, s, i, l) && i < |toks| && toks[i] == TOp(Arrow) && ReadsMethod(toks, i + 1, j, m)
    requires toks[j] == TOp(LParen) && ReadsArgs(toks, j, n, args)
    requires j < n
    ensures Reads(toks, s, n, Method(l, m, args))
  {
    hide Faithful, Canonical, ReadsMethod, ReadsArgs, Print, PrintMethod, PrintArgs, Lost, LostMethod, LostArgs, NameBraces, Dropped;
    MemberArgs(toks, i + 1, j, n, m, args);
    Infix(toks, s, i, n, Print(l), TOp(Arrow), PrintMethod(m) + PrintArgs(args), Lost(l), LostMethod(m) + LostArgs(args));
    MethodPrinted(l, m, args);
  }

  lemma MethodPrinted(l: Expr, m: Member, args: Args)
    ensures Print(Method(l, m, args)) == Print(l) + [TOp(Arrow)] + (PrintMethod(m) + PrintArgs(args))
    ensures Lost(Method(l, m, args)) == Lost(l) + (LostMethod(m) + LostArgs(args))
  {
    hide PrintMethod, PrintArgs, LostMethod, LostArgs;
  }

  lemma MemberArgs(toks: seq<Token>, i: nat, j: nat, n: nat, m: Member, args: Args)
    requires ReadsMethod(toks, i, j, m) && toks[j] == TOp(LParen) && ReadsArgs(toks, j, n, args) && j < n
    ensures Faithful(toks, i, n, PrintMethod(m) + PrintArgs(args), LostMethod(m) + LostArgs(args))
  {
    hide PrintMethod, PrintArgs, LostMethod, LostArgs, NameBraces, Canonical;
    if NoShort(toks, i, n) {
      assert NoShort(toks, i, j) && NoShort(toks, j, n);
    }
    if Spelled(toks, i, n) {
      SpelledPart(toks, i, n, i, j);
      SpelledPart(toks, i, n, j, n);
      assert !Dropped(toks, j - 1, n);
      assert toks[i..n] == toks[i..j] + toks[j..n];
    }
  }
}
