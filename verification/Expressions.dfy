/** The parser and the printer of expressions, against each other. */
module Expressions {
  import opened Syntax
  import opened Printer
  import opened Grammar
  import opened Shape
  import opened Rules
  import opened Spans
  import opened RoundTrip
  import opened Printed
  import Sound
  import Braces
  import Reading
  import V = Verbatim

  /**
   Printing, then parsing. A tree the parser answered anywhere, printed at any place of any stream,
   is read there as the same tree up to the same place if and only if every member and every cast
   of it is spelled apart and the token behind it does not continue it.
   */
  lemma PrintThenParse(toks: seq<Token>, i: nat, e: Expr, j: nat, out: seq<Token>, k: nat, n: nat)
    requires Stream(toks) && i < |toks| && ParseExpr(toks, i) == Ok(e, j)
    requires Stream(out) && Spot(out, k, Print(e), n)
    ensures ParseExpr(out, k) == Ok(e, n) <==> Plain(e, 0) && !Absorbs(e, 0, out[n])
  {
    Shaped(toks, i);
    hide Print, ParseExpr, Wf, MembersPlain, Edge, Continues;
    if Plain(e, 0) && !Absorbs(e, 0, out[n]) {
      hide *;
      RtExpr(e, out, k, n);
    }
    FirstOf(out, k, e, n);
    if ParseExpr(out, k) == Ok(e, n) {
      PrintedQuietly(e, out, k, n);
      Sound.SoundExpr(out, k, true);
      KeepsMembers(e, out, k, n);
    }
  }

  lemma Shaped(toks: seq<Token>, i: nat)
    requires Stream(toks) && i < |toks| && ParseExpr(toks, i).Ok?
    ensures Wf(ParseExpr(toks, i).value, 0, false)
  {
    hide ParseExpr, Wf, Edge, Continues;
    Sound.SoundExpr(toks, i, false);
  }

  lemma PrintedQuietly(e: Expr, out: seq<Token>, k: nat, n: nat)
    requires Wf(e, 0, false) && Spot(out, k, Print(e), n)
    ensures Sound.Quiet(out, true, k, n) && V.NoShort(out, k, n)
  {
    PrintTidy(e, 0);
    var p := Print(e);
    hide Print, Wf;
    assert p == out[k..n];
    assert forall m :: k <= m < n ==> out[m] == p[m - k];
    forall m | k <= m && m + 1 < n ensures !(out[m] == TOp(Question) && out[m + 1] == TOp(Colon)) {
      assert !Traceless(p[m - k], p[m - k + 1]);
    }
  }

  /** A tree that is read back from its own printed tokens has lost no braces. */
  lemma KeepsMembers(e: Expr, out: seq<Token>, k: nat, n: nat)
    requires Stream(out) && Wf(e, 0, false) && Spot(out, k, Print(e), n) && k < |out| && ParseExpr(out, k) == Ok(e, n)
    ensures MembersPlain(e)
  {
    Reading.ReadExpr(out, k);
    PrintedQuietly(e, out, k, n);
    assert V.Lost(e) == 0 by { hide Print, V.Lost, Wf, ParseExpr, MembersPlain, V.Spelled; }
    NoneLost(e, 0);
  }

  lemma {:induction false} NoneLost(e: Expr, level: int)
    requires V.Lost(e) == 0 && Wf(e, level, false)
    ensures MembersPlain(e)
    decreases e, 1
  {
    hide Edge, CastHead, Print, IsLValue, AssignOp, Continues;
    if e.Append? || e.Index? || e.Prop? || e.Method? || e.Invoke? || e.Postfix? {
      NoneLostChain(e, level);
    } else if e.Coalesce? || e.Ternary? || e.Assign? {
      NoneLostInfix(e, level);
    } else {
      match e
      case Binary(_, _, _) => NoneLostBinary(e, level);
      case Paren(x) => NoneLost(x, 0);
      case Call(_, args) => NoneLostArgs(args);
      case Prefix(op, x) => NoneLost(x, if StepOp(op) then 21 else 18);
      case Cast(_, x) => NoneLost(x, 18);
      case _ =>
    }
  }

  lemma {:induction false} NoneLostChain(e: Expr, level: int)
    requires V.Lost(e) == 0 && Wf(e, level, false)
    requires e.Append? || e.Index? || e.Prop? || e.Method? || e.Invoke? || e.Postfix?
    ensures MembersPlain(e)
    decreases e, 0
  {
    hide Edge, CastHead, Print, IsLValue, AssignOp, Continues;
    NoneLost(e.base, 21);
    match e
    case Index(_, key) => NoneLost(key, 0);
    case Prop(_, m) => if m.Dynamic? { NoneLost(m.x, 0); }
    case Method(_, _, args) => NoneLostArgs(args);
    case Invoke(_, args) => NoneLostArgs(args);
    case _ =>
  }

  lemma {:induction false} NoneLostBinary(e: Expr, level: int)
    requires V.Lost(e) == 0 && Wf(e, level, false) && e.Binary?
    ensures MembersPlain(e)
    decreases e, 0
  {
    hide Edge, CastHead, Print, IsLValue, AssignOp, Continues;
    var op, l, r := e.bop, e.left, e.right;
    NoneLost(l, match op case Sym(o) => (if o == StarStar then 21 else if level < 6 then 6 else level) case InstanceOf => 19 case Word(_) => level);
    NoneLost(r, if op.Sym? && op.op != StarStar && r.Assign? then 3 else RightLevel(op));
  }

  lemma {:induction false} NoneLostInfix(e: Expr, level: int)
    requires V.Lost(e) == 0 && Wf(e, level, false) && (e.Coalesce? || e.Ternary? || e.Assign?)
    ensures MembersPlain(e)
    decreases e, 0
  {
    hide Edge, CastHead, Print, IsLValue, AssignOp, Continues;
    match e
    case Coalesce(l, r, _) => NoneLost(l, 6); NoneLost(r, if r.Assign? then 3 else 5);
    case Ternary(c, t, f) => NoneLost(c, 5); NoneLost(t, 0); NoneLost(f, 0);
    case Assign(target, op, v) =>
      NoneLost(target, 18);
      if ReadsTarget(op, v) { NoneLost(v.right, 3); } else { NoneLost(v, 3); }
  }

  lemma {:induction false} NoneLostArgs(args: Args)
    requires V.LostArgs(args) == 0
    requires args.Args? ==> forall k :: 0 <= k < |args.es| ==> Wf(args.es[k], 0, false)
    ensures ArgsPlain(args)
    decreases args
  {
    if args.Args? {
      forall k | 0 <= k < |args.es| ensures MembersPlain(args.es[k]) {
        PartOfList(args.es, k);
        NoneLost(args.es[k], 0);
      }
    }
  }

  lemma {:induction false} PartOfList(es: seq<Expr>, k: nat)
    requires k < |es|
    ensures V.Lost(es[k]) <= V.LostList(es)
    decreases k
  {
    if k > 0 { PartOfList(es[1..], k - 1); }
  }

  /**
   Parsing, then printing. A parse reads at least one token and stays in front of the end of the
   stream. What the printer writes back is never longer than what was read, short ternaries aside.
   Where the keywords are spelled as the printer spells them it is exactly what was read if and only
   if that holds no `@`, no short ternary, no comma in front of `)`, no method name in braces and no
   braces around a name. None of those is ever written back, however the keywords are spelled.
   */
  lemma ParseThenPrint(toks: seq<Token>, i: nat)
    requires Stream(toks) && i < |toks| && ParseExpr(toks, i).Ok?
    ensures
      var r := ParseExpr(toks, i);
      && i < r.next < |toks|
      && (V.NoShort(toks, i, r.next) ==> |Print(r.value)| + V.Lost(r.value) <= r.next - i)
      && (V.AllCanonical(toks, i, r.next) ==> (Print(r.value) == toks[i..r.next] <==> V.Kept(toks, i, r.next)))
      && (Print(r.value) == toks[i..r.next] ==> V.Kept(toks, i, r.next))
  {
    Reading.ReadExpr(toks, i);
    Shaped(toks, i);
    var r := ParseExpr(toks, i);
    hide Print, V.Lost, Wf, ParseExpr, V.Spelled, V.NoShort, V.Kept, V.AllCanonical;
    KeptSpelled(toks, i, r.next);
    if Print(r.value) == toks[i..r.next] { WrittenBack(toks, i, r.value, r.next); }
  }

  lemma KeptSpelled(toks: seq<Token>, i: nat, n: nat)
    ensures V.Kept(toks, i, n) && V.AllCanonical(toks, i, n) ==> V.Spelled(toks, i, n)
  {
    hide V.Canonical, V.LeftOut, V.NameBraces;
  }

  /** A tree that prints to the tokens it was read from was read from tokens that keep their trace. */
  lemma WrittenBack(toks: seq<Token>, i: nat, e: Expr, n: nat)
    requires i <= n <= |toks| && Wf(e, 0, false) && Print(e) == toks[i..n]
    requires V.NoShort(toks, i, n) ==> |Print(e)| + V.Lost(e) <= n - i
    ensures V.Kept(toks, i, n)
  {
    hide Print, V.Lost, Wf, Tidy, Braces.Snug;
    PrintTidy(e, 0);
    TidyKept(toks, i, n);
    NoneLost(e, 0);
    Braces.PrintSnug(e, 0);
    SnugKept(toks, i, n);
  }

  lemma TidyKept(toks: seq<Token>, i: nat, n: nat)
    requires i <= n <= |toks| && Tidy(toks[i..n])
    ensures V.NoShort(toks, i, n)
    ensures forall k :: i <= k < n ==> toks[k] != TOp(Silence) && (k + 1 < n ==> !Traceless(toks[k], toks[k + 1]))
  {
    var p := toks[i..n];
    assert forall k :: i <= k < n ==> toks[k] == p[k - i];
    forall k | i <= k && k + 1 < n ensures !Traceless(toks[k], toks[k + 1]) { assert !Traceless(p[k - i], p[k - i + 1]); }
  }

  lemma SnugKept(toks: seq<Token>, i: nat, n: nat)
    requires i <= n <= |toks| && Tidy(toks[i..n]) && Braces.Snug(toks[i..n])
    ensures V.Kept(toks, i, n)
  {
    hide Tidy, V.NameBraces, V.LeftOut, Braces.Opened, Braces.Closed, Braces.NoCalls;
    TidyKept(toks, i, n);
    CallsKept(toks, i, n);
    forall k, m | i <= k < m < n ensures !V.NameBraces(toks, k, m) { NamesKept(toks, i, n, k, m); }
    forall k | i <= k < n ensures !V.LeftOut(toks, k, n) { LeftIn(toks, k, n); }
  }

  lemma LeftIn(toks: seq<Token>, k: nat, n: nat)
    requires k < n <= |toks| && toks[k] != TOp(Silence)
    requires k + 1 < n ==> !Traceless(toks[k], toks[k + 1]) && !(toks[k] == TOp(RBrace) && toks[k + 1] == TOp(LParen))
    ensures !V.LeftOut(toks, k, n)
  {
  }

  lemma CallsKept(toks: seq<Token>, i: nat, n: nat)
    requires i <= n <= |toks| && Braces.NoCalls(toks[i..n])
    ensures forall k :: i <= k && k + 1 < n ==> !(toks[k] == TOp(RBrace) && toks[k + 1] == TOp(LParen))
  {
    var p := toks[i..n];
    forall k | i <= k && k + 1 < n ensures !(toks[k] == TOp(RBrace) && toks[k + 1] == TOp(LParen)) {
      assert toks[k] == p[k - i] && toks[k + 1] == p[(k - i) + 1];
    }
  }

  lemma NamesKept(toks: seq<Token>, i: nat, n: nat, k: nat, m: nat)
    requires i <= k < m < n <= |toks| && Braces.NoNames(toks[i..n])
    ensures !V.NameBraces(toks, k, m)
  {
    hide V.WrapsName;
    assert !V.NameBraces(toks[i..n], k - i, m - i);
    SliceOfSlice(toks, i, n, k - i + 1, m - i);
  }

  lemma SliceOfSlice(toks: seq<Token>, i: nat, n: nat, a: nat, b: nat)
    requires i <= n <= |toks| && 0 < a <= b < n - i
    ensures toks[i..n][a..b] == toks[i + a..i + b]
    ensures toks[i..n][a - 1] == toks[i + a - 1] && toks[i..n][b] == toks[i + b]
  {
    var s, t := toks[i..n][a..b], toks[i + a..i + b];
    assert |s| == |t|;
    forall c | 0 <= c < |s| ensures s[c] == t[c] {
      assert s[c] == toks[i..n][a + c] == toks[i + (a + c)];
    }
  }

  /** Formatting is stable: what was printed from a plain tree prints the same when it is read again. */
  lemma FormatTwice(toks: seq<Token>, i: nat, e: Expr, j: nat, out: seq<Token>, k: nat, n: nat)
    requires Stream(toks) && i < |toks| && ParseExpr(toks, i) == Ok(e, j) && Plain(e, 0)
    requires Stream(out) && Spot(out, k, Print(e), n) && Stop(out[n])
    ensures ParseExpr(out, k).Ok? && Print(ParseExpr(out, k).value) == Print(e) && ParseExpr(out, k) == Ok(e, n)
  {
    StopEnds(e, 0, out[n]);
    hide Print, ParseExpr, Wf, MembersPlain, Edge, Continues;
    PrintThenParse(toks, i, e, j, out, k, n);
  }

  /** Two trees that print alike are not both read back, so one spelling stands for one plain tree. */
  lemma PrintIsInjective(a: Expr, b: Expr)
    requires Plain(a, 0) && Plain(b, 0) && Print(a) == Print(b)
    ensures a == b
  {
    var toks := Print(a) + [TEof];
    var n := |Print(a)|;
    assert toks[0..n] == Print(a) && toks[n] == TEof && Stop(TEof);
    StopEnds(a, 0, TEof);
    StopEnds(b, 0, TEof);
    hide Print, ParseExpr, Wf, MembersPlain, Edge, Continues;
    RtExpr(a, toks, 0, n);
    RtExpr(b, toks, 0, n);
  }

  // ---- where the source is not kept ----

  /** A postfix chain in front of a closing token is a whole expression. */
  lemma ChainAlone(toks: seq<Token>, i: nat, e: Expr, n: nat)
    requires Stream(toks) && i < |toks| && n < |toks| && Stop(toks[n])
    requires ParsePostfix(toks, i) == Ok(e, n) && !CastAt(toks, i) && (toks[i] == TOp(LParen) || !toks[i].TOp?)
    ensures ParseExpr(toks, i) == Ok(e, n)
  {
    var t := toks[n];
    assert t != TOp(StarStar) && !InstanceOfKw(t);
    PowBase(toks, i, e, n) by { hide ParsePow; }
    InstanceOfBase(toks, i, e, n);
    InstanceOfEnds(toks, n, e);
    UnaryBase(toks, i);
    UnaryAlone(toks, i, e, n);
  }

  lemma UnaryAlone(toks: seq<Token>, i: nat, e: Expr, n: nat)
    requires Stream(toks) && i < |toks| && n < |toks| && Stop(toks[n]) && ParseUnary(toks, i) == Ok(e, n)
    ensures ParseExpr(toks, i) == Ok(e, n)
  {
    var t := toks[n];
    assert Prec(t) == 0 && t != TOp(Coal) && t != TOp(Question) && !AssignOp(t) && WordLevel(t) < 0;
    hide *;
    BinaryBase(toks, i, e, n, 1);
    BinaryEnds(toks, n, e, 1);
    CoalesceBase(toks, i, e, n);
    TernaryBase(toks, i, e, n);
    AssignBase(toks, i, e, n);
    OperandFrom(toks, i, e, n, 0);
    LogicalEnds(toks, n, e, 0);
    ExprIsLogical(toks, i);
  }

  /** A variable and one postfix step, in front of a closing token. */
  lemma ChainOfStep(toks: seq<Token>, o: string, e: Expr, n: nat)
    requires Stream(toks) && 1 < n < |toks| && toks[0] == TVar(o) && Stop(toks[n])
    requires PostfixStep(toks, 1, Var(o)) == Ok(e, n)
    ensures ParseExpr(toks, 0) == Ok(e, n)
  {
    assert ParsePrimary(toks, 0) == Ok(Var(o), 1) && !CastAt(toks, 0);
    hide ParsePrimary, PostfixLoop, PostfixStep, ParsePostfix, ParseExpr, IsLValue;
    PostfixBase(toks, 0, Var(o), 1);
    PostfixNext(toks, 1, Var(o), e, n);
    PostfixEnds(toks, n, e);
    ChainAlone(toks, 0, e, n);
  }

  /** A stream that starts with the given tokens and the printed tree x. */
  lemma Opening(head: seq<Token>, x: seq<Token>, tail: seq<Token>, toks: seq<Token>)
    requires toks == head + x + tail && tail != []
    ensures Spot(toks, |head|, x + [tail[0]], |head| + |x| + 1) || |tail| == 1
    ensures forall k :: 0 <= k < |head| ==> toks[k] == head[k]
    ensures forall k :: 0 <= k < |tail| ==> toks[|head| + |x| + k] == tail[k]
    ensures Spot(toks, |head|, x, |head| + |x|)
  {
    assert toks[|head|..|head| + |x|] == x;
    if |tail| > 1 { assert toks[|head|..|head| + |x| + 1] == x + [tail[0]]; }
  }

  lemma ConstantPrints(o: string, c: string)
    ensures Print(Const(c)) == [TIdent(c)]
    ensures Print(Prop(Var(o), Dynamic(Const(c)))) == Print(Prop(Var(o), Dynamic(Var(c))))
  {
  }

  /**
   `$o->{FOO}` is read as a property named by a constant and prints as `$o->$FOO`, which is a
   property named by a variable. So it is for every constant.
   */
  lemma ConstantMemberLost(o: string, c: string)
    requires Plain(Const(c), 0)
    ensures
      var source := [TVar(o), TOp(Arrow), TOp(LBrace)] + Print(Const(c)) + [TOp(RBrace), TEof];
      Stream(source) && ParseExpr(source, 0) == Ok(Prop(Var(o), Dynamic(Const(c))), 5)
    ensures Print(Prop(Var(o), Dynamic(Const(c)))) == Print(Prop(Var(o), Dynamic(Var(c))))
  {
    var foo := Const(c);
    var head, tail := [TVar(o), TOp(Arrow), TOp(LBrace)], [TOp(RBrace), TEof];
    var source := head + Print(foo) + tail;
    hide Print, ParseExpr, ParseMember, PostfixStep, Plain;
    ConstantPrints(o, c);
    assert Stop(TOp(RBrace)) && Stop(TEof);
    Opening(head, Print(foo), tail, source);
    hide Spot;
    assert source[1] == head[1] && source[2] == head[2] && source[4] == tail[0] && source[5] == tail[1];
    var j := RtClosed(foo, source, 3, TOp(RBrace), 5);
    MemberBraced(source, 2, foo, 4);
    StepProp(source, 1, Var(o), Dynamic(foo), 5);
    ChainOfStep(source, o, Prop(Var(o), Dynamic(foo)), 5);
  }

  /**
   `$o->{$c["read"]}()` is read as a call of the method the braces name and prints without the
   braces. So it is for every expression but a variable.
   */
  lemma DynamicMethodLost(o: string, name: Expr)
    requires Plain(name, 0) && !name.Var?
    ensures
      var source := [TVar(o), TOp(Arrow), TOp(LBrace)] + Print(name) + [TOp(RBrace), TOp(LParen), TOp(RParen), TEof];
      var e := Method(Var(o), Dynamic(name), Args([]));
      && Stream(source) && ParseExpr(source, 0) == Ok(e, |source| - 1)
      && Print(e) == [TVar(o), TOp(Arrow)] + Print(name) + [TOp(LParen), TOp(RParen)] && !MembersPlain(e)
  {
    hide Print, ParseExpr, Plain, Wf, MembersPlain, FromIdent, Spot;
    var head, tail := [TVar(o), TOp(Arrow), TOp(LBrace)], [TOp(RBrace), TOp(LParen), TOp(RParen), TEof];
    var source := head + Print(name) + tail;
    var j := 3 + |Print(name)|;
    MethodPrint(o, name);
    Opening(head, Print(name), tail, source);
    assert source[0] == head[0] && source[1] == head[1] && source[2] == head[2];
    assert source[j + 1] == tail[1] && source[j + 2] == tail[2] && source[j + 3] == tail[3];
    BracedCall(source, o, name, j);
  }

  lemma BracedCall(source: seq<Token>, o: string, name: Expr, j: nat)
    requires Stream(source) && Plain(name, 0) && |source| == j + 4 && 2 < j
    requires source[0] == TVar(o) && source[1] == TOp(Arrow) && source[2] == TOp(LBrace)
    requires Spot(source, 3, Print(name) + [TOp(RBrace)], j + 1)
    requires source[j + 1] == TOp(LParen) && source[j + 2] == TOp(RParen) && source[j + 3] == TEof
    ensures ParseExpr(source, 0) == Ok(Method(Var(o), Dynamic(name), Args([])), j + 3)
  {
    hide *;
    Closing(TOp(RBrace));
    EndStops();
    var k := RtClosed(name, source, 3, TOp(RBrace), j + 1);
    MemberBraced(source, 2, name, j);
    NoArguments(source, j + 2);
    ArgsList(source, j + 1, [], j + 3);
    StepMethod(source, 1, Var(o), Dynamic(name), j + 1, Args([]), j + 3);
    ChainOfStep(source, o, Method(Var(o), Dynamic(name), Args([])), j + 3);
  }

  lemma EndStops()
    ensures Stop(TEof)
  {
  }

  lemma NoArguments(toks: seq<Token>, i: nat)
    requires Stream(toks) && i < |toks| && toks[i] == TOp(RParen)
    ensures ParseArgs(toks, i) == Ok([], i + 1)
  {
  }

  lemma MethodPrint(o: string, name: Expr)
    requires !name.Var?
    ensures
      var e := Method(Var(o), Dynamic(name), Args([]));
      Print(e) == [TVar(o), TOp(Arrow)] + Print(name) + [TOp(LParen), TOp(RParen)] && !MembersPlain(e)
  {
    var e := Method(Var(o), Dynamic(name), Args([]));
    assert PrintArgs(e.args) == [TOp(LParen), TOp(RParen)] by { assert PrintList([]) == []; }
    assert [TVar(o)] + [TOp(Arrow)] == [TVar(o), TOp(Arrow)];
  }

  /** `(@int)` is read as a parenthesised constant and prints as a cast. So it is for every cast type. */
  lemma SilencedConstantLost(typ: string)
    requires CastType(typ) && Plain(Const(typ), 18)
    ensures
      var source := [TOp(LParen), TOp(Silence)] + Print(Const(typ)) + [TOp(RParen), TEof];
      var e := Paren(Const(typ));
      && Stream(source) && ParseExpr(source, 0) == Ok(e, 4)
      && Print(e) == [TOp(LParen), TIdent(typ), TOp(RParen)] && !Wf(e, 0, true)
  {
    var x := Const(typ);
    var head, tail := [TOp(LParen), TOp(Silence)], [TOp(RParen), TEof];
    var source := head + Print(x) + tail;
    assert |Print(x)| == 1 && Print(Paren(x)) == [TOp(LParen), TIdent(typ), TOp(RParen)] && !Wf(Paren(x), 0, true);
    Opening(head, Print(x), tail, source);
    assert source[0] == head[0] && source[1] == head[1] && source[3] == tail[0] && source[4] == tail[1];
    hide Print, Plain, Spot, Wf, CastType;
    SilencedConstant(source, x);
  }

  lemma SilenceSkipped(source: seq<Token>, i: nat)
    requires Stream(source) && i + 1 < |source| && source[i] == TOp(Silence)
    ensures ParseUnary(source, i) == ParseUnary(source, i + 1)
  {
  }

  lemma SilencedConstant(source: seq<Token>, x: Expr)
    requires Stream(source) && |source| == 5 && source[0] == TOp(LParen) && source[1] == TOp(Silence)
    requires source[3] == TOp(RParen) && source[4] == TEof
    requires Spot(source, 2, Print(x), 3) && Plain(x, 18)
    ensures ParseExpr(source, 0) == Ok(Paren(x), 4)
  {
    hide Print, ParsePrimary, PostfixLoop, PostfixStep, ParsePostfix, ParseExpr, ParseUnary, IsLValue, Plain, Spot, Absorbs;
    assert Stop(TOp(RParen)) && Stop(TEof) && !CastAt(source, 0) && !CastAt(source, 1);
    SilenceSkipped(source, 1);
    StopEnds(x, 18, TOp(RParen));
    RtUnary(x, source, 2, 3);
    UnaryAlone(source, 1, x, 3);
    PrimaryParen(source, 0, x, 3);
    PostfixBase(source, 0, Paren(x), 4);
    PostfixEnds(source, 4, Paren(x));
    ChainAlone(source, 0, Paren(x), 4);
  }
}
