/** Printing a tree the parser can build and parsing the tokens gives the tree back. */
module RoundTrip {
  import opened Names
  import opened Syntax
  import opened Printer
  import opened Grammar
  import opened Shape
  import opened Rules
  import opened Spans

  /** A tree the printer spells out in full: of the parser's shape, its members and casts kept apart. */
  predicate Plain(e: Expr, level: int) {
    Wf(e, level, true) && MembersPlain(e)
  }

  lemma RankAtLeast(e: Expr, level: int)
    requires Wf(e, level, true) && level <= 21
    ensures Rank(e) >= level
  {
  }

  lemma StartsPlain(e: Expr, level: int)
    requires Plain(e, level)
    ensures Starter(Print(e)[0])
  {
    hide Print;
    Starts(e, level, true);
  }

  /** No expression starts with a closing token, a dot or an ampersand. */
  lemma StartsNoClose(e: Expr, level: int)
    requires Plain(e, level)
    ensures
      var t := Print(e)[0];
      && t != TOp(RParen) && t != TOp(RBracket) && t != TOp(Colon) && t != TOp(Dot) && t != TOp(Amp)
  {
    hide Print, Plain;
    StartsPlain(e, level);
  }

  lemma Closing(t: Token)
    requires t == TOp(RParen) || t == TOp(RBracket) || t == TOp(RBrace) || t == TOp(Comma) || t == TOp(Colon)
    ensures Stop(t)
  {
  }

  // ---- postfix chains ----

  lemma PostfixStops(e: Expr, toks: seq<Token>, j: nat)
    requires Stream(toks) && j < |toks| && Rank(e) == 21 && !Continues(21, e, toks[j])
    ensures PostfixLoop(toks, j, e) == Ok(e, j)
  {
    hide PostfixLoop;
    PostfixEnds(toks, j, e);
  }

  lemma BaseParts(e: Expr, base: Expr)
    requires Plain(e, 21)
    requires match e
      case Append(b) => b == base
      case Index(b, _) => b == base
      case Prop(b, _) => b == base
      case Method(b, _, _) => b == base
      case Invoke(b, _) => b == base
      case Postfix(_, b) => b == base
      case _ => false
    ensures Plain(base, 21) && Rank(base) == 21
    ensures e.Append? || e.Index? ==> !Edge(base, TOp(LBracket))
    ensures e.Prop? || e.Method? ==> !Edge(base, TOp(Arrow))
    ensures e.Invoke? ==> !Edge(base, TOp(LParen))
    ensures e.Postfix? ==> StepOp(e.op) && IsLValue(base) && !Edge(base, TOp(e.op))
  {
    hide Edge;
  }

  lemma {:induction false} RtPostfix(e: Expr, toks: seq<Token>, i: nat, n: nat)
    requires Stream(toks) && Spot(toks, i, Print(e), n) && Rank(e) == 21 && Plain(e, 21)
    requires !Edge(e, toks[n])
    ensures ParsePostfix(toks, i) == PostfixLoop(toks, n, e)
    decreases e, 3
  {
    match e
    case Append(base) => RtAppend(e, base, toks, i, n);
    case Index(base, key) => RtIndex(e, base, key, toks, i, n);
    case Prop(base, member) => RtProp(e, base, member, toks, i, n);
    case Method(base, member, args) => RtMethod(e, base, member, args, toks, i, n);
    case Invoke(base, args) => RtInvoke(e, base, args, toks, i, n);
    case Postfix(op, base) => RtStep(e, op, base, toks, i, n);
    case Paren(x) => RtParen(e, x, toks, i, n);
    case Call(name, args) => RtCall(e, name, args, toks, i, n);
    case _ => RtAtom(e, toks, i, n);
  }

  lemma RtAtom(e: Expr, toks: seq<Token>, i: nat, n: nat)
    requires e.Lit? || e.Var? || e.Const?
    requires Stream(toks) && Spot(toks, i, Print(e), n) && Plain(e, 21) && !Edge(e, toks[n])
    ensures ParsePostfix(toks, i) == PostfixLoop(toks, n, e)
  {
    assert |Print(e)| == 1;
    Elem(toks, i, Print(e), n, 0);
    hide ParsePostfix, ParseCallArgs, ParseExpr;
    assert ParsePrimary(toks, i) == Ok(e, n);
    PostfixBase(toks, i, e, n);
  }

  lemma ParenParts(e: Expr, x: Expr)
    requires e == Paren(x) && Plain(e, 21)
    ensures Plain(x, 0) && Print(e) == [TOp(LParen)] + (Print(x) + [TOp(RParen)])
  {
    Regroup([TOp(LParen)], Print(x), [TOp(RParen)]);
  }

  lemma {:induction false} RtParen(e: Expr, x: Expr, toks: seq<Token>, i: nat, n: nat)
    requires e == Paren(x) && Stream(toks) && Spot(toks, i, Print(e), n) && Plain(e, 21)
    ensures ParsePostfix(toks, i) == PostfixLoop(toks, n, e)
    decreases e, 2
  {
    hide *;
    ParenParts(e, x);
    Closing(TOp(RParen));
    CutHead(toks, i, TOp(LParen), Print(x) + [TOp(RParen)], n);
    var j := RtClosed(x, toks, i + 1, TOp(RParen), n);
    PrimaryParen(toks, i, x, j);
    PostfixBase(toks, i, e, n);
  }

  lemma {:induction false} RtCall(e: Expr, name: string, args: Args, toks: seq<Token>, i: nat, n: nat)
    requires e == Call(name, args) && Stream(toks) && Spot(toks, i, Print(e), n) && Plain(e, 21)
    ensures ParsePostfix(toks, i) == PostfixLoop(toks, n, e)
    decreases e, 2
  {
    ArgsParts(e, args);
    assert !Reserved(name) && KeywordLiteral(name) == [] && Print(e) == [TIdent(name)] + PrintArgs(args);
    hide *;
    CutHead(toks, i, TIdent(name), PrintArgs(args), n);
    RtArgs(args, toks, i + 1, n);
    PrimaryCall(toks, i, name, args, n);
    PostfixBase(toks, i, e, n);
  }

  lemma {:induction false} RtAppend(e: Expr, base: Expr, toks: seq<Token>, i: nat, n: nat)
    requires e == Append(base) && Stream(toks) && Spot(toks, i, Print(e), n) && Plain(e, 21)
    ensures ParsePostfix(toks, i) == PostfixLoop(toks, n, e)
    decreases e, 2
  {
    BaseParts(e, base);
    var tail := [TOp(LBracket)] + [TOp(RBracket)];
    assert Print(e) == Print(base) + tail;
    hide *;
    var j := Cut(toks, i, Print(base), tail, n);
    CutHead(toks, j, TOp(LBracket), [TOp(RBracket)], n);
    Elem(toks, j + 1, [TOp(RBracket)], n, 0);
    RtPostfix(base, toks, i, j);
    StepAppend(toks, j, base);
    PostfixNext(toks, j, base, e, n);
  }

  lemma IndexParts(e: Expr, base: Expr, key: Expr)
    requires e == Index(base, key) && Plain(e, 21)
    ensures Plain(base, 21) && Rank(base) == 21 && !Edge(base, TOp(LBracket)) && Plain(key, 0)
    ensures Print(e) == Print(base) + [TOp(LBracket)] + (Print(key) + [TOp(RBracket)])
  {
    BaseParts(e, base);
    Regroup(Print(base) + [TOp(LBracket)], Print(key), [TOp(RBracket)]);
    hide Edge;
  }

  lemma {:induction false} RtIndex(e: Expr, base: Expr, key: Expr, toks: seq<Token>, i: nat, n: nat)
    requires e == Index(base, key) && Stream(toks) && Spot(toks, i, Print(e), n) && Plain(e, 21)
    ensures ParsePostfix(toks, i) == PostfixLoop(toks, n, e)
    decreases e, 2
  {
    hide *;
    IndexParts(e, base, key);
    StartsNoClose(key, 0);
    Closing(TOp(RBracket));
    var j := CutAt(toks, i, Print(base), TOp(LBracket), Print(key) + [TOp(RBracket)], n);
    RtPostfix(base, toks, i, j);
    var k := RtClosed(key, toks, j + 1, TOp(RBracket), n);
    StepIndex(toks, j, base, key, k);
    PostfixNext(toks, j, base, e, n);
  }

  lemma {:induction false} RtStep(e: Expr, op: Op, base: Expr, toks: seq<Token>, i: nat, n: nat)
    requires e == Postfix(op, base) && Stream(toks) && Spot(toks, i, Print(e), n) && Plain(e, 21)
    ensures ParsePostfix(toks, i) == PostfixLoop(toks, n, e)
    decreases e, 2
  {
    BaseParts(e, base);
    assert Print(e) == Print(base) + [TOp(op)];
    hide *;
    var j := CutEnd(toks, i, Print(base), TOp(op), n);
    RtPostfix(base, toks, i, j);
    StepPostfix(toks, j, base);
    PostfixNext(toks, j, base, e, n);
  }

  lemma ArgsParts(e: Expr, args: Args)
    requires Plain(e, 21)
    requires (e.Call? || e.Invoke? || e.Method?) && e.args == args
    ensures PlainArgs(args) && PrintArgs(args)[0] == TOp(LParen)
  {
    if args.Args? {
      forall k | 0 <= k < |args.es| ensures Plain(args.es[k], 0) {
        assert ArgsPlain(args);
        assert Wf(args.es[k], 0, true) && MembersPlain(args.es[k]);
      }
    }
  }

  lemma {:induction false} RtInvoke(e: Expr, base: Expr, args: Args, toks: seq<Token>, i: nat, n: nat)
    requires e == Invoke(base, args) && Stream(toks) && Spot(toks, i, Print(e), n) && Plain(e, 21)
    ensures ParsePostfix(toks, i) == PostfixLoop(toks, n, e)
    decreases e, 2
  {
    BaseParts(e, base);
    ArgsParts(e, args);
    assert Print(e) == Print(base) + PrintArgs(args);
    hide *;
    var j := Cut(toks, i, Print(base), PrintArgs(args), n);
    RtPostfix(base, toks, i, j);
    RtArgs(args, toks, j, n);
    StepInvoke(toks, j, base, args, n);
    PostfixNext(toks, j, base, e, n);
  }

  lemma PropParts(e: Expr, base: Expr, member: Member, t: Token)
    requires e == Prop(base, member) && Plain(e, 21) && !Edge(e, t)
    ensures Plain(base, 21) && Rank(base) == 21 && !Edge(base, TOp(Arrow)) && PlainMember(member)
    ensures t != TOp(LParen) && Print(e) == Print(base) + [TOp(Arrow)] + PrintProp(member)
  {
    BaseParts(e, base);
  }

  lemma {:induction false} RtProp(e: Expr, base: Expr, member: Member, toks: seq<Token>, i: nat, n: nat)
    requires e == Prop(base, member) && Stream(toks) && Spot(toks, i, Print(e), n) && Plain(e, 21)
    requires !Edge(e, toks[n])
    ensures ParsePostfix(toks, i) == PostfixLoop(toks, n, e)
    decreases e, 2
  {
    hide *;
    FirstOf(toks, i, e, n);
    PropParts(e, base, member, toks[n]);
    var j := CutAt(toks, i, Print(base), TOp(Arrow), PrintProp(member), n);
    RtPostfix(base, toks, i, j);
    RtMember(member, toks, j + 1, n);
    StepProp(toks, j, base, member, n);
    PostfixNext(toks, j, base, e, n);
  }

  /** The members a property prints to something that reads as the same member. */
  predicate PlainMember(m: Member) {
    m.Dynamic? ==> Plain(m.x, 0) && (Unwrap(m.x).Var? || Unwrap(m.x).Const? ==> m.x.Var?)
  }

  lemma PlainName(m: Member, toks: seq<Token>, i: nat, n: nat)
    requires Stream(toks) && Spot(toks, i, PrintProp(m), n) && (m.Named? || m.x.Var?)
    ensures i < n && ParseMember(toks, i) == Ok(m, n)
  {
    assert |PrintProp(m)| == 1;
    Elem(toks, i, PrintProp(m), n, 0);
  }

  lemma BracedParts(m: Member, x: Expr)
    requires m == Dynamic(x) && PlainMember(m) && !x.Var?
    ensures Plain(x, 0) && PrintProp(m) == [TOp(LBrace)] + (Print(x) + [TOp(RBrace)])
  {
    Regroup([TOp(LBrace)], Print(x), [TOp(RBrace)]);
  }

  lemma {:induction false} RtMember(m: Member, toks: seq<Token>, i: nat, n: nat)
    requires Stream(toks) && Spot(toks, i, PrintProp(m), n) && PlainMember(m)
    ensures i < n && ParseMember(toks, i) == Ok(m, n)
    decreases m, 0
  {
    hide *;
    if m.Named? || m.x.Var? {
      PlainName(m, toks, i, n);
    } else {
      var x := m.x;
      BracedParts(m, x);
      Closing(TOp(RBrace));
      CutHead(toks, i, TOp(LBrace), Print(x) + [TOp(RBrace)], n);
      var j := RtClosed(x, toks, i + 1, TOp(RBrace), n);
      MemberBraced(toks, i, x, j);
    }
  }

  lemma MethodParts(e: Expr, base: Expr, member: Member, args: Args) returns (name: Token)
    requires e == Method(base, member, args) && Plain(e, 21)
    ensures (name.TVar? || name.TIdent?) && member == if name.TVar? then Dynamic(Var(name.name)) else Named(name.name)
    ensures Print(e) == Print(base) + [TOp(Arrow)] + [name] + PrintArgs(args)
  {
    hide Wf, Edge, ArgsPlain;
    name := if member.Dynamic? then TVar(member.x.name) else TIdent(member.name);
    assert PrintMethod(member) == [name];
  }

  lemma MemberToken(toks: seq<Token>, i: nat, name: Token, member: Member)
    requires Stream(toks) && i < |toks| && toks[i] == name && (name.TVar? || name.TIdent?)
    requires member == (if name.TVar? then Dynamic(Var(name.name)) else Named(name.name))
    ensures ParseMember(toks, i) == Ok(member, i + 1)
  {
  }

  lemma {:induction false} RtMethod(e: Expr, base: Expr, member: Member, args: Args, toks: seq<Token>, i: nat, n: nat)
    requires e == Method(base, member, args) && Stream(toks) && Spot(toks, i, Print(e), n) && Plain(e, 21)
    ensures ParsePostfix(toks, i) == PostfixLoop(toks, n, e)
    decreases e, 2
  {
    hide *;
    BaseParts(e, base);
    ArgsParts(e, args);
    var name := MethodParts(e, base, member, args);
    var j := MethodCut(toks, i, Print(base), name, PrintArgs(args), n);
    MemberToken(toks, j + 1, name, member);
    RtPostfix(base, toks, i, j);
    RtArgs(args, toks, j + 2, n);
    StepMethod(toks, j, base, member, j + 2, args, n);
    PostfixNext(toks, j, base, e, n);
  }

  lemma MethodCut(toks: seq<Token>, i: nat, base: seq<Token>, name: Token, args: seq<Token>, n: nat) returns (j: nat)
    requires Spot(toks, i, base + [TOp(Arrow)] + [name] + args, n) && args != []
    ensures Spot(toks, i, base, j) && j + 2 < |toks| && Spot(toks, j + 2, args, n)
    ensures toks[j] == TOp(Arrow) && toks[j + 1] == name && toks[j + 2] == args[0]
  {
    Regroup(base + [TOp(Arrow)], [name], args);
    j := CutAt(toks, i, base, TOp(Arrow), [name] + args, n);
    CutHead(toks, j + 1, name, args, n);
    Elem(toks, j + 2, args, n, 0);
  }

  /** An expression in front of a closing token. */
  lemma {:induction false} RtClosed(e: Expr, toks: seq<Token>, i: nat, close: Token, n: nat) returns (j: nat)
    requires Stream(toks) && Spot(toks, i, Print(e) + [close], n) && Stop(close) && Plain(e, 0)
    ensures Spot(toks, i, Print(e), j) && i < j && n == j + 1 && toks[j] == close
    ensures ParseExpr(toks, i) == Ok(e, j)
    ensures toks[i] == Print(e)[0]
    decreases e, 14
  {
    hide *;
    j := CutEnd(toks, i, Print(e), close, n);
    StopEnds(e, 0, close);
    FirstOf(toks, i, e, j);
    RtExpr(e, toks, i, j);
  }

  lemma FirstOf(toks: seq<Token>, i: nat, e: Expr, n: nat)
    requires Spot(toks, i, Print(e), n)
    ensures i < n < |toks| && toks[i] == Print(e)[0]
  {
    hide Print;
    Elem(toks, i, Print(e), n, 0);
  }

  predicate PlainArgs(args: Args) {
    args.Args? ==> AllPlain(args.es)
  }

  predicate AllPlain(es: seq<Expr>) {
    forall k :: 0 <= k < |es| ==> Plain(es[k], 0)
  }

  lemma {:induction false} RtArgs(args: Args, toks: seq<Token>, i: nat, n: nat)
    requires Stream(toks) && Spot(toks, i, PrintArgs(args), n) && PlainArgs(args)
    ensures i < n && ParseCallArgs(toks, i) == Ok(args, n)
    ensures toks[i] == TOp(LParen)
    decreases args, 1
  {
    match args
    case FirstClass =>
      var s := PrintArgs(args);
      Elem(toks, i, s, n, 0); Elem(toks, i, s, n, 1); Elem(toks, i, s, n, 2); Elem(toks, i, s, n, 3); Elem(toks, i, s, n, 4);
    case Args(es) =>
      assert PrintArgs(args) == [TOp(LParen)] + PrintList(es) + [TOp(RParen)] && !Starter(TOp(Dot));
      hide *;
      Regroup([TOp(LParen)], PrintList(es), [TOp(RParen)]);
      CutHead(toks, i, TOp(LParen), PrintList(es) + [TOp(RParen)], n);
      RtList(es, toks, i + 1, n);
      ArgsList(toks, i, es, n);
  }

  lemma {:induction false} RtList(es: seq<Expr>, toks: seq<Token>, i: nat, n: nat)
    requires Stream(toks) && Spot(toks, i, PrintList(es) + [TOp(RParen)], n)
    requires AllPlain(es)
    ensures i < n && ParseArgs(toks, i) == Ok(es, n)
    ensures toks[i] == TOp(RParen) || Starter(toks[i])
    decreases es, 1
  {
    if es == [] {
      assert PrintList(es) + [TOp(RParen)] == [TOp(RParen)];
      Elem(toks, i, [TOp(RParen)], n, 0);
    } else if |es| == 1 {
      assert PrintList(es) == Print(es[0]) && es == [es[0]];
      RtLast(es[0], toks, i, n);
    } else {
      RtMore(es, es[0], es[1..], toks, i, n);
    }
  }

  lemma {:induction false} RtLast(e: Expr, toks: seq<Token>, i: nat, n: nat)
    requires Stream(toks) && Spot(toks, i, Print(e) + [TOp(RParen)], n) && Plain(e, 0)
    ensures i < n && ParseArgs(toks, i) == Ok([e], n) && Starter(toks[i])
    decreases e, 15
  {
    hide *;
    Closing(TOp(RParen));
    StartsPlain(e, 0);
    StartsNoClose(e, 0);
    var j := RtClosed(e, toks, i, TOp(RParen), n);
    ArgsLast(toks, i, e, j);
  }

  lemma MoreCut(toks: seq<Token>, i: nat, a: seq<Token>, b: seq<Token>, n: nat) returns (k: nat)
    requires Spot(toks, i, a + b + [TOp(RParen)], n)
    ensures Spot(toks, i, a, k) && Spot(toks, k, b + [TOp(RParen)], n)
  {
    Regroup(a, b, [TOp(RParen)]);
    k := Cut(toks, i, a, b + [TOp(RParen)], n);
  }

  lemma MoreParts(es: seq<Expr>, e: Expr, rest: seq<Expr>)
    requires |es| > 1 && e == es[0] && rest == es[1..] && AllPlain(es)
    ensures PrintList(es) == Print(e) + [TOp(Comma)] + PrintList(rest) && es == [e] + rest
    ensures Plain(e, 0) && AllPlain(rest)
  {
    hide Plain;
  }

  lemma {:induction false} RtMore(es: seq<Expr>, e: Expr, rest: seq<Expr>, toks: seq<Token>, i: nat, n: nat)
    requires |es| > 1 && e == es[0] && rest == es[1..]
    requires Stream(toks) && Spot(toks, i, PrintList(es) + [TOp(RParen)], n)
    requires AllPlain(es)
    ensures i < n && ParseArgs(toks, i) == Ok(es, n) && Starter(toks[i])
    decreases es, 0
  {
    hide *;
    MoreParts(es, e, rest);
    Closing(TOp(Comma));
    StartsPlain(e, 0);
    StartsNoClose(e, 0);
    var k := MoreCut(toks, i, Print(e) + [TOp(Comma)], PrintList(rest), n);
    var j := RtClosed(e, toks, i, TOp(Comma), k);
    RtList(rest, toks, k, n);
    ArgsMore(toks, i, e, j, rest, n);
  }

  // ---- powers, instanceof, prefix operators ----

  lemma PowEdge(e: Expr, t: Token)
    requires e.Binary? && e.bop == Sym(StarStar) && !Edge(e, t)
    ensures !Absorbs(e.right, 18, t)
  {
    hide Continues, Wf, MembersPlain;
  }

  lemma PowParts(e: Expr, t: Token)
    requires Plain(e, 20) && !Absorbs(e, 20, t)
    ensures e.Binary? ==>
      && e == Binary(Sym(StarStar), e.left, e.right)
      && Print(e) == Print(e.left) + [TOp(StarStar)] + Print(e.right)
      && Rank(e.left) == 21 && Plain(e.left, 21)
      && !Edge(e.left, TOp(StarStar)) && !Continues(21, e.left, TOp(StarStar))
      && Plain(e.right, 18) && !Absorbs(e.right, 18, t)
    ensures !e.Binary? ==>
      && Rank(e) == 21 && Plain(e, 21) && !Edge(e, t) && !Continues(21, e, t)
      && t != TOp(StarStar)
  {
    hide Edge, CastHead, Continues, Print;
    if e.Binary? {
      PowOperands(e);
      RankAtLeast(e.left, 21);
      PowEdge(e, t);
    }
    PowRests(e, t);
  }

  lemma PowOperands(e: Expr)
    requires e.Binary? && Plain(e, 20)
    ensures e == Binary(Sym(StarStar), e.left, e.right) && !Edge(e.left, TOp(StarStar))
    ensures Plain(e.left, 21) && Plain(e.right, 18)
    ensures Print(e) == Print(e.left) + [TOp(StarStar)] + Print(e.right)
  {
    hide Edge, Continues;
  }

  lemma PowRests(e: Expr, t: Token)
    ensures Rank(e) == 21 ==> !Continues(21, e, TOp(StarStar))
    ensures Rank(e) == 21 && !Continues(20, e, t) ==> !Continues(21, e, t) && t != TOp(StarStar)
    ensures e.Binary? ==> !Continues(21, e.left, TOp(StarStar))
  {
    hide Print, Wf, Edge;
  }

  lemma {:induction false} RtPow(e: Expr, toks: seq<Token>, i: nat, n: nat)
    requires Stream(toks) && Spot(toks, i, Print(e), n) && Plain(e, 20) && !Absorbs(e, 20, toks[n])
    ensures i < n && ParsePow(toks, i) == Ok(e, n)
    decreases e, 4
  {
    hide *;
    FirstOf(toks, i, e, n);
    PowParts(e, toks[n]);
    if e.Binary? {
      var j := CutAt(toks, i, Print(e.left), TOp(StarStar), Print(e.right), n);
      RtPostfix(e.left, toks, i, j);
      PostfixStops(e.left, toks, j);
      RtUnary(e.right, toks, j + 1, n);
      PowStep(toks, i, e.left, j, e.right, n);
    } else {
      RtPostfix(e, toks, i, n);
      PostfixStops(e, toks, n);
      PowBase(toks, i, e, n);
    }
  }

  lemma InstanceOfParts(e: Expr, t: Token)
    requires Plain(e, 19) && !Absorbs(e, 20, t)
    ensures e.Binary? && e.bop.InstanceOf? ==>
      && Print(e) == Print(e.left) + [BinToken(InstanceOf)] + Print(e.right)
      && Plain(e.left, 19) && !Absorbs(e.left, 20, BinToken(InstanceOf)) && InstanceOfKw(BinToken(InstanceOf))
      && Plain(e.right, 20) && !Absorbs(e.right, 20, t)
    ensures !(e.Binary? && e.bop.InstanceOf?) ==> Plain(e, 20)
  {
  }

  lemma {:induction false} RtInstanceOf(e: Expr, toks: seq<Token>, i: nat, n: nat)
    requires Stream(toks) && Spot(toks, i, Print(e), n) && Plain(e, 19) && !Absorbs(e, 20, toks[n])
    ensures ParseInstanceOf(toks, i) == InstanceOfLoop(toks, n, e)
    decreases e, 5
  {
    hide *;
    FirstOf(toks, i, e, n);
    InstanceOfParts(e, toks[n]);
    if e.Binary? && e.bop.InstanceOf? {
      var j := CutAt(toks, i, Print(e.left), BinToken(InstanceOf), Print(e.right), n);
      RtInstanceOf(e.left, toks, i, j);
      RtPow(e.right, toks, j + 1, n);
      InstanceOfNext(toks, j, e.left, e.right, n);
      assert e == Binary(InstanceOf, e.left, e.right);
    } else {
      RtPow(e, toks, i, n);
      InstanceOfBase(toks, i, e, n);
    }
  }

  /** A tree that starts with the tokens of a cast is one that looks like a cast. */
  lemma {:induction false} CastSeen(e: Expr, toks: seq<Token>, i: nat, level: int, n: nat)
    requires Stream(toks) && Spot(toks, i, Print(e), n) && Wf(e, level, true) && 19 <= level <= 21 && CastAt(toks, i)
    ensures CastHead(e)
    decreases e
  {
    hide Stream, Spot, Print, Wf, CastAt, CastHead, Rank;
    TightRank(e, level, true);
    if Led(e) {
      var x, rest, inner := FirstOperand(e, level, true);
      var j := Cut(toks, i, Print(x), rest, n);
      CastSeen(x, toks, i, inner, j);
    } else {
      CastLeaf(e, level, toks, i, n);
    }
  }

  lemma CastLeaf(e: Expr, level: int, toks: seq<Token>, i: nat, n: nat)
    requires Stream(toks) && Spot(toks, i, Print(e), n) && Wf(e, level, true) && 19 <= level && CastAt(toks, i) && !Led(e)
    ensures CastHead(e)
  {
    hide Stream, Spot, CastHead;
    Elem(toks, i, Print(e), n, 0);
    if e.Paren? { CastParen(e, e.x, toks, i, n); }
  }

  lemma CastParen(e: Expr, x: Expr, toks: seq<Token>, i: nat, n: nat)
    requires e == Paren(x) && Stream(toks) && Spot(toks, i, Print(e), n) && Wf(x, 0, true) && CastAt(toks, i)
    ensures CastHead(e)
  {
    var inner := Print(x) + [TOp(RParen)];
    Regroup([TOp(LParen)], Print(x), [TOp(RParen)]);
    CutHead(toks, i, TOp(LParen), inner, n);
    Elem(toks, i + 1, inner, n, 0);
    Elem(toks, i + 1, inner, n, 1);
    if |Print(x)| > 1 {
      assert inner[1] == Print(x)[1];
      SecondToken(x, 0);
    } else {
      SingleToken(x);
    }
  }

  lemma SingleToken(e: Expr)
    requires |Print(e)| == 1 && Print(e)[0].TIdent? && CastType(Print(e)[0].name)
    ensures e == Const(Print(e)[0].name)
  {
    assert !CastType("true") && !CastType("false") && !CastType("null");
  }

  /** Behind a leading identifier comes no closing parenthesis. */
  lemma {:induction false} SecondToken(e: Expr, level: int)
    requires Wf(e, level, true) && |Print(e)| > 1 && Print(e)[0].TIdent?
    ensures Print(e)[1] != TOp(RParen)
    decreases e
  {
    hide Wf, Print, Rank, CastHead;
    if Led(e) {
      var x, rest, inner := FirstOperand(e, level, true);
      if |Print(x)| > 1 { SecondToken(x, inner); }
    } else {
      SecondInLeaf(e);
    }
  }

  lemma SecondInLeaf(e: Expr)
    requires !Led(e) && |Print(e)| > 1 && Print(e)[0].TIdent?
    ensures Print(e)[1] != TOp(RParen)
  {
  }

  lemma UnaryParts(e: Expr, t: Token)
    requires Plain(e, 18) && !Absorbs(e, 18, t)
    ensures e.Prefix? ==>
      && Print(e) == [TOp(e.op)] + Print(e.x)
      && if StepOp(e.op)
         then Plain(e.x, 21) && Rank(e.x) == 21 && IsLValue(e.x) && !Edge(e.x, t) && !Continues(21, e.x, t)
         else PrefixOp(e.op) && Plain(e.x, 18) && !Absorbs(e.x, 18, t)
    ensures e.Cast? ==>
      && Print(e) == [TOp(LParen), TIdent(e.typ), TOp(RParen)] + Print(e.x)
      && CastType(e.typ) && Plain(e.x, 18) && !Absorbs(e.x, 18, t)
    ensures !e.Prefix? && !e.Cast? ==>
      && Plain(e, 19) && Wf(e, 19, true) && !Absorbs(e, 20, t) && !InstanceOfKw(t) && !CastHead(e)
      && (Print(e)[0] == TOp(LParen) || !Print(e)[0].TOp?)
  {
    if e.Prefix? {
      assert !Absorbs(e.x, if StepOp(e.op) then 21 else 18, t);
      if StepOp(e.op) {
        RankAtLeast(e.x, 21);
        hide Edge;
      }
    } else if !e.Cast? {
      UnaryTight(e, t);
    }
  }

  lemma UnaryTight(e: Expr, t: Token)
    requires Plain(e, 18) && !Absorbs(e, 18, t) && !e.Prefix? && !e.Cast?
    ensures Plain(e, 19) && !Absorbs(e, 20, t) && !InstanceOfKw(t) && !CastHead(e)
    ensures Print(e)[0] == TOp(LParen) || !Print(e)[0].TOp?
  {
    hide Print;
    assert WordLevel(TIdent("instanceof")) < 0 by { assert |Lower("instanceof")| == 10; }
    RankAtLeast(e, 18);
    assert Rank(e) >= 19;
    hide Edge, MembersPlain;
    Starts(e, 18, true);
  }

  lemma {:induction false} RtUnary(e: Expr, toks: seq<Token>, i: nat, n: nat)
    requires Stream(toks) && Spot(toks, i, Print(e), n) && Plain(e, 18) && !Absorbs(e, 18, toks[n])
    ensures ParseUnary(toks, i) == Ok(e, n)
    decreases e, 6
  {
    hide *;
    FirstOf(toks, i, e, n);
    UnaryParts(e, toks[n]);
    if e.Prefix? {
      CutHead(toks, i, TOp(e.op), Print(e.x), n);
      if StepOp(e.op) {
        RtPostfix(e.x, toks, i + 1, n);
        PostfixStops(e.x, toks, n);
        UnaryStep(toks, i, e.x, n);
      } else {
        RtUnary(e.x, toks, i + 1, n);
        UnaryPrefix(toks, i, e.x, n);
      }
      assert e == Prefix(e.op, e.x);
    } else if e.Cast? {
      CastCut(toks, i, e.typ, Print(e.x), n);
      RtUnary(e.x, toks, i + 3, n);
      UnaryCast(toks, i, e.x, n);
      assert e == Cast(e.typ, e.x);
    } else {
      if CastAt(toks, i) { CastSeen(e, toks, i, 19, n); }
      RtInstanceOf(e, toks, i, n);
      InstanceOfEnds(toks, n, e);
      UnaryBase(toks, i);
    }
  }

  lemma CastCut(toks: seq<Token>, i: nat, typ: string, x: seq<Token>, n: nat)
    requires Stream(toks) && Spot(toks, i, [TOp(LParen), TIdent(typ), TOp(RParen)] + x, n) && CastType(typ)
    ensures CastAt(toks, i) && i + 3 < |toks| && toks[i + 1] == TIdent(typ) && Spot(toks, i + 3, x, n)
  {
    var head := [TOp(LParen), TIdent(typ), TOp(RParen)];
    var j := Cut(toks, i, head, x, n);
    Elem(toks, i, head, j, 0);
    Elem(toks, i, head, j, 1);
    Elem(toks, i, head, j, 2);
  }

  // ---- binary operators, assignments, ternaries ----

  lemma BinaryParts(e: Expr, t: Token, min: nat)
    requires 1 <= min <= 12 && Plain(e, 5 + min) && !Absorbs(e, 18, t)
    ensures Rank(e) >= 18 ==> Plain(e, 18)
    ensures Rank(e) < 18 ==>
      && e.Binary? && e.bop.Sym?
      && min <= Prec(TOp(e.bop.op))
      && Print(e) == Print(e.left) + [TOp(e.bop.op)] + Print(e.right)
      && Plain(e.left, 5 + min) && !Absorbs(e.left, 18, TOp(e.bop.op))
      && PlainRight(e.right, Prec(TOp(e.bop.op)) + 1) && !Absorbs(e.right, 6 + Prec(TOp(e.bop.op)), t)
      && !(IsLValue(e.right) && AssignOp(t))
  {
  }

  /** What may stand to the right of an operator: an operand of its level, or an assignment. */
  predicate PlainRight(e: Expr, min: nat) {
    Plain(e, if e.Assign? then 3 else 5 + min)
  }

  lemma {:induction false} RtBinary(e: Expr, toks: seq<Token>, i: nat, min: nat, n: nat)
    requires 1 <= min <= 12 && Stream(toks) && Spot(toks, i, Print(e), n) && Plain(e, 5 + min)
    requires !Absorbs(e, 18, toks[n])
    ensures ParseBinary(toks, i, min) == BinaryLoop(toks, n, e, min)
    decreases e, 7
  {
    hide *;
    FirstOf(toks, i, e, n);
    BinaryParts(e, toks[n], min);
    if Rank(e) >= 18 {
      RtUnary(e, toks, i, n);
      BinaryBase(toks, i, e, n, min);
    } else {
      var op := TOp(e.bop.op);
      var j := CutAt(toks, i, Print(e.left), op, Print(e.right), n);
      RtBinary(e.left, toks, i, min, j);
      RtRight(e.right, toks, j + 1, Prec(op) + 1, n);
      BinaryNext(toks, j, e.left, e.right, n, min);
      assert e == Binary(Sym(e.bop.op), e.left, e.right);
    }
  }

  lemma RightParts(e: Expr, t: Token, min: nat)
    requires 1 <= min <= 12 && PlainRight(e, min) && !Absorbs(e, 5 + min, t)
    ensures e.Assign? ==> Plain(e, 3) && !Edge(e, t)
    ensures !e.Assign? ==> Plain(e, 5 + min) && !Absorbs(e, 18, t) && Prec(t) < min
  {
    hide Wf, MembersPlain, Edge;
  }

  lemma {:induction false} RtRight(e: Expr, toks: seq<Token>, i: nat, min: nat, n: nat)
    requires 1 <= min <= 12 && Stream(toks) && Spot(toks, i, Print(e), n) && PlainRight(e, min)
    requires !Absorbs(e, 5 + min, toks[n]) && !(IsLValue(e) && AssignOp(toks[n]))
    ensures BinaryRight(toks, i, min) == Ok(e, n)
    decreases e, 8
  {
    hide *;
    FirstOf(toks, i, e, n);
    RightParts(e, toks[n], min);
    if e.Assign? {
      var j := RtTarget(e, toks, i, n);
      TargetLevel(e.target, 5 + min, toks[j]);
      RtBinary(e.target, toks, i, min, j);
      BinaryEnds(toks, j, e.target, min);
      RightAssign(toks, i, e.target, j, min);
    } else {
      RtBinary(e, toks, i, min, n);
      BinaryEnds(toks, n, e, min);
      RightBase(toks, i, e, n, min);
    }
  }

  /** The target of an assignment parses at every level down to the prefix operators. */
  lemma TargetLevel(target: Expr, level: int, op: Token)
    requires Plain(target, 18) && IsLValue(target) && AssignOp(op) && 4 <= level <= 18
    ensures Plain(target, level) && !Absorbs(target, level, op) && !Absorbs(target, 18, op)
  {
    WfLooser(target, 18, level, true);
    hide Wf, MembersPlain;
  }

  lemma AssignParts(e: Expr, t: Token, n: nat) returns (op: Op, value: Expr)
    requires e.Assign? && Plain(e, 3) && !Edge(e, t)
    ensures IsLValue(e.target) && Plain(e.target, 18)
    ensures AssignOp(TOp(op)) && Prec(TOp(op)) == 0 && op != Coal && op != Question
    ensures Print(e) == Print(e.target) + [TOp(op)] + Print(value)
    ensures value < e && Plain(value, 3) && !Absorbs(value, 3, t)
    ensures AssignExpr(e.target, op, value, n) == Ok(e, n)
  {
    hide Edge, Absorbs, Wf, IsLValue;
    AssignEdge(e, t);
    AssignShape(e);
    assert MembersPlain(e.value);
    if ReadsTarget(e.op, e.value) {
      op, value := CoalEq, e.value.right;
    } else {
      op, value := e.op, e.value;
    }
  }

  lemma AssignShape(e: Expr)
    requires e.Assign? && Wf(e, 3, true)
    ensures IsLValue(e.target) && Wf(e.target, 18, true) && AssignOp(TOp(e.op)) && e.op != CoalEq
    ensures if ReadsTarget(e.op, e.value) then e.value.left == e.target && !Unwrap(e.target).Append? && Wf(e.value.right, 3, true) else Wf(e.value, 3, true)
  {
    hide Edge, CastHead, IsLValue, AssignOp, Unwrap, Continues;
  }

  lemma AssignEdge(e: Expr, t: Token)
    requires e.Assign? && !Edge(e, t)
    ensures !Absorbs(if ReadsTarget(e.op, e.value) then e.value.right else e.value, 3, t)
  {
  }

  /** Where the target, the operator and the value of an assignment stand. */
  lemma AssignCut(e: Expr, toks: seq<Token>, i: nat, n: nat) returns (j: nat, op: Op, value: Expr)
    requires e.Assign? && n < |toks| && Spot(toks, i, Print(e), n) && Plain(e, 3) && !Edge(e, toks[n])
    ensures Spot(toks, i, Print(e.target), j) && Plain(e.target, 18) && IsLValue(e.target)
    ensures j + 1 < |toks| && toks[j] == TOp(op) && Spot(toks, j + 1, Print(value), n)
    ensures AssignOp(toks[j]) && Prec(toks[j]) == 0 && op != Coal && op != Question
    ensures value < e && Plain(value, 3) && !Absorbs(value, 3, toks[n])
    ensures AssignExpr(e.target, op, value, n) == Ok(e, n)
  {
    hide *;
    op, value := AssignParts(e, toks[n], n);
    j := CutAt(toks, i, Print(e.target), TOp(op), Print(value), n);
  }

  /** The operator and the value of an assignment, behind its target. */
  lemma {:induction false} RtTarget(e: Expr, toks: seq<Token>, i: nat, n: nat) returns (j: nat)
    requires e.Assign? && Stream(toks) && Spot(toks, i, Print(e), n) && Plain(e, 3) && !Edge(e, toks[n])
    ensures Spot(toks, i, Print(e.target), j) && Plain(e.target, 18) && IsLValue(e.target)
    ensures j + 1 < |toks| && AssignOp(toks[j]) && Prec(toks[j]) == 0
    ensures toks[j] != TOp(Coal) && toks[j] != TOp(Question) && toks[j + 1] != TOp(Amp)
    ensures AssignTo(toks, j, e.target) == Ok(e, n)
    decreases e, 0
  {
    hide *;
    FirstOf(toks, i, e, n);
    var op, value;
    j, op, value := AssignCut(e, toks, i, n);
    StartsNoClose(value, 3);
    FirstOf(toks, j + 1, value, n);
    RtAssign(value, toks, j + 1, n);
    AssignValue(toks, j, e.target, value, n);
  }

  lemma CoalesceParts(e: Expr, t: Token)
    requires Plain(e, 5) && !Absorbs(e, 5, t)
    ensures e.Coalesce? ==>
      && e == Coalesce(e.left, e.right, false)
      && Print(e) == Print(e.left) + [TOp(Coal)] + Print(e.right)
      && Plain(e.left, 6) && !Absorbs(e.left, 18, TOp(Coal)) && Prec(TOp(Coal)) < 1
      && (e.right.Assign? ==> Plain(e.right, 3) && !Edge(e.right, t))
      && (!e.right.Assign? ==> Plain(e.right, 5) && !Absorbs(e.right, 5, t) && !(IsLValue(e.right) && AssignOp(t)))
    ensures !e.Coalesce? ==> Plain(e, 6) && !Absorbs(e, 18, t) && Prec(t) < 1 && t != TOp(Coal)
  {
    hide Plain, Absorbs, Edge, Print, IsLValue, AssignOp;
    if e.Coalesce? {
      CoalescePieces(e);
      CoalesceEdge(e, t);
    } else {
      CoalesceNone(e, t);
    }
  }

  lemma CoalescePieces(e: Expr)
    requires e.Coalesce? && Plain(e, 5)
    ensures e == Coalesce(e.left, e.right, false) && Wf(e, 5, true)
    ensures Print(e) == Print(e.left) + [TOp(Coal)] + Print(e.right)
    ensures Plain(e.left, 6) && Plain(e.right, if e.right.Assign? then 3 else 5)
  {
    hide Edge, CastHead, IsLValue, Continues;
  }

  lemma CoalesceNone(e: Expr, t: Token)
    requires !e.Coalesce? && Plain(e, 5) && !Absorbs(e, 5, t)
    ensures Plain(e, 6) && !Absorbs(e, 18, t) && Prec(t) < 1 && t != TOp(Coal)
  {
    hide Edge, CastHead, MembersPlain, IsLValue;
  }

  lemma CoalesceEdge(e: Expr, t: Token)
    requires e.Coalesce? && Wf(e, 5, true) && !Absorbs(e, 5, t)
    ensures !Absorbs(e.left, 18, TOp(Coal))
    ensures !Edge(e.right, t) && !Absorbs(e.right, 5, t) && !(IsLValue(e.right) && AssignOp(t))
  {
    assert !Edge(e, t) && !e.assign;
    assert !Absorbs(e.right, 5, t);
  }

  lemma {:induction false} RtCoalesce(e: Expr, toks: seq<Token>, i: nat, n: nat)
    requires Stream(toks) && Spot(toks, i, Print(e), n) && Plain(e, 5) && !Absorbs(e, 5, toks[n])
    ensures ParseCoalesce(toks, i) == Ok(e, n)
    decreases e, 9
  {
    hide *;
    FirstOf(toks, i, e, n);
    CoalesceParts(e, toks[n]);
    if e.Coalesce? {
      var j := CutAt(toks, i, Print(e.left), TOp(Coal), Print(e.right), n);
      RtBinary(e.left, toks, i, 1, j);
      BinaryEnds(toks, j, e.left, 1);
      if e.right.Assign? {
        RtCoalesceAssign(e, toks, i, j, n);
      } else {
        RtCoalesce(e.right, toks, j + 1, n);
        CoalesceStep(toks, i, e.left, j, e.right, n);
      }
    } else {
      RtBinary(e, toks, i, 1, n);
      BinaryEnds(toks, n, e, 1);
      CoalesceBase(toks, i, e, n);
    }
  }

  lemma {:induction false} RtCoalesceAssign(e: Expr, toks: seq<Token>, i: nat, j: nat, n: nat)
    requires e.Coalesce? && e == Coalesce(e.left, e.right, false) && e.right.Assign?
    requires Stream(toks) && i < |toks| && j + 1 < |toks| && toks[j] == TOp(Coal)
    requires ParseBinary(toks, i, 1) == Ok(e.left, j)
    requires Spot(toks, j + 1, Print(e.right), n) && Plain(e.right, 3) && !Edge(e.right, toks[n])
    ensures ParseCoalesce(toks, i) == Ok(e, n)
    decreases e, 8
  {
    hide *;
    var target := e.right.target;
    var k := RtTarget(e.right, toks, j + 1, n);
    TargetLevel(target, 5, toks[k]);
    RtCoalesce(target, toks, j + 1, k);
    CoalesceAssign(toks, i, e.left, j, target, k, e.right, n);
  }

  lemma TernaryParts(e: Expr, t: Token)
    requires Plain(e, 4) && !Absorbs(e, 4, t)
    ensures e.Ternary? ==>
      && Print(e) == Print(e.cond) + [TOp(Question)] + Print(e.then_) + [TOp(Colon)] + Print(e.else_)
      && Plain(e.cond, 5) && !Absorbs(e.cond, 5, TOp(Question))
      && Plain(e.then_, 0) && Plain(e.else_, 0) && !Absorbs(e.else_, 0, t)
    ensures !e.Ternary? ==> Plain(e, 5) && !Absorbs(e, 5, t) && t != TOp(Question)
  {
    hide Plain, Absorbs, Edge, Print;
    if e.Ternary? {
      TernaryPieces(e);
      TernaryEdge(e, t);
    } else {
      TernaryNone(e, t);
    }
  }

  lemma TernaryPieces(e: Expr)
    requires e.Ternary? && Plain(e, 4)
    ensures Print(e) == Print(e.cond) + [TOp(Question)] + Print(e.then_) + [TOp(Colon)] + Print(e.else_)
    ensures Plain(e.cond, 5) && !Absorbs(e.cond, 5, TOp(Question)) && Plain(e.then_, 0) && Plain(e.else_, 0)
  {
    hide Edge, CastHead, IsLValue;
  }

  lemma TernaryNone(e: Expr, t: Token)
    requires !e.Ternary? && Plain(e, 4) && !Absorbs(e, 4, t)
    ensures Plain(e, 5) && !Absorbs(e, 5, t) && t != TOp(Question)
  {
    hide Edge, CastHead, MembersPlain, IsLValue;
  }

  lemma TernaryEdge(e: Expr, t: Token)
    requires e.Ternary? && !Absorbs(e, 4, t)
    ensures !Absorbs(e.else_, 0, t)
  {
    hide Continues, Wf, MembersPlain;
  }

  lemma TernaryCut(toks: seq<Token>, i: nat, c: seq<Token>, t: seq<Token>, f: seq<Token>, n: nat) returns (j: nat, k: nat)
    requires Spot(toks, i, c + [TOp(Question)] + t + [TOp(Colon)] + f, n)
    ensures Spot(toks, i, c, j) && j + 1 < |toks| && toks[j] == TOp(Question)
    ensures Spot(toks, j + 1, t + [TOp(Colon)], k) && k < |toks| && Spot(toks, k, f, n)
  {
    Regroup(c + [TOp(Question)], t, [TOp(Colon)]);
    k := Cut(toks, i, c + [TOp(Question)] + t + [TOp(Colon)], f, n);
    j := CutAt(toks, i, c, TOp(Question), t + [TOp(Colon)], k);
  }

  lemma {:induction false} RtTernary(e: Expr, toks: seq<Token>, i: nat, n: nat)
    requires Stream(toks) && Spot(toks, i, Print(e), n) && Plain(e, 4) && !Absorbs(e, 4, toks[n])
    ensures ParseTernary(toks, i) == Ok(e, n)
    decreases e, 10
  {
    hide *;
    Closing(TOp(Colon));
    FirstOf(toks, i, e, n);
    TernaryParts(e, toks[n]);
    if e.Ternary? {
      var j, m := TernaryCut(toks, i, Print(e.cond), Print(e.then_), Print(e.else_), n);
      StartsNoClose(e.then_, 0);
      RtCoalesce(e.cond, toks, i, j);
      var k := RtClosed(e.then_, toks, j + 1, TOp(Colon), m);
      RtExpr(e.else_, toks, m, n);
      TernaryStep(toks, i, e.cond, j, e.then_, k, e.else_, n);
      assert e == Ternary(e.cond, e.then_, e.else_);
    } else {
      RtCoalesce(e, toks, i, n);
      TernaryBase(toks, i, e, n);
    }
  }

  lemma AssignLevelParts(e: Expr, t: Token)
    requires Plain(e, 3) && !Absorbs(e, 3, t)
    ensures e.Assign? ==> !Edge(e, t)
    ensures !e.Assign? ==> Plain(e, 4) && !Absorbs(e, 4, t) && !(AssignOp(t) && IsLValue(e))
  {
    hide Plain, Edge, Continues, AssignOp, IsLValue;
    if !e.Assign? {
      AssignNone(e);
      AssignStops(e, t);
    }
  }

  lemma AssignNone(e: Expr)
    requires !e.Assign? && Plain(e, 3)
    ensures Plain(e, 4)
  {
    hide Edge, CastHead, MembersPlain, IsLValue;
  }

  lemma AssignStops(e: Expr, t: Token)
    requires !Absorbs(e, 3, t)
    ensures !Absorbs(e, 4, t) && !(AssignOp(t) && IsLValue(e))
  {
    hide Edge, IsLValue;
  }

  lemma {:induction false} RtAssign(e: Expr, toks: seq<Token>, i: nat, n: nat)
    requires Stream(toks) && Spot(toks, i, Print(e), n) && Plain(e, 3) && !Absorbs(e, 3, toks[n])
    ensures ParseAssign(toks, i) == Ok(e, n)
    decreases e, 11
  {
    hide *;
    FirstOf(toks, i, e, n);
    AssignLevelParts(e, toks[n]);
    if e.Assign? {
      var j := RtTarget(e, toks, i, n);
      TargetLevel(e.target, 4, toks[j]);
      RtTernary(e.target, toks, i, j);
      AssignStep(toks, i, e.target, j);
    } else {
      RtTernary(e, toks, i, n);
      AssignBase(toks, i, e, n);
    }
  }

  // ---- word operators ----

  lemma LogicalParts(e: Expr, t: Token, min: nat)
    requires min <= 3 && Plain(e, min) && !Absorbs(e, 3, t)
    ensures Rank(e) >= 3 ==> Plain(e, 3)
    ensures Rank(e) < 3 ==>
      && e.Binary? && e.bop.Word? && e == Binary(Word(e.bop.level), e.left, e.right)
      && min <= e.bop.level <= 2 && WordLevel(BinToken(e.bop)) == e.bop.level
      && Print(e) == Print(e.left) + [BinToken(e.bop)] + Print(e.right)
      && Plain(e.left, min) && !Absorbs(e.left, 3, BinToken(e.bop))
      && Plain(e.right, e.bop.level + 1) && !Absorbs(e.right, 3, t)
      && WordLevel(t) < e.bop.level + 1
  {
    hide WordName, WordLevel, CastHead;
    if Rank(e) < 3 {
      assert e.Binary?;
      WordNameLevel(e.bop.level);
      assert BinToken(e.bop) == TIdent(WordName(e.bop.level));
      WordEdge(e, t);
    }
  }

  lemma WordEdge(e: Expr, t: Token)
    requires e.Binary? && e.bop.Word? && e.bop.level <= 2 && !Edge(e, t)
    ensures !Absorbs(e.right, 3, t) && WordLevel(t) < e.bop.level + 1
  {
    hide Continues;
    assert !Absorbs(e.right, e.bop.level + 1, t);
    WordStops(e.right, e.bop.level + 1, t);
  }

  lemma WordStops(e: Expr, level: nat, t: Token)
    requires level <= 3 && !Continues(level, e, t)
    ensures !Continues(3, e, t) && WordLevel(t) < level
  {
  }

  lemma OperandFrom(toks: seq<Token>, i: nat, e: Expr, n: nat, min: nat)
    requires Stream(toks) && i < |toks| && n < |toks| && min <= 3 && ParseAssign(toks, i) == Ok(e, n)
    ensures LogicalFrom(toks, i, min) == LogicalLoop(toks, n, e, min)
  {
    hide ParseAssign, LogicalLoop;
  }

  lemma {:induction false} RtLogical(e: Expr, toks: seq<Token>, i: nat, min: nat, n: nat)
    requires min <= 3 && Stream(toks) && Spot(toks, i, Print(e), n) && Plain(e, min) && !Absorbs(e, 3, toks[n])
    ensures LogicalFrom(toks, i, min) == LogicalLoop(toks, n, e, min)
    decreases e, 12
  {
    hide *;
    FirstOf(toks, i, e, n);
    LogicalParts(e, toks[n], min);
    if Rank(e) >= 3 {
      RtAssign(e, toks, i, n);
      OperandFrom(toks, i, e, n, min);
    } else {
      var k := e.bop.level;
      var j := CutAt(toks, i, Print(e.left), BinToken(e.bop), Print(e.right), n);
      RtLogical(e.left, toks, i, min, j);
      RtLogical(e.right, toks, j + 1, k + 1, n);
      LogicalEnds(toks, n, e.right, k + 1);
      LogicalNext(toks, j, e.left, e.right, n, min);
    }
  }

  lemma {:induction false} RtExpr(e: Expr, toks: seq<Token>, i: nat, n: nat)
    requires Stream(toks) && Spot(toks, i, Print(e), n) && Plain(e, 0) && !Absorbs(e, 0, toks[n])
    ensures ParseExpr(toks, i) == Ok(e, n)
    decreases e, 13
  {
    hide *;
    FirstOf(toks, i, e, n);
    ExprParts(e, toks[n]);
    RtLogical(e, toks, i, 0, n);
    LogicalEnds(toks, n, e, 0);
    ExprIsLogical(toks, i);
  }

  lemma ExprParts(e: Expr, t: Token)
    requires !Absorbs(e, 0, t)
    ensures !Absorbs(e, 3, t) && WordLevel(t) < 0
  {
    hide Edge;
  }
}
