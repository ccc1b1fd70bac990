/** Patterns no printed tree holds. */
module Printed {
  import opened Syntax
  import opened Printer
  import opened Shape

  /** A pair of neighbours the parser reads without keeping a trace of it. */
  predicate Traceless(a: Token, b: Token) {
    (a == TOp(Question) && b == TOp(Colon)) || (a == TOp(Comma) && b == TOp(RParen))
  }

  /** No silence operator, no `? :`, no comma in front of a closing parenthesis, also not across the end. */
  predicate Tidy(s: seq<Token>) {
    && s != []
    && (forall k :: 0 <= k < |s| ==> s[k] != TOp(Silence))
    && (forall k :: 0 <= k < |s| - 1 ==> !Traceless(s[k], s[k + 1]))
    && s[|s| - 1] != TOp(Question) && s[|s| - 1] != TOp(Comma)
  }

  lemma Cat(a: seq<Token>, b: seq<Token>)
    requires Tidy(a) && Tidy(b)
    ensures Tidy(a + b)
  {
  }

  lemma End(a: seq<Token>, t: Token)
    requires Tidy(a) && t.TOp? ==> t.op != Question && t.op != Comma && t.op != Silence
    requires Tidy(a)
    ensures Tidy(a + [t])
  {
  }

  /** The first token closes nothing. */
  predicate Opens(b: seq<Token>) {
    b != [] && b[0] != TOp(Colon) && b[0] != TOp(RParen)
  }

  /** Any token but the silence operator between two parts, where the second opens an operand. */
  lemma Between(a: seq<Token>, t: Token, b: seq<Token>)
    requires Tidy(a) && Tidy(b) && t != TOp(Silence) && Opens(b)
    ensures Tidy(a + [t] + b)
  {
  }

  lemma BetweenClosed(a: seq<Token>, t: Token, b: seq<Token>, close: Token)
    requires Tidy(a) && Tidy(b) && t != TOp(Silence) && Opens(b)
    requires close.TOp? ==> close.op != Question && close.op != Comma && close.op != Silence
    ensures Tidy(a + [t] + b + [close])
  {
    Between(a, t, b);
    End(a + [t] + b, close);
  }

  lemma TernaryBetween(c: seq<Token>, t: seq<Token>, f: seq<Token>)
    requires Tidy(c) && Tidy(t) && Tidy(f) && Opens(t) && Opens(f)
    ensures Tidy(c + [TOp(Question)] + t + [TOp(Colon)] + f)
  {
    Between(c, TOp(Question), t);
    Between(c + [TOp(Question)] + t, TOp(Colon), f);
  }

  lemma Front(t: Token, b: seq<Token>)
    requires Tidy(b) && t != TOp(Silence) && t != TOp(Question) && t != TOp(Comma)
    ensures Tidy([t] + b)
  {
  }

  lemma {:induction false} OperandTidy(x: Expr, e: Expr, level: int)
    requires x < e && Wf(x, level, false)
    ensures Tidy(Print(x)) && Opens(Print(x))
    decreases e, 0
  {
    hide Print, Wf, Tidy;
    PrintTidy(x, level);
    Starts(x, level, false);
  }

  lemma {:induction false} PrintTidy(e: Expr, level: int)
    requires Wf(e, level, false)
    ensures Tidy(Print(e))
    decreases e
  {
    hide Tidy, Print;
    match e
    case Append(_) => ChainTidy(e, level);
    case Index(base, key) => IndexTidy(e, base, key, level);
    case Prop(_, _) => MemberCallTidy(e, level);
    case Method(_, _, _) => MemberCallTidy(e, level);
    case Call(_, _) => MemberCallTidy(e, level);
    case Invoke(_, _) => MemberCallTidy(e, level);
    case Postfix(_, _) => ChainTidy(e, level);
    case Paren(_) => TightTidy(e, level);
    case Prefix(_, _) => TightTidy(e, level);
    case Cast(_, _) => TightTidy(e, level);
    case Binary(op, l, r) =>
      BinaryOperands(op, l, r, level);
      Between(Print(l), BinToken(op), Print(r));
      PrintedBinary(op, l, r);
    case Coalesce(l, r, _) => CoalesceTidy(e, l, r, level);
    case Ternary(c, t, f) => TernaryTidy(e, c, t, f, level);
    case Assign(_, _, _) => AssignTidy(e, level);
    case _ => AtomTidy(e);
  }

  lemma PrintedBinary(op: BinOp, l: Expr, r: Expr)
    ensures Print(Binary(op, l, r)) == Print(l) + [BinToken(op)] + Print(r)
  {
  }

  lemma AtomTidy(e: Expr)
    requires e.Lit? || e.Var? || e.Const?
    ensures Tidy(Print(e))
  {
  }

  lemma {:induction false} ChainTidy(e: Expr, level: int)
    requires Wf(e, level, false) && (e.Append? || e.Postfix?)
    ensures Tidy(Print(e))
    decreases e, 1
  {
    match e
    case Append(base) =>
      assert Wf(base, 21, false);
      hide Tidy, Wf;
      OperandTidy(base, e, 21);
      End(Print(base), TOp(LBracket));
      End(Print(base) + [TOp(LBracket)], TOp(RBracket));
      assert Print(base) + [TOp(LBracket)] + [TOp(RBracket)] == Print(e);
    case Postfix(op, base) =>
      assert Wf(base, 21, false);
      hide Tidy, Wf;
      OperandTidy(base, e, 21);
      End(Print(base), TOp(op));
  }

  lemma {:induction false} MemberCallTidy(e: Expr, level: int)
    requires Wf(e, level, false) && (e.Prop? || e.Method? || e.Call? || e.Invoke?)
    ensures Tidy(Print(e))
    decreases e, 1
  {
    match e
    case Prop(base, m) =>
      assert Wf(base, 21, false);
      MemberTidy(m);
      hide Tidy, Wf;
      OperandTidy(base, e, 21);
      Between(Print(base), TOp(Arrow), PrintProp(m));
    case Method(base, m, args) =>
      assert Wf(base, 21, false);
      MemberTidy(m);
      ArgsTidy(args);
      hide Tidy, Wf;
      OperandTidy(base, e, 21);
      Between(Print(base), TOp(Arrow), PrintMethod(m));
      Cat(Print(base) + [TOp(Arrow)] + PrintMethod(m), PrintArgs(args));
    case Call(name, args) =>
      ArgsTidy(args);
      hide Tidy, Wf;
      Front(TIdent(name), PrintArgs(args));
    case Invoke(base, args) =>
      assert Wf(base, 21, false);
      ArgsTidy(args);
      hide Tidy, Wf;
      OperandTidy(base, e, 21);
      Cat(Print(base), PrintArgs(args));
  }

  lemma TightParts(e: Expr, level: int) returns (inner: int)
    requires Wf(e, level, false) && (e.Paren? || e.Prefix? || e.Cast?)
    ensures Wf(e.x, inner, false) && (e.Prefix? ==> StepOp(e.op) || PrefixOp(e.op))
  {
    hide Edge, IsLValue;
    inner := if e.Paren? then 0 else if e.Prefix? && StepOp(e.op) then 21 else 18;
  }

  lemma {:induction false} TightTidy(e: Expr, level: int)
    requires Wf(e, level, false) && (e.Paren? || e.Prefix? || e.Cast?)
    ensures Tidy(Print(e))
    decreases e, 1
  {
    hide Tidy, Wf;
    var x := e.x;
    var inner := TightParts(e, level);
    OperandTidy(x, e, inner);
    match e
    case Paren(_) =>
      Front(TOp(LParen), Print(x));
      End([TOp(LParen)] + Print(x), TOp(RParen));
    case Prefix(op, _) =>
      Front(TOp(op), Print(x));
    case Cast(typ, _) =>
      Front(TOp(RParen), Print(x));
      Front(TIdent(typ), [TOp(RParen)] + Print(x));
      Front(TOp(LParen), [TIdent(typ)] + ([TOp(RParen)] + Print(x)));
      assert [TOp(LParen)] + ([TIdent(typ)] + ([TOp(RParen)] + Print(x))) == Print(e);
  }

  lemma {:induction false} CoalesceTidy(e: Expr, l: Expr, r: Expr, level: int)
    requires Wf(e, level, false) && e == Coalesce(l, r, false)
    ensures Tidy(Print(e))
    decreases e, 1
  {
    assert Print(e) == Print(l) + [TOp(Coal)] + Print(r);
    hide Print, Edge, Tidy;
    assert Wf(l, 6, false) && Wf(r, if r.Assign? then 3 else 5, false);
    hide *;
    OperandTidy(l, e, 6);
    OperandTidy(r, e, if r.Assign? then 3 else 5);
    Between(Print(l), TOp(Coal), Print(r));
  }

  lemma {:induction false} IndexTidy(e: Expr, base: Expr, key: Expr, level: int)
    requires Wf(e, level, false) && e == Index(base, key)
    ensures Tidy(Print(e))
    decreases e, 1
  {
    assert Print(e) == Print(base) + [TOp(LBracket)] + Print(key) + [TOp(RBracket)];
    hide Print, Edge, Tidy;
    assert Wf(base, 21, false) && Wf(key, 0, false);
    hide *;
    OperandTidy(base, e, 21);
    OperandTidy(key, e, 0);
    BetweenClosed(Print(base), TOp(LBracket), Print(key), TOp(RBracket));
  }

  lemma {:induction false} TernaryTidy(e: Expr, c: Expr, t: Expr, f: Expr, level: int)
    requires Wf(e, level, false) && e == Ternary(c, t, f)
    ensures Tidy(Print(e))
    decreases e, 1
  {
    assert Print(e) == Print(c) + [TOp(Question)] + Print(t) + [TOp(Colon)] + Print(f);
    hide Print, Edge, Tidy;
    assert Wf(c, 5, false) && Wf(t, 0, false) && Wf(f, 0, false);
    hide *;
    OperandTidy(c, e, 5);
    OperandTidy(t, e, 0);
    OperandTidy(f, e, 0);
    TernaryBetween(Print(c), Print(t), Print(f));
  }

  lemma {:induction false} AssignTidy(e: Expr, level: int)
    requires Wf(e, level, false) && e.Assign?
    ensures Tidy(Print(e))
    decreases e, 1
  {
    var value := if ReadsTarget(e.op, e.value) then e.value.right else e.value;
    var op := if ReadsTarget(e.op, e.value) then CoalEq else e.op;
    assert Wf(e.target, 18, false) && Wf(value, 3, false) && op != Silence by { hide Print, Edge, Tidy; }
    hide Tidy, Wf, Opens;
    OperandTidy(e.target, e, 18);
    OperandTidy(value, e, 3);
    Between(Print(e.target), TOp(op), Print(value));
  }

  lemma {:induction false} BinaryOperands(op: BinOp, l: Expr, r: Expr, level: int)
    requires Wf(Binary(op, l, r), level, false)
    ensures Tidy(Print(l)) && Tidy(Print(r)) && Opens(Print(r)) && BinToken(op) != TOp(Silence)
    decreases Binary(op, l, r), 1
  {
    var e := Binary(op, l, r);
    var left := match op
      case Sym(o) => if o == StarStar then 21 else if level < 6 then 6 else level
      case InstanceOf => 19
      case Word(_) => level;
    var right := if op.Sym? && op.op != StarStar && r.Assign? then 3 else RightLevel(op);
    assert Wf(l, left, false) && Wf(r, right, false) && BinToken(op) != TOp(Silence) by { hide Edge, Print, Tidy; }
    hide *;
    OperandTidy(l, e, left);
    OperandTidy(r, e, right);
  }

  lemma {:induction false} MemberTidy(m: Member)
    requires m.Dynamic? ==> Wf(m.x, 0, false)
    ensures Tidy(PrintProp(m)) && Opens(PrintProp(m))
    ensures Tidy(PrintMethod(m)) && Opens(PrintMethod(m))
    decreases m
  {
    hide Print, Wf, Unwrap, Tidy;
    if m.Named? {
      IdentTidy(m.name);
    } else {
      PrintTidy(m.x, 0);
      Starts(m.x, 0, false);
      Front(TOp(LBrace), Print(m.x));
      End([TOp(LBrace)] + Print(m.x), TOp(RBrace));
      NameTidy(m.x);
    }
  }

  lemma IdentTidy(name: string)
    ensures Tidy([TIdent(name)])
  {
  }

  lemma NameTidy(x: Expr)
    ensures Unwrap(x).Var? || Unwrap(x).Const? ==> Tidy([TVar(Unwrap(x).name)])
  {
  }

  lemma {:induction false} ArgsTidy(args: Args)
    requires args.Args? ==> forall k :: 0 <= k < |args.es| ==> Wf(args.es[k], 0, false)
    ensures Tidy(PrintArgs(args))
    decreases args
  {
    if args.Args? && args.es != [] {
      ListTidy(args.es);
      hide Wf, Tidy, PrintList;
      Front(TOp(LParen), PrintList(args.es));
      End([TOp(LParen)] + PrintList(args.es), TOp(RParen));
    }
  }

  lemma {:induction false} ListTidy(es: seq<Expr>)
    requires es != [] && forall k :: 0 <= k < |es| ==> Wf(es[k], 0, false)
    ensures Tidy(PrintList(es)) && Opens(PrintList(es))
    decreases es
  {
    hide Tidy, Wf, Print;
    PrintTidy(es[0], 0);
    Starts(es[0], 0, false);
    if |es| > 1 {
      ListTidy(es[1..]);
      Between(Print(es[0]), TOp(Comma), PrintList(es[1..]));
    }
  }
}
