/** The formatter's expression printer, as the tokens it writes. */
module Printer {
  import opened Syntax

  function Print(e: Expr): (ts: seq<Token>)
    ensures |ts| > 0
    decreases e
  {
    match e
    case Lit(v) => [PrintLit(v)]
    case Var(name) => [TVar(name)]
    case Const(name) => [TIdent(name)]
    case Paren(x) => [TOp(LParen)] + Print(x) + [TOp(RParen)]
    case Append(base) => Print(base) + [TOp(LBracket), TOp(RBracket)]
    case Index(base, key) => Print(base) + [TOp(LBracket)] + Print(key) + [TOp(RBracket)]
    case Prop(base, member) => Print(base) + [TOp(Arrow)] + PrintProp(member)
    case Method(base, member, args) => Print(base) + [TOp(Arrow)] + PrintMethod(member) + PrintArgs(args)
    case Call(name, args) => [TIdent(name)] + PrintArgs(args)
    case Invoke(base, args) => Print(base) + PrintArgs(args)
    case Prefix(op, x) => [TOp(op)] + Print(x)
    case Postfix(op, base) => Print(base) + [TOp(op)]
    case Cast(typ, x) => [TOp(LParen), TIdent(typ), TOp(RParen)] + Print(x)
    case Binary(op, l, r) => Print(l) + [BinToken(op)] + Print(r)
    case Coalesce(l, r, _) => Print(l) + [TOp(Coal)] + Print(r)
    case Ternary(c, t, f) => Print(c) + [TOp(Question)] + Print(t) + [TOp(Colon)] + Print(f)
    case Assign(target, op, value) =>
      if ReadsTarget(op, value) then Print(target) + [TOp(CoalEq)] + Print(value.right)
      else Print(target) + [TOp(op)] + Print(value)
  }

  /** `$a ??= b` is kept as the assignment of a marked `$a ?? b`. */
  predicate ReadsTarget(op: Op, value: Expr) {
    op == Eq && value.Coalesce? && value.assign
  }

  function PrintLit(v: Literal): Token {
    match v
    case IntLit(n) => TInt(n)
    case StrLit(text, raw) => TStr(text, raw)
    case BoolLit(b) => TIdent(if b then "true" else "false")
    case NullLit => TIdent("null")
  }

  /** A dynamic property keeps its braces unless it unwraps to a name, which prints as `->$name`. */
  function PrintProp(m: Member): (ts: seq<Token>)
    ensures |ts| > 0
    decreases m
  {
    match m
    case Named(name) => [TIdent(name)]
    case Dynamic(x) =>
      var u := Unwrap(x);
      if u.Var? || u.Const? then [TVar(u.name)] else [TOp(LBrace)] + Print(x) + [TOp(RBrace)]
  }

  /** A dynamic method prints without braces. */
  function PrintMethod(m: Member): (ts: seq<Token>)
    ensures |ts| > 0
    decreases m
  {
    match m
    case Named(name) => [TIdent(name)]
    case Dynamic(x) => Print(x)
  }

  function PrintArgs(a: Args): (ts: seq<Token>)
    ensures |ts| > 0
    decreases a
  {
    match a
    case FirstClass => [TOp(LParen), TOp(Dot), TOp(Dot), TOp(Dot), TOp(RParen)]
    case Args(es) => [TOp(LParen)] + PrintList(es) + [TOp(RParen)]
  }

  /** The expressions joined by commas. */
  function PrintList(es: seq<Expr>): seq<Token>
    decreases es
  {
    if es == [] then []
    else if |es| == 1 then Print(es[0])
    else Print(es[0]) + [TOp(Comma)] + PrintList(es[1..])
  }

  function BinToken(op: BinOp): Token {
    match op
    case Sym(o) => TOp(o)
    case InstanceOf => TIdent("instanceof")
    case Word(k) => TIdent(WordName(k))
  }
}
