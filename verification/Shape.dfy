/**
 The trees the parser builds, by grammar level, and the tokens a parse at a level goes on with.

 Levels run from loose to tight: 0..2 `or` `xor` `and`, 3 assignment, 4 ternary, 5 `??`,
 5+p the binary operators of precedence p, 18 prefix operators and casts, 19 `instanceof`,
 20 `**`, 21 postfix chains.
 */
module Shape {
  import opened Syntax
  import opened Printer
  import opened Grammar

  /** The tightest level whose parse function builds e itself. */
  function Rank(e: Expr): (k: int)
    ensures 0 <= k <= 21
  {
    match e
    case Binary(Word(k), _, _) => if k <= 2 then k else 2
    case Binary(InstanceOf, _, _) => 19
    case Binary(Sym(op), _, _) => if op == StarStar then 20 else 5 + Prec(TOp(op))
    case Assign(_, _, _) => 3
    case Ternary(_, _, _) => 4
    case Coalesce(_, _, _) => 5
    case Prefix(_, _) => 18
    case Cast(_, _) => 18
    case _ => 21
  }

  /** A parse at level goes on with t behind a finished tree e of that level. */
  predicate Continues(level: int, e: Expr, t: Token) {
    match t
    case TIdent(name) =>
      if WordLevel(t) >= 0 then level <= WordLevel(t)
      else InstanceOfKw(t) && level <= 19 <= Rank(e)
    case TOp(op) =>
      if Prec(t) > 0 then level <= 5 + Prec(t)
      else if AssignOp(t) then level <= 3 && IsLValue(e)
      else if op == Question then level <= 4
      else if op == Coal then level <= 5
      else if op == StarStar then level <= 20 && Rank(e) == 21
      else if op == Arrow || op == LBracket || op == LParen then level <= 21 && Rank(e) == 21
      else StepOp(op) && level <= 21 && Rank(e) == 21 && IsLValue(e)
    case _ => false
  }

  /** The parse of the last operand inside e goes on with t. */
  predicate Edge(e: Expr, t: Token)
    decreases e, 0
  {
    match e
    case Const(name) =>
      || t == TOp(LParen) || t == TOp(DoubleColon) || t == TOp(Backslash)
      || (name == "static" && t.TIdent? && FuncKeyword(t.name))
    case Prop(_, _) => t == TOp(LParen)
    case Prefix(op, x) => Absorbs(x, if StepOp(op) then 21 else 18, t)
    case Cast(_, x) => Absorbs(x, 18, t)
    case Binary(op, _, r) => Absorbs(r, RightLevel(op), t) || (FoldsAssign(op) && IsLValue(r) && AssignOp(t))
    case Coalesce(_, r, assign) => Absorbs(r, if assign then 3 else 5, t) || (!assign && IsLValue(r) && AssignOp(t))
    case Ternary(_, _, f) => Absorbs(f, 0, t)
    case Assign(_, op, v) => if ReadsTarget(op, v) then Absorbs(v.right, 3, t) else Absorbs(v, 3, t)
    case _ => false
  }

  predicate Absorbs(e: Expr, level: int, t: Token)
    decreases e, 1
  {
    Edge(e, t) || Continues(level, e, t)
  }

  /** The level the right operand of an operator is parsed at. */
  function RightLevel(op: BinOp): int {
    match op
    case Sym(o) => if o == StarStar then 18 else 6 + Prec(TOp(o))
    case InstanceOf => 20
    case Word(k) => k + 1
  }

  /** An assignment behind the right operand belongs to it. */
  predicate FoldsAssign(op: BinOp) {
    op.Sym? && op.op != StarStar
  }

  /**
   The trees a parse at level answers. A strict tree puts no parenthesised constant named like a
   cast where an operand starts, which the parser reads as a cast.
   */
  predicate Wf(e: Expr, level: int, strict: bool)
    decreases e
  {
    (strict && level <= 18 <= Rank(e) - 1 ==> !CastHead(e)) &&
    match e
    case Lit(v) => true
    case Var(_) => true
    case Const(name) => !Reserved(name) && !Magic(name) && KeywordLiteral(name) == []
    case Paren(x) => Wf(x, 0, strict)
    case Append(base) => Wf(base, 21, strict) && !Edge(base, TOp(LBracket))
    case Index(base, key) => Wf(base, 21, strict) && !Edge(base, TOp(LBracket)) && Wf(key, 0, strict)
    case Prop(base, member) =>
      && Wf(base, 21, strict) && !Edge(base, TOp(Arrow))
      && (member.Dynamic? ==> Wf(member.x, 0, strict))
    case Method(base, member, args) =>
      && Wf(base, 21, strict) && !Edge(base, TOp(Arrow))
      && (member.Dynamic? ==> Wf(member.x, 0, strict))
      && (args.Args? ==> forall k :: 0 <= k < |args.es| ==> Wf(args.es[k], 0, strict))
    case Call(name, args) =>
      && !Reserved(name) && KeywordLiteral(name) == []
      && (args.Args? ==> forall k :: 0 <= k < |args.es| ==> Wf(args.es[k], 0, strict))
    case Invoke(base, args) =>
      && Wf(base, 21, strict) && !Edge(base, TOp(LParen))
      && (args.Args? ==> forall k :: 0 <= k < |args.es| ==> Wf(args.es[k], 0, strict))
    case Postfix(op, base) => StepOp(op) && Wf(base, 21, strict) && IsLValue(base) && !Edge(base, TOp(op))
    case Prefix(op, x) =>
      && level <= 18
      && if StepOp(op) then Wf(x, 21, strict) && IsLValue(x) else PrefixOp(op) && Wf(x, 18, strict)
    case Cast(typ, x) => level <= 18 && CastType(typ) && Wf(x, 18, strict)
    case Binary(Sym(op), l, r) =>
      if op == StarStar then
        && level <= 20
        && Wf(l, 21, strict) && !Edge(l, TOp(op))
        && Wf(r, 18, strict)
      else
        && 0 < Prec(TOp(op)) && level <= 5 + Prec(TOp(op))
        && Wf(l, if level < 6 then 6 else level, strict) && !Edge(l, TOp(op))
        && (if r.Assign? then Wf(r, 3, strict) else Wf(r, RightLevel(Sym(op)), strict))
    case Binary(InstanceOf, l, r) =>
      && level <= 19
      && Wf(l, 19, strict) && !Absorbs(l, 20, BinToken(InstanceOf))
      && Wf(r, 20, strict)
    case Binary(Word(k), l, r) =>
      && k <= 2 && level <= k
      && Wf(l, level, strict) && !Edge(l, BinToken(Word(k)))
      && Wf(r, k + 1, strict)
    case Coalesce(l, r, assign) =>
      && !assign && level <= 5
      && Wf(l, 6, strict) && !Edge(l, TOp(Coal))
      && (if r.Assign? then Wf(r, 3, strict) else Wf(r, 5, strict))
    case Ternary(c, t, f) =>
      && level <= 4
      && Wf(c, 5, strict) && !Edge(c, TOp(Question))
      && Wf(t, 0, strict) && Wf(f, 0, strict)
    case Assign(target, op, v) =>
      && level <= 3 && AssignOp(TOp(op)) && op != CoalEq
      && IsLValue(target) && Wf(target, 18, strict)
      && if ReadsTarget(op, v) then
          v.left == target && !Unwrap(target).Append? && Wf(v.right, 3, strict)
        else Wf(v, 3, strict)
  }

  /** A tree keeps its shape at every looser level. Level 18 asks of a tighter tree that no cast is read. */
  lemma {:induction false} WfLooser(e: Expr, level: int, looser: int, strict: bool)
    requires Wf(e, level, strict) && looser <= level
    requires looser <= 18 < level ==> strict ==> Rank(e) < 19 || !CastHead(e)
    ensures Wf(e, looser, strict)
    decreases e, 1
  {
    hide Edge, CastHead, IsLValue, AssignOp, ReadsTarget, Unwrap, Continues;
    if e.Binary? {
      WfLooserBinary(e, level, looser, strict);
    }
  }

  lemma {:induction false} WfLooserBinary(e: Expr, level: int, looser: int, strict: bool)
    requires e.Binary? && Wf(e, level, strict) && looser <= level
    requires looser <= 18 < level ==> strict ==> Rank(e) < 19 || !CastHead(e)
    ensures Wf(e, looser, strict)
    decreases e, 0
  {
    hide Edge, CastHead, IsLValue, AssignOp, ReadsTarget, Unwrap, Continues;
    match e.bop
    case Sym(op) =>
      if op != StarStar { WfLooser(e.left, if level < 6 then 6 else level, if looser < 6 then 6 else looser, strict); }
    case Word(_) => WfLooser(e.left, level, looser, strict);
    case _ =>
  }

  /** A tree of the postfix level has the same shape at every level from there to the prefix operators. */
  lemma WfLValue(e: Expr, level: int, strict: bool)
    requires IsLValue(e) && level <= 18 && Wf(e, level, strict)
    ensures Wf(e, 18, strict)
  {
  }

  /** Closing tokens, separators and the end of the stream continue no expression. */
  predicate Stop(t: Token) {
    match t
    case TEof => true
    case TOp(op) =>
      op == RParen || op == RBracket || op == RBrace || op == Comma || op == Semi || op == Colon || op == FatArrow
    case _ => false
  }

  lemma StopAlone(e: Expr, level: int, t: Token)
    requires Stop(t)
    ensures !Continues(level, e, t) && !AssignOp(t)
    ensures t != TOp(LParen) && t != TOp(DoubleColon) && t != TOp(Backslash) && !t.TIdent?
  {
  }

  lemma {:induction false} StopEnds(e: Expr, level: int, t: Token)
    requires Stop(t)
    ensures !Absorbs(e, level, t)
    decreases e
  {
    hide Stop, Continues;
    StopAlone(e, level, t);
    match e
    case Prefix(op, x) => StopEnds(x, if StepOp(op) then 21 else 18, t);
    case Cast(_, x) => StopEnds(x, 18, t);
    case Binary(op, _, r) => StopEnds(r, RightLevel(op), t);
    case Coalesce(_, r, assign) => StopEnds(r, if assign then 3 else 5, t);
    case Ternary(_, _, f) => StopEnds(f, 0, t);
    case Assign(_, op, v) => if ReadsTarget(op, v) { StopEnds(v.right, 3, t); } else { StopEnds(v, 3, t); }
    case _ =>
  }

  /** The tokens an expression may start with. */
  predicate Starter(t: Token) {
    match t
    case TOp(op) => op == LParen || StepOp(op) || PrefixOp(op)
    case TForeign => false
    case TEof => false
    case _ => true
  }

  /** A postfix chain or an infix tree, which begins with an operand of its own. */
  predicate Led(e: Expr) {
    || e.Append? || e.Index? || e.Prop? || e.Method? || e.Invoke? || e.Postfix?
    || e.Binary? || e.Coalesce? || e.Ternary? || e.Assign?
  }

  // The operand an expression begins with, and the tokens behind it.
  lemma FirstOperand(e: Expr, level: int, strict: bool) returns (x: Expr, rest: seq<Token>, inner: int)
    requires Wf(e, level, strict) && Led(e)
    ensures x < e && Wf(x, inner, strict)
    ensures Print(e) == Print(x) + rest && rest != [] && rest[0] != TOp(RParen)
    ensures Rank(e) >= 19 ==> (inner == 19 || inner == 21) && (CastHead(x) ==> CastHead(e))
  {
    hide Wf, Print, CastHead;
    if e.Binary? {
      x, rest, inner := BinaryOperand(e, level, strict);
    } else if e.Coalesce? || e.Ternary? || e.Assign? {
      x, rest, inner := InfixOperand(e, level, strict);
    } else {
      x, rest := ChainOperand(e, level, strict);
      inner := 21;
    }
  }

  lemma BinaryOperand(e: Expr, level: int, strict: bool) returns (x: Expr, rest: seq<Token>, inner: int)
    requires Wf(e, level, strict) && e.Binary?
    ensures x < e && Wf(x, inner, strict)
    ensures Print(e) == Print(x) + rest && rest != [] && rest[0] != TOp(RParen)
    ensures Rank(e) >= 19 ==> (inner == 19 || inner == 21) && (CastHead(x) ==> CastHead(e))
  {
    hide Edge, IsLValue, Unwrap, Continues;
    x, rest := e.left, [BinToken(e.bop)] + Print(e.right);
    inner := match e.bop
      case Sym(o) => if o == StarStar then 21 else if level < 6 then 6 else level
      case InstanceOf => 19
      case Word(_) => level;
  }

  lemma InfixOperand(e: Expr, level: int, strict: bool) returns (x: Expr, rest: seq<Token>, inner: int)
    requires Wf(e, level, strict) && (e.Coalesce? || e.Ternary? || e.Assign?)
    ensures x < e && Wf(x, inner, strict)
    ensures Print(e) == Print(x) + rest && rest != [] && rest[0] != TOp(RParen)
  {
    hide Wf, Print;
    InfixShape(e, level, strict);
    if e.Ternary? {
      x, inner := e.cond, 5;
      rest := TernaryPrint(e);
    } else if e.Coalesce? {
      x, inner := e.left, 6;
      rest := CoalescePrint(e);
    } else {
      x, inner := e.target, 18;
      rest := AssignPrint(e);
    }
  }

  lemma InfixShape(e: Expr, level: int, strict: bool)
    requires Wf(e, level, strict)
    ensures e.Ternary? ==> Wf(e.cond, 5, strict)
    ensures e.Coalesce? ==> Wf(e.left, 6, strict)
    ensures e.Assign? ==> Wf(e.target, 18, strict) && e.op != RParen
  {
    hide Edge, CastHead, IsLValue, Unwrap, Continues;
  }

  lemma TernaryPrint(e: Expr) returns (rest: seq<Token>)
    requires e.Ternary?
    ensures Print(e) == Print(e.cond) + rest && rest != [] && rest[0] == TOp(Question)
  {
    rest := [TOp(Question)] + Print(e.then_) + [TOp(Colon)] + Print(e.else_);
  }

  lemma CoalescePrint(e: Expr) returns (rest: seq<Token>)
    requires e.Coalesce?
    ensures Print(e) == Print(e.left) + rest && rest != [] && rest[0] == TOp(Coal)
  {
    rest := [TOp(Coal)] + Print(e.right);
  }

  lemma AssignPrint(e: Expr) returns (rest: seq<Token>)
    requires e.Assign? && e.op != RParen
    ensures Print(e) == Print(e.target) + rest && rest != [] && rest[0] != TOp(RParen)
  {
    var own := ReadsTarget(e.op, e.value);
    rest := [TOp(if own then CoalEq else e.op)] + Print(if own then e.value.right else e.value);
  }

  lemma ChainOperand(e: Expr, level: int, strict: bool) returns (x: Expr, rest: seq<Token>)
    requires Wf(e, level, strict) && (e.Append? || e.Index? || e.Prop? || e.Method? || e.Invoke? || e.Postfix?)
    ensures x == e.base && Wf(x, 21, strict)
    ensures Print(e) == Print(x) + rest && rest != [] && rest[0] != TOp(RParen)
    ensures CastHead(x) ==> CastHead(e)
  {
    hide Wf, Print;
    ChainShape(e, level, strict);
    x := e.base;
    if e.Method? {
      rest := MethodPrint(e);
    } else if e.Postfix? {
      rest := PostfixPrint(e);
    } else {
      rest := ChainPrint(e);
    }
  }

  lemma ChainShape(e: Expr, level: int, strict: bool)
    requires Wf(e, level, strict) && (e.Append? || e.Index? || e.Prop? || e.Method? || e.Invoke? || e.Postfix?)
    ensures Wf(e.base, 21, strict) && (e.Postfix? ==> StepOp(e.op))
  {
    hide Edge, CastHead, IsLValue, Continues;
  }

  lemma MethodPrint(e: Expr) returns (rest: seq<Token>)
    requires e.Method?
    ensures Print(e) == Print(e.base) + rest && rest != [] && rest[0] == TOp(Arrow)
  {
    hide PrintMethod, PrintArgs;
    rest := [TOp(Arrow)] + PrintMethod(e.member) + PrintArgs(e.args);
  }

  lemma PostfixPrint(e: Expr) returns (rest: seq<Token>)
    requires e.Postfix? && StepOp(e.op)
    ensures Print(e) == Print(e.base) + rest && rest != [] && rest[0] != TOp(RParen)
  {
    rest := [TOp(e.op)];
  }

  lemma ChainPrint(e: Expr) returns (rest: seq<Token>)
    requires e.Append? || e.Index? || e.Prop? || e.Invoke?
    ensures Print(e) == Print(e.base) + rest && rest != [] && rest[0] != TOp(RParen)
  {
    hide PrintProp;
    if e.Append? {
      rest := [TOp(LBracket), TOp(RBracket)];
    } else if e.Index? {
      rest := [TOp(LBracket)] + Print(e.key) + [TOp(RBracket)];
    } else if e.Prop? {
      rest := [TOp(Arrow)] + PrintProp(e.member);
    } else {
      rest := PrintArgs(e.args);
    }
  }

  lemma TightRank(e: Expr, level: int, strict: bool)
    requires Wf(e, level, strict) && 19 <= level <= 21
    ensures Rank(e) >= 19
  {
    hide Edge, CastHead, IsLValue, Continues;
  }

  lemma {:induction false} Starts(e: Expr, level: int, strict: bool)
    requires Wf(e, level, strict)
    ensures Starter(Print(e)[0])
    ensures Rank(e) >= 19 ==> Print(e)[0] == TOp(LParen) || !Print(e)[0].TOp?
    decreases e
  {
    hide Wf, Print, Rank, Starter, CastHead;
    if Led(e) {
      var x, rest, inner := FirstOperand(e, level, strict);
      Starts(x, inner, strict);
      if Rank(e) >= 19 { TightRank(x, inner, strict); }
    } else {
      LeafStarts(e, level, strict);
    }
  }

  lemma LeafStarts(e: Expr, level: int, strict: bool)
    requires Wf(e, level, strict) && !Led(e)
    ensures Starter(Print(e)[0])
    ensures Rank(e) >= 19 ==> Print(e)[0] == TOp(LParen) || !Print(e)[0].TOp?
  {
    hide Edge, CastHead, IsLValue, Continues;
  }

  /**
   The tree prints to a form that names the members it was built with: a dynamic property whose
   expression unwraps to a name is a plain variable, and so is every dynamic method.
   */
  predicate MembersPlain(e: Expr)
    decreases e
  {
    match e
    case Paren(x) => MembersPlain(x)
    case Append(base) => MembersPlain(base)
    case Index(base, key) => MembersPlain(base) && MembersPlain(key)
    case Prop(base, Named(_)) => MembersPlain(base)
    case Prop(base, Dynamic(x)) => MembersPlain(base) && MembersPlain(x) && (Unwrap(x).Var? || Unwrap(x).Const? ==> x.Var?)
    case Method(base, member, args) => MembersPlain(base) && (member.Dynamic? ==> member.x.Var?) && ArgsPlain(args)
    case Call(_, args) => ArgsPlain(args)
    case Invoke(base, args) => MembersPlain(base) && ArgsPlain(args)
    case Prefix(_, x) => MembersPlain(x)
    case Postfix(_, base) => MembersPlain(base)
    case Cast(_, x) => MembersPlain(x)
    case Binary(_, l, r) => MembersPlain(l) && MembersPlain(r)
    case Coalesce(l, r, _) => MembersPlain(l) && MembersPlain(r)
    case Ternary(c, t, f) => MembersPlain(c) && MembersPlain(t) && MembersPlain(f)
    case Assign(t, op, v) => MembersPlain(t) && MembersPlain(v)
    case _ => true
  }

  predicate ArgsPlain(args: Args)
    decreases args
  {
    args.Args? ==> forall k :: 0 <= k < |args.es| ==> MembersPlain(args.es[k])
  }
}
