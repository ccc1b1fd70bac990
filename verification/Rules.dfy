/** The parse functions as rules: what each answers from the answers of the functions it calls. */
module Rules {
  import opened Syntax
  import opened Grammar

  lemma PostfixBase(toks: seq<Token>, i: nat, e: Expr, j: nat)
    requires Stream(toks) && i < |toks| && j < |toks| && ParsePrimary(toks, i) == Ok(e, j)
    ensures ParsePostfix(toks, i) == PostfixLoop(toks, j, e)
  {
  }

  lemma PostfixNext(toks: seq<Token>, i: nat, left: Expr, e: Expr, j: nat)
    requires Stream(toks) && i < j < |toks| && PostfixStep(toks, i, left) == Ok(e, j)
    ensures PostfixLoop(toks, i, left) == PostfixLoop(toks, j, e)
  {
  }

  lemma PostfixEnds(toks: seq<Token>, i: nat, left: Expr)
    requires Stream(toks) && i < |toks|
    requires !OpAt(toks, i, Arrow) && !OpAt(toks, i, LBracket) && !OpAt(toks, i, LParen)
    requires toks[i].TOp? && StepOp(toks[i].op) ==> !IsLValue(left)
    ensures PostfixLoop(toks, i, left) == Ok(left, i)
  {
    assert PostfixStep(toks, i, left) == Ok(left, i);
  }

  lemma StepAppend(toks: seq<Token>, i: nat, left: Expr)
    requires Stream(toks) && i + 2 < |toks| && toks[i] == TOp(LBracket) && toks[i + 1] == TOp(RBracket)
    ensures PostfixStep(toks, i, left) == Ok(Append(left), i + 2)
  {
  }

  lemma StepIndex(toks: seq<Token>, i: nat, left: Expr, key: Expr, j: nat)
    requires Stream(toks) && i + 1 < j < |toks| && toks[i] == TOp(LBracket) && toks[i + 1] != TOp(RBracket)
    requires ParseExpr(toks, i + 1) == Ok(key, j) && toks[j] == TOp(RBracket)
    ensures PostfixStep(toks, i, left) == Ok(Index(left, key), j + 1)
  {
  }

  lemma StepProp(toks: seq<Token>, i: nat, left: Expr, member: Member, j: nat)
    requires Stream(toks) && i + 1 < j < |toks| && toks[i] == TOp(Arrow)
    requires ParseMember(toks, i + 1) == Ok(member, j) && toks[j] != TOp(LParen)
    ensures PostfixStep(toks, i, left) == Ok(Prop(left, member), j)
  {
  }

  lemma StepMethod(toks: seq<Token>, i: nat, left: Expr, member: Member, j: nat, args: Args, k: nat)
    requires Stream(toks) && i + 1 < j < |toks| && toks[i] == TOp(Arrow)
    requires ParseMember(toks, i + 1) == Ok(member, j) && toks[j] == TOp(LParen)
    requires ParseCallArgs(toks, j) == Ok(args, k)
    ensures PostfixStep(toks, i, left) == Ok(Method(left, member, args), k)
  {
  }

  lemma StepInvoke(toks: seq<Token>, i: nat, left: Expr, args: Args, j: nat)
    requires Stream(toks) && i < |toks| && toks[i] == TOp(LParen)
    requires ParseCallArgs(toks, i) == Ok(args, j)
    ensures PostfixStep(toks, i, left) == Ok(Invoke(left, args), j)
  {
  }

  lemma StepPostfix(toks: seq<Token>, i: nat, left: Expr)
    requires Stream(toks) && i + 1 < |toks| && toks[i].TOp? && StepOp(toks[i].op) && IsLValue(left)
    ensures PostfixStep(toks, i, left) == Ok(Postfix(toks[i].op, left), i + 1)
  {
  }

  lemma MemberBraced(toks: seq<Token>, i: nat, x: Expr, j: nat)
    requires Stream(toks) && i + 1 < j < |toks| && toks[i] == TOp(LBrace)
    requires ParseExpr(toks, i + 1) == Ok(x, j) && toks[j] == TOp(RBrace)
    ensures ParseMember(toks, i) == Ok(Dynamic(x), j + 1)
  {
  }

  lemma PrimaryParen(toks: seq<Token>, i: nat, x: Expr, j: nat)
    requires Stream(toks) && i + 1 < j < |toks| && toks[i] == TOp(LParen)
    requires ParseExpr(toks, i + 1) == Ok(x, j) && toks[j] == TOp(RParen)
    ensures ParsePrimary(toks, i) == Ok(Paren(x), j + 1)
  {
  }

  lemma PrimaryCall(toks: seq<Token>, i: nat, name: string, args: Args, j: nat)
    requires Stream(toks) && i + 1 < |toks| && toks[i] == TIdent(name) && toks[i + 1] == TOp(LParen)
    requires !Reserved(name) && KeywordLiteral(name) == []
    requires ParseCallArgs(toks, i + 1) == Ok(args, j)
    ensures ParsePrimary(toks, i) == Ok(Call(name, args), j)
  {
    hide ParseCallArgs;
    assert ParseIdent(toks, i) == Ok(Call(name, args), j);
  }

  lemma ArgsList(toks: seq<Token>, i: nat, es: seq<Expr>, j: nat)
    requires Stream(toks) && i + 1 < |toks| && toks[i] == TOp(LParen) && toks[i + 1] != TOp(Dot)
    requires ParseArgs(toks, i + 1) == Ok(es, j)
    ensures ParseCallArgs(toks, i) == Ok(Args(es), j)
  {
  }

  lemma ArgsLast(toks: seq<Token>, i: nat, e: Expr, j: nat)
    requires Stream(toks) && i < j < |toks| && toks[i] != TOp(RParen)
    requires ParseExpr(toks, i) == Ok(e, j) && toks[j] == TOp(RParen)
    ensures ParseArgs(toks, i) == Ok([e], j + 1)
  {
  }

  lemma ArgsMore(toks: seq<Token>, i: nat, e: Expr, j: nat, rest: seq<Expr>, k: nat)
    requires Stream(toks) && i < j && j + 1 < |toks| && toks[i] != TOp(RParen)
    requires ParseExpr(toks, i) == Ok(e, j) && toks[j] == TOp(Comma)
    requires ParseArgs(toks, j + 1) == Ok(rest, k)
    ensures ParseArgs(toks, i) == Ok([e] + rest, k)
  {
  }

  lemma PowBase(toks: seq<Token>, i: nat, e: Expr, j: nat)
    requires Stream(toks) && i < |toks| && j < |toks|
    requires ParsePostfix(toks, i) == Ok(e, j) && toks[j] != TOp(StarStar)
    ensures ParsePow(toks, i) == Ok(e, j)
  {
    hide ParsePostfix, ParseUnary, FromIdent, FromCast;
  }

  lemma PowStep(toks: seq<Token>, i: nat, l: Expr, j: nat, r: Expr, k: nat)
    requires Stream(toks) && i < |toks| && j + 1 < |toks|
    requires ParsePostfix(toks, i) == Ok(l, j) && toks[j] == TOp(StarStar)
    requires ParseUnary(toks, j + 1) == Ok(r, k)
    ensures ParsePow(toks, i) == Ok(Binary(Sym(StarStar), l, r), k)
  {
    hide ParsePostfix, ParseUnary, FromIdent, FromCast;
  }

  lemma InstanceOfBase(toks: seq<Token>, i: nat, e: Expr, j: nat)
    requires Stream(toks) && i < |toks| && j < |toks| && ParsePow(toks, i) == Ok(e, j)
    ensures ParseInstanceOf(toks, i) == InstanceOfLoop(toks, j, e)
  {
  }

  lemma InstanceOfNext(toks: seq<Token>, i: nat, l: Expr, r: Expr, j: nat)
    requires Stream(toks) && i + 1 < |toks| && j < |toks| && InstanceOfKw(toks[i])
    requires ParsePow(toks, i + 1) == Ok(r, j)
    ensures InstanceOfLoop(toks, i, l) == InstanceOfLoop(toks, j, Binary(InstanceOf, l, r))
  {
  }

  lemma InstanceOfEnds(toks: seq<Token>, i: nat, e: Expr)
    requires Stream(toks) && i < |toks| && !InstanceOfKw(toks[i])
    ensures InstanceOfLoop(toks, i, e) == Ok(e, i)
  {
  }

  lemma UnaryStep(toks: seq<Token>, i: nat, x: Expr, j: nat)
    requires Stream(toks) && i + 1 < |toks| && toks[i].TOp? && StepOp(toks[i].op) && IsLValue(x)
    requires ParsePostfix(toks, i + 1) == Ok(x, j)
    ensures ParseUnary(toks, i) == Ok(Prefix(toks[i].op, x), j)
  {
  }

  lemma UnaryPrefix(toks: seq<Token>, i: nat, x: Expr, j: nat)
    requires Stream(toks) && i + 1 < |toks| && toks[i].TOp? && PrefixOp(toks[i].op)
    requires ParseUnary(toks, i + 1) == Ok(x, j)
    ensures ParseUnary(toks, i) == Ok(Prefix(toks[i].op, x), j)
  {
  }

  lemma UnaryCast(toks: seq<Token>, i: nat, x: Expr, j: nat)
    requires Stream(toks) && i + 3 < |toks| && CastAt(toks, i)
    requires ParseUnary(toks, i + 3) == Ok(x, j)
    ensures ParseUnary(toks, i) == Ok(Cast(toks[i + 1].name, x), j)
  {
  }

  lemma UnaryBase(toks: seq<Token>, i: nat)
    requires Stream(toks) && i < |toks| && !CastAt(toks, i) && (toks[i] == TOp(LParen) || !toks[i].TOp?)
    ensures ParseUnary(toks, i) == ParseInstanceOf(toks, i)
  {
  }

  lemma BinaryBase(toks: seq<Token>, i: nat, e: Expr, j: nat, min: nat)
    requires Stream(toks) && i < |toks| && j < |toks| && 1 <= min <= 12 && ParseUnary(toks, i) == Ok(e, j)
    ensures ParseBinary(toks, i, min) == BinaryLoop(toks, j, e, min)
  {
  }

  lemma BinaryNext(toks: seq<Token>, i: nat, l: Expr, r: Expr, j: nat, min: nat)
    requires Stream(toks) && i + 1 < |toks| && j < |toks| && 1 <= min <= 12 && Prec(toks[i]) >= min
    requires BinaryRight(toks, i + 1, Prec(toks[i]) + 1) == Ok(r, j)
    ensures BinaryLoop(toks, i, l, min) == BinaryLoop(toks, j, Binary(Sym(toks[i].op), l, r), min)
  {
  }

  lemma BinaryEnds(toks: seq<Token>, i: nat, e: Expr, min: nat)
    requires Stream(toks) && i < |toks| && 1 <= min <= 12 && Prec(toks[i]) < min
    ensures BinaryLoop(toks, i, e, min) == Ok(e, i)
  {
  }

  lemma RightBase(toks: seq<Token>, i: nat, e: Expr, j: nat, min: nat)
    requires Stream(toks) && i < |toks| && j < |toks| && 1 <= min <= 12
    requires ParseBinary(toks, i, min) == Ok(e, j) && !(AssignOp(toks[j]) && IsLValue(e))
    ensures BinaryRight(toks, i, min) == Ok(e, j)
  {
  }

  lemma RightAssign(toks: seq<Token>, i: nat, target: Expr, j: nat, min: nat)
    requires Stream(toks) && i < |toks| && j + 1 < |toks| && 1 <= min <= 12
    requires ParseBinary(toks, i, min) == Ok(target, j) && AssignOp(toks[j]) && IsLValue(target)
    requires toks[j + 1] != TOp(Amp)
    ensures BinaryRight(toks, i, min) == AssignTo(toks, j, target)
  {
  }

  lemma AssignValue(toks: seq<Token>, i: nat, target: Expr, value: Expr, j: nat)
    requires Stream(toks) && i + 1 < |toks| && AssignOp(toks[i]) && ParseAssign(toks, i + 1) == Ok(value, j)
    ensures AssignTo(toks, i, target) == AssignExpr(target, toks[i].op, value, j)
  {
  }

  lemma CoalesceBase(toks: seq<Token>, i: nat, e: Expr, j: nat)
    requires Stream(toks) && i < |toks| && j < |toks|
    requires ParseBinary(toks, i, 1) == Ok(e, j) && toks[j] != TOp(Coal)
    ensures ParseCoalesce(toks, i) == Ok(e, j)
  {
  }

  lemma CoalesceStep(toks: seq<Token>, i: nat, l: Expr, j: nat, r: Expr, k: nat)
    requires Stream(toks) && i < |toks| && j + 1 < |toks| && k < |toks|
    requires ParseBinary(toks, i, 1) == Ok(l, j) && toks[j] == TOp(Coal)
    requires ParseCoalesce(toks, j + 1) == Ok(r, k) && !(AssignOp(toks[k]) && IsLValue(r))
    ensures ParseCoalesce(toks, i) == Ok(Coalesce(l, r, false), k)
  {
  }

  lemma CoalesceAssign(toks: seq<Token>, i: nat, l: Expr, j: nat, target: Expr, k: nat, r: Expr, n: nat)
    requires Stream(toks) && i < |toks| && j + 1 < |toks| && k < |toks|
    requires ParseBinary(toks, i, 1) == Ok(l, j) && toks[j] == TOp(Coal)
    requires ParseCoalesce(toks, j + 1) == Ok(target, k) && AssignOp(toks[k]) && IsLValue(target)
    requires AssignTo(toks, k, target) == Ok(r, n)
    ensures ParseCoalesce(toks, i) == Ok(Coalesce(l, r, false), n)
  {
    hide ParseBinary, AssignTo, ParseExpr, FromIdent;
  }

  lemma TernaryBase(toks: seq<Token>, i: nat, e: Expr, j: nat)
    requires Stream(toks) && i < |toks| && j < |toks|
    requires ParseCoalesce(toks, i) == Ok(e, j) && toks[j] != TOp(Question)
    ensures ParseTernary(toks, i) == Ok(e, j)
  {
  }

  lemma TernaryStep(toks: seq<Token>, i: nat, c: Expr, j: nat, t: Expr, k: nat, f: Expr, n: nat)
    requires Stream(toks) && i < |toks| && j + 1 < |toks| && k + 1 < |toks|
    requires ParseCoalesce(toks, i) == Ok(c, j) && toks[j] == TOp(Question) && toks[j + 1] != TOp(Colon)
    requires ParseExpr(toks, j + 1) == Ok(t, k) && toks[k] == TOp(Colon)
    requires ParseExpr(toks, k + 1) == Ok(f, n)
    ensures ParseTernary(toks, i) == Ok(Ternary(c, t, f), n)
  {
    hide ParseCoalesce, ParseExpr, FromIdent;
  }

  lemma AssignBase(toks: seq<Token>, i: nat, e: Expr, j: nat)
    requires Stream(toks) && i < |toks| && j < |toks|
    requires ParseTernary(toks, i) == Ok(e, j) && !(AssignOp(toks[j]) && IsLValue(e))
    ensures ParseAssign(toks, i) == Ok(e, j)
  {
    hide ParseTernary, AssignTo, IsLValue, FromIdent;
  }

  lemma AssignStep(toks: seq<Token>, i: nat, target: Expr, j: nat)
    requires Stream(toks) && i < |toks| && j + 1 < |toks|
    requires ParseTernary(toks, i) == Ok(target, j) && AssignOp(toks[j]) && IsLValue(target)
    requires toks[j + 1] != TOp(Amp)
    ensures ParseAssign(toks, i) == AssignTo(toks, j, target)
  {
    hide ParseTernary, AssignTo, IsLValue, FromIdent;
  }

  /** One operand of a word operator and the operators of level min and up behind it. */
  function LogicalFrom(toks: seq<Token>, i: nat, min: nat): Parse<Expr>
    requires Stream(toks) && i < |toks| && min <= 3
  {
    match ParseAssign(toks, i)
    case Err(e) => Err(e)
    case Ok(left, j) => LogicalLoop(toks, j, left, min)
  }

  lemma LogicalNext(toks: seq<Token>, i: nat, l: Expr, r: Expr, j: nat, min: nat)
    requires Stream(toks) && i + 1 < |toks| && j < |toks| && min <= WordLevel(toks[i])
    requires LogicalFrom(toks, i + 1, WordLevel(toks[i]) + 1) == Ok(r, j)
    ensures LogicalLoop(toks, i, l, min) == LogicalLoop(toks, j, Binary(Word(WordLevel(toks[i])), l, r), min)
  {
    hide ParseAssign, WordLevel;
  }

  lemma LogicalEnds(toks: seq<Token>, i: nat, e: Expr, min: nat)
    requires Stream(toks) && i < |toks| && min <= 3 && WordLevel(toks[i]) < min
    ensures LogicalLoop(toks, i, e, min) == Ok(e, i)
  {
  }

  lemma ExprIsLogical(toks: seq<Token>, i: nat)
    requires Stream(toks) && i < |toks|
    ensures ParseExpr(toks, i) == LogicalFrom(toks, i, 0)
  {
  }
}
