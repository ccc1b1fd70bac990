/**
 The expression grammar as functions of a token stream and an offset, one for each parse
 function and one for each of its loops. An answer carries the offset after what it read.
 */
module Grammar {
  import opened Syntax

  predicate OpAt(toks: seq<Token>, i: nat, op: Op)
    requires Stream(toks)
  {
    Peek(toks, i) == TOp(op)
  }

  /** `(type)` in front of an operand. */
  predicate CastAt(toks: seq<Token>, i: nat)
    requires Stream(toks)
  {
    && OpAt(toks, i, LParen)
    && Peek(toks, i + 1).TIdent? && CastType(Peek(toks, i + 1).name)
    && OpAt(toks, i + 2, RParen)
  }

  /** `(...)`, which makes a call a first-class callable. */
  predicate MarkerAt(toks: seq<Token>, i: nat)
    requires Stream(toks)
  {
    && OpAt(toks, i, LParen)
    && OpAt(toks, i + 1, Dot) && OpAt(toks, i + 2, Dot) && OpAt(toks, i + 3, Dot)
    && OpAt(toks, i + 4, RParen)
  }

  /** The tree starts with a parenthesised constant that is spelled like a cast. */
  predicate CastHead(e: Expr)
    decreases e
  {
    match e
    case Paren(x) => x.Const? && CastType(x.name)
    case Append(base) => CastHead(base)
    case Index(base, _) => CastHead(base)
    case Prop(base, _) => CastHead(base)
    case Method(base, _, _) => CastHead(base)
    case Invoke(base, _) => CastHead(base)
    case Postfix(_, base) => CastHead(base)
    case Binary(_, l, _) => CastHead(l)
    case _ => false
  }

  // A bare constant is read from one identifier, unless a silence operator stands in front.
  ghost predicate FromIdent(toks: seq<Token>, i: nat, r: Parse<Expr>)
    requires Stream(toks) && i < |toks|
  {
    r.Ok? && r.value.Const? && !OpAt(toks, i, Silence) ==> r.next == i + 1 && toks[i] == TIdent(r.value.name)
  }

  // A tree that looks like a cast was read from the tokens of one, or from `(@type)`.
  ghost predicate FromCast(toks: seq<Token>, i: nat, r: Parse<Expr>)
    requires Stream(toks) && i < |toks|
  {
    r.Ok? && CastHead(r.value) ==> i + 2 < r.next && (OpAt(toks, i + 1, Silence) || CastAt(toks, i))
  }

  // A loop gives back what it was given, or something longer that is no constant.
  ghost predicate Extends(i: nat, left: Expr, r: Parse<Expr>) {
    r.Ok? ==>
      && (r.next == i ==> r.value == left)
      && (r.next > i ==> !r.value.Const?)
      && i <= r.next
      && (CastHead(r.value) ==> CastHead(left))
  }

  function ParseExpr(toks: seq<Token>, i: nat): (r: Parse<Expr>)
    requires Stream(toks) && i < |toks|
    ensures r.Ok? ==> i < r.next < |toks|
    ensures FromIdent(toks, i, r)
    decreases |toks| - i, 30
  {
    match ParseAssign(toks, i)
    case Err(e) => Err(e)
    case Ok(left, j) => if WordLevel(toks[j]) < 0 then Ok(left, j) else LogicalLoop(toks, j, left, 0)
  }

  function LogicalLoop(toks: seq<Token>, i: nat, left: Expr, min: nat): (r: Parse<Expr>)
    requires Stream(toks) && i < |toks| && min <= 3
    ensures r.Ok? ==> r.next < |toks|
    ensures Extends(i, left, r)
    decreases |toks| - i, 29, 3 - min
  {
    var level := WordLevel(toks[i]);
    if level < min then Ok(left, i) else
    match ParseAssign(toks, i + 1)
    case Err(e) => Err(e)
    case Ok(first, j) =>
      match if WordLevel(toks[j]) > level then LogicalLoop(toks, j, first, level + 1) else Ok(first, j)
      case Err(e) => Err(e)
      case Ok(right, k) => LogicalLoop(toks, k, Binary(Word(level), left, right), min)
  }

  function ParseAssign(toks: seq<Token>, i: nat): (r: Parse<Expr>)
    requires Stream(toks) && i < |toks|
    ensures r.Ok? ==> i < r.next < |toks|
    ensures FromIdent(toks, i, r)
    decreases |toks| - i, 28
  {
    match ParseTernary(toks, i)
    case Err(e) => Err(e)
    case Ok(left, j) =>
      if !(AssignOp(toks[j]) && IsLValue(left)) then Ok(left, j)
      else if OpAt(toks, j, Eq) && OpAt(toks, j + 1, Amp) then Err(Unmodelled)
      else AssignTo(toks, j, left)
  }

  /** Reads the operator at i and the value behind it, and builds the assignment to target. */
  function AssignTo(toks: seq<Token>, i: nat, target: Expr): (r: Parse<Expr>)
    requires Stream(toks) && i < |toks| && AssignOp(toks[i])
    ensures r.Ok? ==> i < r.next < |toks| && r.value.Assign?
    decreases |toks| - i, 0
  {
    match ParseAssign(toks, i + 1)
    case Err(e) => Err(e)
    case Ok(value, k) => AssignExpr(target, toks[i].op, value, k)
  }

  function AssignExpr(target: Expr, op: Op, value: Expr, next: nat): (r: Parse<Expr>)
    ensures r.Ok? ==> r.next == next && r.value.Assign?
  {
    if op != CoalEq then Ok(Assign(target, op, value), next)
    else if Unwrap(target).Append? then Err(AppendUnreadable)
    else Ok(Assign(target, Eq, Coalesce(target, value, true)), next)
  }

  function ParseTernary(toks: seq<Token>, i: nat): (r: Parse<Expr>)
    requires Stream(toks) && i < |toks|
    ensures r.Ok? ==> i < r.next < |toks|
    ensures FromIdent(toks, i, r)
    decreases |toks| - i, 27
  {
    match ParseCoalesce(toks, i)
    case Err(e) => Err(e)
    case Ok(cond, j) =>
      if !OpAt(toks, j, Question) then Ok(cond, j) else
      match if OpAt(toks, j + 1, Colon) then Ok(cond, j + 1) else ParseExpr(toks, j + 1)
      case Err(e) => Err(e)
      case Ok(then_, k) =>
        if !OpAt(toks, k, Colon) then Err(Expected(Colon)) else
        match ParseExpr(toks, k + 1)
        case Err(e) => Err(e)
        case Ok(else_, l) => Ok(Ternary(cond, then_, else_), l)
  }

  function ParseCoalesce(toks: seq<Token>, i: nat): (r: Parse<Expr>)
    requires Stream(toks) && i < |toks|
    ensures r.Ok? ==> i < r.next < |toks|
    ensures FromIdent(toks, i, r)
    decreases |toks| - i, 26
  {
    match ParseBinary(toks, i, 1)
    case Err(e) => Err(e)
    case Ok(left, j) =>
      if !OpAt(toks, j, Coal) then Ok(left, j) else
      match ParseCoalesce(toks, j + 1)
      case Err(e) => Err(e)
      case Ok(right, k) =>
        if !(AssignOp(toks[k]) && IsLValue(right)) then Ok(Coalesce(left, right, false), k) else
        match AssignTo(toks, k, right)
        case Err(e) => Err(e)
        case Ok(value, l) => Ok(Coalesce(left, value, false), l)
  }

  function ParseBinary(toks: seq<Token>, i: nat, min: nat): (r: Parse<Expr>)
    requires Stream(toks) && i < |toks| && 1 <= min <= 12
    ensures r.Ok? ==> i < r.next < |toks|
    ensures FromIdent(toks, i, r)
    decreases |toks| - i, 25
  {
    match ParseUnary(toks, i)
    case Err(e) => Err(e)
    case Ok(left, j) => BinaryLoop(toks, j, left, min)
  }

  function BinaryLoop(toks: seq<Token>, i: nat, left: Expr, min: nat): (r: Parse<Expr>)
    requires Stream(toks) && i < |toks| && 1 <= min <= 12
    ensures r.Ok? ==> r.next < |toks|
    ensures Extends(i, left, r)
    decreases |toks| - i, 24
  {
    var prec := Prec(toks[i]);
    if prec < min then Ok(left, i) else
    match BinaryRight(toks, i + 1, prec + 1)
    case Err(e) => Err(e)
    case Ok(right, j) => BinaryLoop(toks, j, Binary(Sym(toks[i].op), left, right), min)
  }

  /** The right operand of a binary operator, which takes an assignment to itself. */
  function BinaryRight(toks: seq<Token>, i: nat, min: nat): (r: Parse<Expr>)
    requires Stream(toks) && i < |toks| && 1 <= min <= 12
    ensures r.Ok? ==> i < r.next < |toks|
    decreases |toks| - i, 26
  {
    match ParseBinary(toks, i, min)
    case Err(e) => Err(e)
    case Ok(right, j) =>
      if !(AssignOp(toks[j]) && IsLValue(right)) then Ok(right, j)
      else if OpAt(toks, j, Eq) && OpAt(toks, j + 1, Amp) then Err(Unmodelled)
      else AssignTo(toks, j, right)
  }

  function ParseUnary(toks: seq<Token>, i: nat): (r: Parse<Expr>)
    requires Stream(toks) && i < |toks|
    ensures r.Ok? ==> i < r.next < |toks|
    ensures FromIdent(toks, i, r)
    decreases |toks| - i, 23
  {
    var t := toks[i];
    if CastAt(toks, i) then
      match ParseUnary(toks, i + 3)
      case Err(e) => Err(e)
      case Ok(x, j) => Ok(Cast(toks[i + 1].name, x), j)
    else if t.TOp? && StepOp(t.op) then
      match ParsePostfix(toks, i + 1)
      case Err(e) => Err(e)
      case Ok(x, j) => if IsLValue(x) then Ok(Prefix(t.op, x), j) else Err(NotAssignable(t.op))
    else if t.TOp? && PrefixOp(t.op) then
      match ParseUnary(toks, i + 1)
      case Err(e) => Err(e)
      case Ok(x, j) => Ok(Prefix(t.op, x), j)
    else if OpAt(toks, i, Silence) then ParseUnary(toks, i + 1)
    else if OpAt(toks, i, Amp) && Peek(toks, i + 1).TVar? then Err(Unmodelled)
    else ParseInstanceOf(toks, i)
  }

  function ParseInstanceOf(toks: seq<Token>, i: nat): (r: Parse<Expr>)
    requires Stream(toks) && i < |toks|
    ensures r.Ok? ==> i < r.next < |toks|
    ensures FromIdent(toks, i, r) && FromCast(toks, i, r)
    decreases |toks| - i, 22
  {
    match ParsePow(toks, i)
    case Err(e) => Err(e)
    case Ok(left, j) => InstanceOfLoop(toks, j, left)
  }

  function InstanceOfLoop(toks: seq<Token>, i: nat, left: Expr): (r: Parse<Expr>)
    requires Stream(toks) && i < |toks|
    ensures r.Ok? ==> r.next < |toks|
    ensures Extends(i, left, r)
    decreases |toks| - i, 21
  {
    if !InstanceOfKw(toks[i]) then Ok(left, i) else
    match ParsePow(toks, i + 1)
    case Err(e) => Err(e)
    case Ok(right, j) => InstanceOfLoop(toks, j, Binary(InstanceOf, left, right))
  }

  function ParsePow(toks: seq<Token>, i: nat): (r: Parse<Expr>)
    requires Stream(toks) && i < |toks|
    ensures r.Ok? ==> i < r.next < |toks|
    ensures FromIdent(toks, i, r) && FromCast(toks, i, r)
    decreases |toks| - i, 20
  {
    match ParsePostfix(toks, i)
    case Err(e) => Err(e)
    case Ok(base, j) =>
      if !OpAt(toks, j, StarStar) then Ok(base, j) else
      match ParseUnary(toks, j + 1)
      case Err(e) => Err(e)
      case Ok(exponent, k) => Ok(Binary(Sym(StarStar), base, exponent), k)
  }

  function ParsePostfix(toks: seq<Token>, i: nat): (r: Parse<Expr>)
    requires Stream(toks) && i < |toks|
    ensures r.Ok? ==> i < r.next < |toks|
    ensures FromIdent(toks, i, r) && FromCast(toks, i, r)
    decreases |toks| - i, 19
  {
    match ParsePrimary(toks, i)
    case Err(e) => Err(e)
    case Ok(e, j) => PostfixLoop(toks, j, e)
  }

  function PostfixLoop(toks: seq<Token>, i: nat, left: Expr): (r: Parse<Expr>)
    requires Stream(toks) && i < |toks|
    ensures r.Ok? ==> r.next < |toks|
    ensures Extends(i, left, r)
    decreases |toks| - i, 18
  {
    match PostfixStep(toks, i, left)
    case Err(e) => Err(e)
    case Ok(e, j) => if j == i then Ok(e, i) else PostfixLoop(toks, j, e)
  }

  /** One member access, subscript, call or step behind left, or left itself where none follows. */
  function PostfixStep(toks: seq<Token>, i: nat, left: Expr): (r: Parse<Expr>)
    requires Stream(toks) && i < |toks|
    ensures r.Ok? ==> r.next < |toks|
    ensures Extends(i, left, r)
    decreases |toks| - i, 17
  {
    var t := toks[i];
    if OpAt(toks, i, Arrow) then
      match ParseMember(toks, i + 1)
      case Err(e) => Err(e)
      case Ok(member, j) =>
        if !OpAt(toks, j, LParen) then Ok(Prop(left, member), j) else
        match ParseCallArgs(toks, j)
        case Err(e) => Err(e)
        case Ok(args, k) => Ok(Method(left, member, args), k)
    else if OpAt(toks, i, LBracket) then
      if OpAt(toks, i + 1, RBracket) then Ok(Append(left), i + 2) else
      match ParseExpr(toks, i + 1)
      case Err(e) => Err(e)
      case Ok(key, j) => if OpAt(toks, j, RBracket) then Ok(Index(left, key), j + 1) else Err(Expected(RBracket))
    else if OpAt(toks, i, LParen) then
      match ParseCallArgs(toks, i)
      case Err(e) => Err(e)
      case Ok(args, j) => Ok(Invoke(left, args), j)
    else if t.TOp? && StepOp(t.op) && IsLValue(left) then Ok(Postfix(t.op, left), i + 1)
    else Ok(left, i)
  }

  /** The member name behind `->`: an identifier, a variable or a braced expression. */
  function ParseMember(toks: seq<Token>, i: nat): (r: Parse<Member>)
    requires Stream(toks) && i < |toks|
    ensures r.Ok? ==> i < r.next < |toks|
    decreases |toks| - i, 31
  {
    if toks[i].TVar? then Ok(Dynamic(Var(toks[i].name)), i + 1)
    else if OpAt(toks, i, LBrace) then
      match ParseExpr(toks, i + 1)
      case Err(e) => Err(e)
      case Ok(x, j) => if OpAt(toks, j, RBrace) then Ok(Dynamic(x), j + 1) else Err(Expected(RBrace))
    else if toks[i].TIdent? then Ok(Named(toks[i].name), i + 1)
    else Err(ExpectedMember)
  }

  function ParsePrimary(toks: seq<Token>, i: nat): (r: Parse<Expr>)
    requires Stream(toks) && i < |toks|
    ensures r.Ok? ==> i < r.next < |toks|
    ensures FromIdent(toks, i, r) && FromCast(toks, i, r)
    decreases |toks| - i, 16
  {
    match toks[i]
    case TVar(name) => Ok(Var(name), i + 1)
    case TInt(n) => Ok(Lit(IntLit(n)), i + 1)
    case TStr(text, raw) => Ok(Lit(StrLit(text, raw)), i + 1)
    case TForeign => Err(Unmodelled)
    case TIdent(name) => ParseIdent(toks, i)
    case TEof => Err(Unexpected(toks[i]))
    case TOp(op) =>
      if op == LParen then
        match ParseExpr(toks, i + 1)
        case Err(e) => Err(e)
        case Ok(e, j) => if OpAt(toks, j, RParen) then Ok(Paren(e), j + 1) else Err(Expected(RParen))
      else if op == Backslash || op == LBracket || op == LBrace then Err(Unmodelled)
      else Err(Unexpected(toks[i]))
  }

  /** A keyword literal, a call, or a constant. */
  function ParseIdent(toks: seq<Token>, i: nat): (r: Parse<Expr>)
    requires Stream(toks) && i < |toks| && toks[i].TIdent?
    ensures r.Ok? ==> i < r.next < |toks| && !r.value.Paren? && !CastHead(r.value)
    ensures r.Ok? && r.value.Const? ==> r.next == i + 1 && toks[i] == TIdent(r.value.name)
    decreases |toks| - i, 15
  {
    var name := toks[i].name;
    if name == "static" && Peek(toks, i + 1).TIdent? && FuncKeyword(Peek(toks, i + 1).name) then Err(Unmodelled)
    else if KeywordLiteral(name) != [] then Ok(Lit(KeywordLiteral(name)[0]), i + 1)
    else if Reserved(name) || OpAt(toks, i + 1, Backslash) || OpAt(toks, i + 1, DoubleColon) then Err(Unmodelled)
    else if OpAt(toks, i + 1, LParen) then
      match ParseCallArgs(toks, i + 1)
      case Err(e) => Err(e)
      case Ok(args, j) => Ok(Call(name, args), j)
    else if Magic(name) then Err(Unmodelled)
    else Ok(Const(name), i + 1)
  }

  function ParseCallArgs(toks: seq<Token>, i: nat): (r: Parse<Args>)
    requires Stream(toks) && i < |toks| && OpAt(toks, i, LParen)
    ensures r.Ok? ==> i < r.next < |toks|
    decreases |toks| - i, 14
  {
    if MarkerAt(toks, i) then Ok(FirstClass, i + 5) else
    match ParseArgs(toks, i + 1)
    case Err(e) => Err(e)
    case Ok(es, j) => Ok(Args(es), j)
  }

  /** The arguments from i on and the parenthesis that closes them. A comma may stand in front of it. */
  function ParseArgs(toks: seq<Token>, i: nat): (r: Parse<seq<Expr>>)
    requires Stream(toks) && i < |toks|
    ensures r.Ok? ==> i < r.next < |toks|
    decreases |toks| - i, 31
  {
    if OpAt(toks, i, RParen) then Ok([], i + 1) else
    match ParseExpr(toks, i)
    case Err(e) => Err(e)
    case Ok(e, j) =>
      if OpAt(toks, j, Comma) then
        match ParseArgs(toks, j + 1)
        case Err(er) => Err(er)
        case Ok(rest, k) => Ok([e] + rest, k)
      else if OpAt(toks, j, RParen) then Ok([e], j + 1)
      else Err(Expected(RParen))
  }
}
