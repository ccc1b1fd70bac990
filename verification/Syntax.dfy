/** The tokens the expression parser reads and the trees it builds. */
module Syntax {
  import opened Names

  // One operator token. The lexer's table also spells `[]=` nowhere, so it has no token.
  datatype Op =
    | OrOr | AndAnd | Pipe | Caret | Amp
    | EqEq | NotEq | Identical | NotIdentical | Spaceship
    | Less | LessEq | Greater | GreaterEq
    | Dot | Shl | Shr | Plus | Minus | Star | Slash | Percent
    | StarStar | Coal | Question | Colon | Bang | Tilde | Silence | Inc | Dec | Arrow
    | LParen | RParen | LBracket | RBracket | LBrace | RBrace
    | Comma | Semi | FatArrow | DoubleColon | Backslash
    | Eq | DotEq | PlusEq | MinusEq | StarEq | SlashEq | PercentEq | StarStarEq
    | AmpEq | PipeEq | CaretEq | ShlEq | ShrEq | CoalEq

  // A lexical token. TForeign stands for the literal kinds outside the fragment.
  datatype Token =
    | TVar(name: string)
    | TIdent(name: string)
    | TInt(value: nat)
    | TStr(text: string, raw: string)
    | TOp(op: Op)
    | TForeign
    | TEof

  datatype Literal =
    | IntLit(value: nat)
    | StrLit(text: string, raw: string)
    | BoolLit(b: bool)
    | NullLit

  // The operator of a Binary node: a symbol, `instanceof`, or a word operator by its level.
  datatype BinOp = Sym(op: Op) | InstanceOf | Word(level: nat)

  datatype Member = Named(name: string) | Dynamic(x: Expr)

  datatype Args = Args(es: seq<Expr>) | FirstClass

  datatype Expr =
    | Lit(v: Literal)
    | Var(name: string)
    | Const(name: string)
    | Paren(x: Expr)
    | Append(base: Expr)
    | Index(base: Expr, key: Expr)
    | Prop(base: Expr, member: Member)
    | Method(base: Expr, member: Member, args: Args)
    | Call(name: string, args: Args)
    | Invoke(base: Expr, args: Args)
    | Prefix(op: Op, x: Expr)
    | Postfix(op: Op, base: Expr)
    | Cast(typ: string, x: Expr)
    | Binary(bop: BinOp, left: Expr, right: Expr)
    | Coalesce(left: Expr, right: Expr, assign: bool)
    | Ternary(cond: Expr, then_: Expr, else_: Expr)
    | Assign(target: Expr, op: Op, value: Expr)

  datatype Error =
    | Unexpected(t: Token)
    | Expected(op: Op)
    | ExpectedMember
    | NotAssignable(op: Op)
    | AppendUnreadable
    | Unmodelled

  datatype Parse<+T> = Ok(value: T, next: nat) | Err(error: Error)

  /** The lexer ends every token slice with one end-of-file token. */
  predicate Stream(toks: seq<Token>) {
    |toks| > 0 && toks[|toks| - 1].TEof?
  }

  /** The token at an offset, the end-of-file token past the end. */
  function Peek(toks: seq<Token>, i: nat): Token
    requires Stream(toks)
  {
    if i < |toks| then toks[i] else toks[|toks| - 1]
  }

  /** The level of a word operator, loosest first, and -1 for every other token. */
  function WordLevel(t: Token): (k: int)
    ensures -1 <= k <= 2
  {
    if !t.TIdent? then -1
    else if Lower(t.name) == "or" then 0
    else if Lower(t.name) == "xor" then 1
    else if Lower(t.name) == "and" then 2
    else -1
  }

  function WordName(k: nat): string {
    if k == 0 then "or" else if k == 1 then "xor" else "and"
  }

  lemma WordNameLevel(k: nat)
    requires k <= 2
    ensures WordLevel(TIdent(WordName(k))) == k
  {
    assert Lower("or") == "or" && Lower("xor") == "xor" && Lower("and") == "and";
  }

  predicate InstanceOfKw(t: Token) {
    t == TIdent("instanceof")
  }

  /** The precedence of a binary operator token, 0 for a token that is none. */
  function Prec(t: Token): (p: nat)
    ensures p <= 11
  {
    if !t.TOp? then 0 else
    match t.op
    case OrOr => 1
    case AndAnd => 2
    case Pipe => 3
    case Caret => 4
    case Amp => 5
    case EqEq | NotEq | Identical | NotIdentical | Spaceship => 6
    case Less | LessEq | Greater | GreaterEq => 7
    case Dot => 8
    case Shl | Shr => 9
    case Plus | Minus => 10
    case Star | Slash | Percent => 11
    case _ => 0
  }

  predicate AssignOp(t: Token) {
    t.TOp? &&
    match t.op
    case Eq | DotEq | PlusEq | MinusEq | StarEq | SlashEq | PercentEq | StarStarEq => true
    case AmpEq | PipeEq | CaretEq | ShlEq | ShrEq | CoalEq => true
    case _ => false
  }

  predicate PrefixOp(op: Op) {
    op == Bang || op == Minus || op == Plus || op == Tilde
  }

  predicate StepOp(op: Op) {
    op == Inc || op == Dec
  }

  predicate CastType(name: string) {
    name in {"bool", "boolean", "int", "integer", "float", "double", "real", "string", "array", "object"}
  }

  /** Words that start a construct of their own instead of naming a constant or a function. */
  predicate Reserved(name: string) {
    name in {"new", "fn", "func", "function", "list", "include", "include_once", "require", "require_once", "array"}
  }

  /** Names the parser replaces by a value instead of looking them up. */
  predicate Magic(name: string) {
    name in {"__NAMESPACE__", "__LINE__", "__FUNCTION__", "__CLASS__", "__METHOD__", "__FILE__", "__DIR__"}
  }

  predicate FuncKeyword(name: string) {
    name in {"function", "fn", "func"}
  }

  /** The literal a keyword in one of its three accepted spellings stands for. */
  function KeywordLiteral(name: string): (v: seq<Literal>)
    ensures |v| <= 1
    ensures v != [] ==> v[0].BoolLit? || v[0].NullLit?
  {
    if name in {"true", "TRUE", "True"} then [BoolLit(true)]
    else if name in {"false", "FALSE", "False"} then [BoolLit(false)]
    else if name in {"null", "NULL", "Null"} then [NullLit]
    else []
  }

  /** Strips the parentheses around an expression. */
  function Unwrap(e: Expr): (r: Expr)
    ensures !r.Paren?
    ensures !e.Paren? ==> r == e
  {
    if e.Paren? then Unwrap(e.x) else e
  }

  predicate IsLValue(e: Expr) {
    var u := Unwrap(e);
    u.Var? || u.Const? || u.Index? || u.Append? || u.Prop?
  }
}
