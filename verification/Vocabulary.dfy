/** Which tokens and words play which part in an expression, each part told by a set written out. */
module Vocabulary {
  import opened Names
  import opened Syntax
  import opened Printer
  import opened Grammar
  import opened Shape
  import opened Rules
  import opened Spans
  import opened RoundTrip
  import opened Expressions
  import opened Grouping
  import Sound

  const WRITES := {
    Eq, DotEq, PlusEq, MinusEq, StarEq, SlashEq, PercentEq, StarStarEq,
    AmpEq, PipeEq, CaretEq, ShlEq, ShrEq, CoalEq
  }

  const CASTS := {"bool", "boolean", "int", "integer", "float", "double", "real", "string", "array", "object"}

  // Words that start a construct of their own, and words a value stands for.
  const CONSTRUCTS := {"new", "fn", "func", "function", "list", "include", "include_once", "require", "require_once", "array"}
  const CONTEXTS := {"__NAMESPACE__", "__LINE__", "__FUNCTION__", "__CLASS__", "__METHOD__", "__FILE__", "__DIR__"}
  const TRUES := {"true", "TRUE", "True"}
  const FALSES := {"false", "FALSE", "False"}
  const NULLS := {"null", "NULL", "Null"}

  /** What may be written to: a variable, a name, an element, an append or a property, in any number of parentheses. */
  predicate Assignable(e: Expr)
    decreases e
  {
    match e
    case Paren(x) => Assignable(x)
    case Var(_) => true
    case Const(_) => true
    case Append(_) => true
    case Index(_, _) => true
    case Prop(_, _) => true
    case _ => false
  }

  /** `$x[]`, in any number of parentheses. */
  predicate Unreadable(e: Expr)
    decreases e
  {
    e.Append? || (e.Paren? && Unreadable(e.x))
  }

  lemma {:induction false} Targets(e: Expr)
    ensures IsLValue(e) <==> Assignable(e)
    ensures Unwrap(e).Append? <==> Unreadable(e)
    decreases e
  {
    if e.Paren? { Targets(e.x); }
  }

  // ---- what goes on behind an operand ----

  /** The token takes part in an expression behind the operand x. */
  predicate GoesOn(x: Expr, t: Token) {
    match t
    case TIdent(name) => name == "instanceof" || Lower(name) in {"or", "xor", "and"}
    case TOp(op) =>
      || TierOf(t) < 17
      || op in {Question, Arrow, LBracket, LParen}
      || (op in WRITES + {Inc, Dec} && Assignable(x))
    case _ => false
  }

  lemma OperandGoesOn(x: Expr, t: Token)
    requires Operand(x)
    ensures Absorbs(x, 0, t) <==> GoesOn(x, t)
  {
    hide TierOf, Operand, IsLValue, Assignable, Edge, Rank, Prec, WordLevel;
    EdgeOfOperand(x, t);
    Targets(x);
    OperandRank(x);
    if t.TOp? {
      Infix(t);
      WritesAre(t.op);
    }
    if t.TIdent? { JoiningWords(t); }
  }

  lemma OperandRank(x: Expr)
    requires Operand(x)
    ensures Rank(x) == 21
  {
  }

  lemma JoiningWords(t: Token)
    requires t.TIdent?
    ensures WordLevel(t) >= 0 <==> Lower(t.name) in {"or", "xor", "and"}
    ensures InstanceOfKw(t) <==> t.name == "instanceof"
  {
  }

  lemma Infix(t: Token)
    requires t.TOp?
    ensures TierOf(t) < 17 <==> Prec(t) > 0 || t.op == Coal || t.op == StarStar
  {
    hide TierOf;
    if TierOf(t) < 17 { Levels(t); }
    var g := if t.op == Coal then 3 else if t.op == StarStar then 16 else Prec(t) + 3;
    if t in Tier(g) { OneTier(t, g); }
  }

  /** An operand is the whole expression exactly in front of a token that does not go on with it. */
  lemma Ends(x: Expr, toks: seq<Token>, i: nat, n: nat)
    requires Operand(x) && Stream(toks) && Spot(toks, i, Print(x), n)
    ensures ParseExpr(toks, i) == Ok(x, n) <==> !GoesOn(x, toks[n])
  {
    OperandShape(x, 0);
    OperandGoesOn(x, toks[n]);
    hide *;
    FirstOf(toks, i, x, n);
    if !GoesOn(x, toks[n]) { RtExpr(x, toks, i, n); }
    if ParseExpr(toks, i) == Ok(x, n) { Finished(toks, i); }
  }

  lemma Finished(toks: seq<Token>, i: nat)
    requires Stream(toks) && i < |toks| && ParseExpr(toks, i).Ok?
    ensures var r := ParseExpr(toks, i); r.next < |toks| && Wf(r.value, 0, false) && !Absorbs(r.value, 0, toks[r.next])
  {
    hide ParseExpr, Wf, Absorbs;
    Sound.SoundExpr(toks, i, false);
  }

  // ---- operators in front of an operand ----

  /**
   `!` `-` `+` `~` are prefix operators of everything, `++` and `--` of what may be written to and
   an error in front of everything else, `@` leaves no trace, and no other token is a prefix operator.
   */
  lemma InFront(op: Op, x: Expr, toks: seq<Token>, i: nat, n: nat)
    requires Plain(x, 21) && !CastHead(x) && Stream(toks) && Spot(toks, i, [TOp(op)] + Print(x), n) && Stop(toks[n])
    ensures ParseExpr(toks, i) == Ok(Prefix(op, x), n) <==> op in {Bang, Minus, Plus, Tilde} || (op in {Inc, Dec} && Assignable(x))
    ensures op in {Inc, Dec} && !Assignable(x) ==> ParseExpr(toks, i) == Err(NotAssignable(op))
    ensures op == Silence ==> ParseExpr(toks, i) == Ok(x, n)
  {
    hide *;
    var e := Prefix(op, x);
    Targets(x);
    PrefixPrints(op, x);
    PrefixShape(op, x);
    CutHead(toks, i, TOp(op), Print(x), n);
    StopEnds(e, 0, toks[n]);
    StopEnds(x, 18, toks[n]);
    if Plain(e, 0) { RtExpr(e, toks, i, n); }
    if ParseExpr(toks, i) == Ok(e, n) { Finished(toks, i); }
    if op == Silence {
      RtUnary(x, toks, i + 1, n);
      SilenceSkipped(toks, i);
      UnaryAlone(toks, i, x, n);
    }
    if op in {Inc, Dec} && !Assignable(x) {
      PostfixAlone(x, toks, i + 1, n);
      StepRefused(toks, i, x, n);
    }
  }

  lemma PrefixPrints(op: Op, x: Expr)
    ensures Print(Prefix(op, x)) == [TOp(op)] + Print(x)
  {
    hide PrintProp, PrintMethod, PrintArgs, PrintLit;
  }

  lemma PrefixShape(op: Op, x: Expr)
    requires Plain(x, 21) && !CastHead(x)
    ensures Plain(x, 18)
    ensures Plain(Prefix(op, x), 0) <==> op in {Bang, Minus, Plus, Tilde} || (op in {Inc, Dec} && IsLValue(x))
    ensures Wf(Prefix(op, x), 0, false) ==> op in {Bang, Minus, Plus, Tilde} || (op in {Inc, Dec} && IsLValue(x))
  {
    hide Edge, IsLValue, CastHead;
    WfLooser(x, 21, 18, true);
    PrefixOver(Prefix(op, x));
  }

  lemma PrefixOver(e: Expr)
    requires e.Prefix? && Plain(e.x, 21) && Plain(e.x, 18)
    ensures Plain(e, 0) <==> if e.op in {Inc, Dec} then IsLValue(e.x) else e.op in {Bang, Minus, Plus, Tilde}
    ensures Wf(e, 0, false) ==> if e.op in {Inc, Dec} then IsLValue(e.x) else e.op in {Bang, Minus, Plus, Tilde}
  {
    hide Edge, IsLValue, CastHead;
  }

  /** A postfix chain in front of a closing token is all a postfix parse reads. */
  lemma PostfixAlone(x: Expr, toks: seq<Token>, i: nat, n: nat)
    requires Plain(x, 21) && Stream(toks) && Spot(toks, i, Print(x), n) && Stop(toks[n])
    ensures ParsePostfix(toks, i) == Ok(x, n)
  {
    StopEnds(x, 21, toks[n]);
    RankAtLeast(x, 21);
    hide Print, ParsePostfix, PostfixLoop, Wf, MembersPlain, Edge, Continues;
    FirstOf(toks, i, x, n);
    RtPostfix(x, toks, i, n);
    PostfixStops(x, toks, n);
  }

  lemma StepRefused(toks: seq<Token>, i: nat, x: Expr, n: nat)
    requires Stream(toks) && i + 1 < |toks| && toks[i].TOp? && toks[i].op in {Inc, Dec}
    requires ParsePostfix(toks, i + 1) == Ok(x, n) && !IsLValue(x)
    ensures ParseExpr(toks, i) == Err(NotAssignable(toks[i].op))
  {
    hide ParseExpr, ParsePostfix, IsLValue;
    assert ParseUnary(toks, i) == Err(NotAssignable(toks[i].op));
    UnaryFails(toks, i);
  }

  /** Where no operand is read there is no expression. */
  lemma UnaryFails(toks: seq<Token>, i: nat)
    requires Stream(toks) && i < |toks| && ParseUnary(toks, i).Err?
    ensures ParseExpr(toks, i) == ParseUnary(toks, i)
  {
    hide ParseUnary, FromIdent, WordLevel, AssignOp, IsLValue;
    assert ParseBinary(toks, i, 1) == ParseUnary(toks, i);
    assert ParseCoalesce(toks, i) == ParseUnary(toks, i);
    assert ParseTernary(toks, i) == ParseUnary(toks, i);
    assert ParseAssign(toks, i) == ParseUnary(toks, i);
  }

  lemma PrimaryFails(toks: seq<Token>, i: nat)
    requires Stream(toks) && i < |toks| && ParsePrimary(toks, i).Err?
    ensures ParseInstanceOf(toks, i) == ParsePrimary(toks, i)
  {
    hide ParsePrimary, FromIdent, FromCast;
    assert ParsePostfix(toks, i) == ParsePrimary(toks, i);
    assert ParsePow(toks, i) == ParsePrimary(toks, i);
  }

  /** The tokens an expression may begin with. */
  predicate Begins(t: Token) {
    t.TVar? || t.TIdent? || t.TInt? || t.TStr? || (t.TOp? && t.op in {LParen, Bang, Minus, Plus, Tilde, Inc, Dec, Silence})
  }

  lemma BeginsWith(toks: seq<Token>, i: nat)
    requires Stream(toks) && i < |toks| && ParseExpr(toks, i).Ok?
    ensures Begins(toks[i])
  {
    hide ParseExpr;
    if !Begins(toks[i]) {
      assert ParsePrimary(toks, i).Err? by { hide ParseIdent; }
      hide ParsePrimary, ParsePostfix, ParseInstanceOf;
      PrimaryFails(toks, i);
      assert ParseUnary(toks, i).Err?;
      UnaryFails(toks, i);
    }
  }

  // ---- casts ----

  /** `(word)` in front of an operand is a cast exactly for these words. */
  lemma CastWords(s: string, x: Expr, toks: seq<Token>, i: nat, n: nat)
    requires Plain(x, 18) && Stream(toks) && Spot(toks, i, [TOp(LParen), TIdent(s), TOp(RParen)] + Print(x), n) && Stop(toks[n])
    ensures ParseExpr(toks, i) == Ok(Cast(s, x), n) <==> s in CASTS
  {
    var e := Cast(s, x);
    assert Print(e) == [TOp(LParen), TIdent(s), TOp(RParen)] + Print(x);
    assert (Plain(e, 0) <==> s in CASTS) && (Wf(e, 0, false) ==> s in CASTS);
    StopEnds(e, 0, toks[n]);
    hide Print, ParseExpr, Wf, MembersPlain, Absorbs, CastType;
    FirstOf(toks, i, e, n);
    if s in CASTS { RtExpr(e, toks, i, n); }
    if ParseExpr(toks, i) == Ok(e, n) { Finished(toks, i); }
  }

  // ---- assignments ----

  /** The tree an assignment operator builds. `??=` keeps what it was read from as a marked `??`. */
  function Written(op: Op, x: Expr, v: Expr): Expr {
    if op == CoalEq then Assign(x, Eq, Coalesce(x, v, true)) else Assign(x, op, v)
  }

  lemma WritesAre(op: Op)
    ensures AssignOp(TOp(op)) <==> op in WRITES
  {
  }

  lemma Unmarked(v: Expr)
    requires Plain(v, 3)
    ensures !(v.Coalesce? && v.assign)
  {
    hide MembersPlain, Edge, CastHead, IsLValue;
  }

  lemma AssignShape(e: Expr)
    requires e.Assign? && e.op != CoalEq && !ReadsTarget(e.op, e.value) && Plain(e.target, 18) && Plain(e.value, 3)
    ensures Plain(e, 0) <==> AssignOp(TOp(e.op)) && IsLValue(e.target)
    ensures Wf(e, 0, false) ==> AssignOp(TOp(e.op)) && IsLValue(e.target)
    ensures Print(e) == Print(e.target) + [TOp(e.op)] + Print(e.value)
  {
    hide AssignOp, Unwrap, Edge, CastHead, IsLValue, PrintProp, PrintMethod, PrintArgs, PrintLit;
  }

  lemma MarkedShape(e: Expr, m: Expr)
    requires e.Assign? && e.op == Eq && e.value == m && m.Coalesce? && m.assign && m.left == e.target
    requires Plain(e.target, 18) && Plain(m.right, 3)
    ensures Plain(e, 0) <==> IsLValue(e.target) && !Unwrap(e.target).Append?
    ensures Wf(e, 0, false) ==> IsLValue(e.target) && !Unwrap(e.target).Append?
    ensures Print(e) == Print(e.target) + [TOp(CoalEq)] + Print(m.right)
  {
    assert MembersPlain(m) && MembersPlain(e);
    hide Unwrap, Edge, CastHead, IsLValue, PrintProp, PrintMethod, PrintArgs, PrintLit;
  }

  lemma WrittenShape(op: Op, x: Expr, v: Expr)
    requires Plain(x, 18) && Plain(v, 3)
    ensures Plain(Written(op, x, v), 0) <==> op in WRITES && Assignable(x) && !(op == CoalEq && Unreadable(x))
    ensures Wf(Written(op, x, v), 0, false) ==> op in WRITES && Assignable(x) && !(op == CoalEq && Unreadable(x))
    ensures Print(Written(op, x, v)) == Print(x) + [TOp(op)] + Print(v)
  {
    hide Plain, Wf, Print, AssignOp, IsLValue, Assignable, Unreadable, Unwrap;
    Targets(x);
    WritesAre(op);
    Unmarked(v);
    var e := Written(op, x, v);
    if op == CoalEq { MarkedShape(e, e.value); } else { AssignShape(e); }
  }

  /** An operator between two operands writes the one in front exactly for these operators and targets. */
  lemma Writes(op: Op, x: Expr, v: Expr, toks: seq<Token>, i: nat, n: nat)
    requires Plain(x, 18) && Plain(v, 3)
    requires Stream(toks) && Spot(toks, i, Print(x) + [TOp(op)] + Print(v), n) && Stop(toks[n])
    ensures ParseExpr(toks, i) == Ok(Written(op, x, v), n) <==> op in WRITES && Assignable(x) && !(op == CoalEq && Unreadable(x))
  {
    var e := Written(op, x, v);
    WrittenShape(op, x, v);
    StopEnds(e, 0, toks[n]);
    hide Print, ParseExpr, Wf, MembersPlain, Absorbs, Written, Assignable, Unreadable;
    FirstOf(toks, i, e, n);
    if Plain(e, 0) { RtExpr(e, toks, i, n); }
    if ParseExpr(toks, i) == Ok(e, n) { Finished(toks, i); }
  }

  // ---- words ----

  /** A word alone is a literal, the start of a construct outside the fragment, or a constant. */
  lemma WordAlone(toks: seq<Token>, i: nat, s: string)
    requires Stream(toks) && i + 1 < |toks| && toks[i] == TIdent(s) && Stop(toks[i + 1])
    ensures
      ParseExpr(toks, i) ==
        if s in TRUES then Ok(Lit(BoolLit(true)), i + 1)
        else if s in FALSES then Ok(Lit(BoolLit(false)), i + 1)
        else if s in NULLS then Ok(Lit(NullLit), i + 1)
        else if s in CONSTRUCTS + CONTEXTS then Err(Unmodelled)
        else Ok(Const(s), i + 1)
  {
    var p := ParsePrimary(toks, i);
    WordPrimary(toks, i, s);
    assert !CastAt(toks, i);
    hide ParseExpr, ParsePrimary, ParsePostfix, PostfixLoop, ParseInstanceOf;
    if p.Err? {
      UnaryBase(toks, i);
      PrimaryFails(toks, i);
      UnaryFails(toks, i);
    } else {
      PostfixBase(toks, i, p.value, i + 1);
      PostfixEnds(toks, i + 1, p.value) by { hide IsLValue; }
      ChainAlone(toks, i, p.value, i + 1);
    }
  }

  lemma WordPrimary(toks: seq<Token>, i: nat, s: string)
    requires Stream(toks) && i + 1 < |toks| && toks[i] == TIdent(s) && Stop(toks[i + 1])
    ensures
      ParsePrimary(toks, i) ==
        if s in TRUES then Ok(Lit(BoolLit(true)), i + 1)
        else if s in FALSES then Ok(Lit(BoolLit(false)), i + 1)
        else if s in NULLS then Ok(Lit(NullLit), i + 1)
        else if s in CONSTRUCTS + CONTEXTS then Err(Unmodelled)
        else Ok(Const(s), i + 1)
  {
    hide ParseCallArgs;
    assert ParsePrimary(toks, i) == ParseIdent(toks, i);
  }

  /** `static` in front of a word starts a closure exactly for these words and is a constant in front of any other. */
  lemma StaticWord(toks: seq<Token>, i: nat, k: string)
    requires Stream(toks) && i + 1 < |toks| && toks[i] == TIdent("static") && toks[i + 1] == TIdent(k)
    requires k != "instanceof" && Lower(k) !in {"or", "xor", "and"}
    ensures ParseExpr(toks, i) == if k in {"function", "fn", "func"} then Err(Unmodelled) else Ok(Const("static"), i + 1)
  {
    var e := Const("static");
    assert Plain(e, 0) && Print(e) == [TIdent("static")] && toks[i..i + 1] == [TIdent("static")];
    assert !CastAt(toks, i);
    if k in {"function", "fn", "func"} {
      assert ParsePrimary(toks, i) == Err(Unmodelled);
      hide *;
      UnaryBase(toks, i);
      PrimaryFails(toks, i);
      UnaryFails(toks, i);
    } else {
      JoiningWords(toks[i + 1]);
      assert !Absorbs(e, 0, toks[i + 1]);
      assert Spot(toks, i, Print(e), i + 1);
      hide *;
      RtExpr(e, toks, i, i + 1);
    }
  }

  /** A word in front of arguments calls the function of that name, unless it is a literal or starts a construct. */
  lemma WordCalls(s: string, args: Args, toks: seq<Token>, i: nat, n: nat)
    requires PlainArgs(args) && Stream(toks) && Spot(toks, i, [TIdent(s)] + PrintArgs(args), n) && Stop(toks[n])
    ensures ParseExpr(toks, i) == Ok(Call(s, args), n) <==> s !in CONSTRUCTS + TRUES + FALSES + NULLS
  {
    var e := Call(s, args);
    assert Print(e) == [TIdent(s)] + PrintArgs(args);
    CallShape(s, args);
    StopEnds(e, 0, toks[n]);
    hide Print, PrintArgs, ParseExpr, Wf, MembersPlain, Absorbs, PlainArgs;
    FirstOf(toks, i, e, n);
    if Plain(e, 0) { RtExpr(e, toks, i, n); }
    if ParseExpr(toks, i) == Ok(e, n) { Finished(toks, i); }
  }

  lemma CallShape(s: string, args: Args)
    requires PlainArgs(args)
    ensures Plain(Call(s, args), 0) <==> s !in CONSTRUCTS + TRUES + FALSES + NULLS
    ensures Wf(Call(s, args), 0, false) ==> s !in CONSTRUCTS + TRUES + FALSES + NULLS
  {
    hide Edge;
    assert ArgsPlain(args) && MembersPlain(Call(s, args));
  }

  /** A word between two operands, however it is spelled. Any other word is left to what comes behind. */
  lemma WordJoins(w: string, x: Expr, y: Expr, toks: seq<Token>, i: nat, n: nat)
    requires Operand(x) && Operand(y)
    requires Stream(toks) && Spot(toks, i, Print(x) + [TIdent(w)] + Print(y), n) && Stop(toks[n])
    ensures
      ParseExpr(toks, i) ==
        if Lower(w) == "or" then Ok(Binary(Word(0), x, y), n)
        else if Lower(w) == "xor" then Ok(Binary(Word(1), x, y), n)
        else if Lower(w) == "and" then Ok(Binary(Word(2), x, y), n)
        else if w == "instanceof" then Ok(Binary(InstanceOf, x, y), n)
        else Ok(x, i + |Print(x)|)
  {
    hide ParseExpr, Print, Operand, Stop, TierOf;
    var j := CutAt(toks, i, Print(x), TIdent(w), Print(y), n);
    if Lower(w) in {"or", "xor", "and"} {
      JoinedByWord(x, y, toks, i, j, n);
    } else if w == "instanceof" {
      JoinedByInstanceOf(x, y, toks, i, n);
    } else {
      Ends(x, toks, i, j);
    }
  }

  lemma JoinedByInstanceOf(x: Expr, y: Expr, toks: seq<Token>, i: nat, n: nat)
    requires Operand(x) && Operand(y)
    requires Stream(toks) && Spot(toks, i, Print(x) + [TIdent("instanceof")] + Print(y), n) && Stop(toks[n])
    ensures ParseExpr(toks, i) == Ok(Binary(InstanceOf, x, y), n)
  {
    var e := Binary(InstanceOf, x, y);
    InstanceOfShape(x, y);
    StopEnds(e, 0, toks[n]);
    hide *;
    RtExpr(e, toks, i, n);
  }

  lemma InstanceOfShape(x: Expr, y: Expr)
    requires Operand(x) && Operand(y)
    ensures Plain(Binary(InstanceOf, x, y), 0)
    ensures Print(Binary(InstanceOf, x, y)) == Print(x) + [TIdent("instanceof")] + Print(y)
  {
    OperandShape(x, 19);
    OperandShape(y, 20);
    EdgeOfOperand(x, TIdent("instanceof"));
    WordTiers();
    assert Rank(x) == 21;
    hide Operand, Edge, CastHead, WordLevel, PrintLit, PrintArgs, PrintProp, PrintMethod;
  }

  /** An operand is all an assignment parse reads in front of a word operator and of a closing token. */
  lemma OperandAlone(x: Expr, toks: seq<Token>, i: nat, n: nat)
    requires Operand(x) && Stream(toks) && Spot(toks, i, Print(x), n)
    requires WordLevel(toks[n]) >= 0 || Stop(toks[n])
    ensures i < n < |toks| && ParseAssign(toks, i) == Ok(x, n)
  {
    OperandShape(x, 3);
    EdgeOfOperand(x, toks[n]);
    assert !Absorbs(x, 3, toks[n]) by { hide IsLValue, Rank; }
    hide *;
    FirstOf(toks, i, x, n);
    RtAssign(x, toks, i, n);
  }

  lemma JoinedByWord(x: Expr, y: Expr, toks: seq<Token>, i: nat, j: nat, n: nat)
    requires Operand(x) && Operand(y) && Stream(toks)
    requires Spot(toks, i, Print(x), j) && WordLevel(toks[j]) >= 0 && Spot(toks, j + 1, Print(y), n) && Stop(toks[n])
    ensures ParseExpr(toks, i) == Ok(Binary(Word(WordLevel(toks[j])), x, y), n)
  {
    hide *;
    Inside(toks, i, Print(x), j);
    Inside(toks, j + 1, Print(y), n);
    var k := WordLevel(toks[j]);
    WordlessStop(toks[n]);
    OperandAlone(x, toks, i, j);
    OperandAlone(y, toks, j + 1, n);
    OperandFrom(toks, j + 1, y, n, k + 1);
    LogicalEnds(toks, n, y, k + 1);
    ExprIsLogical(toks, i);
    OperandFrom(toks, i, x, j, 0);
    LogicalNext(toks, j, x, y, n, 0);
    LogicalEnds(toks, n, Binary(Word(k), x, y), 0);
  }

  lemma WordlessStop(t: Token)
    requires Stop(t)
    ensures WordLevel(t) < 0
  {
  }

  // ---- spellings the printer does not write ----

  /** `a ?: b` tests a and answers it. */
  lemma ShortTernary(c: Expr, f: Expr, toks: seq<Token>, i: nat, n: nat)
    requires Plain(c, 5) && !Edge(c, TOp(Question)) && Plain(f, 0)
    requires Stream(toks) && Spot(toks, i, Print(c) + [TOp(Question), TOp(Colon)] + Print(f), n) && Stop(toks[n])
    ensures ParseExpr(toks, i) == Ok(Ternary(c, c, f), n)
  {
    hide *;
    Inside(toks, i, Print(c) + [TOp(Question), TOp(Colon)] + Print(f), n);
    StopEnds(f, 0, toks[n]);
    NoQuestion(c);
    Regroup(Print(c), [TOp(Question), TOp(Colon)], Print(f));
    var j := Cut(toks, i, Print(c), [TOp(Question), TOp(Colon)] + Print(f), n);
    FirstOf(toks, i, c, j);
    TwoMarks(toks, j, Print(f), n);
    RtCoalesce(c, toks, i, j);
    RtExpr(f, toks, j + 2, n);
    ShortArms(toks, i, c, j, f, n);
    TernaryAlone(toks, i, Ternary(c, c, f), n);
  }

  lemma NoQuestion(c: Expr)
    requires !Edge(c, TOp(Question))
    ensures !Absorbs(c, 5, TOp(Question))
  {
    hide Edge, Rank, IsLValue;
  }

  lemma TwoMarks(toks: seq<Token>, j: nat, f: seq<Token>, n: nat)
    requires Spot(toks, j, [TOp(Question), TOp(Colon)] + f, n)
    ensures j + 2 < |toks| && toks[j] == TOp(Question) && toks[j + 1] == TOp(Colon) && Spot(toks, j + 2, f, n)
  {
    var k := Cut(toks, j, [TOp(Question), TOp(Colon)], f, n);
    Elem(toks, j, [TOp(Question), TOp(Colon)], k, 0);
    Elem(toks, j, [TOp(Question), TOp(Colon)], k, 1);
  }

  lemma ShortArms(toks: seq<Token>, i: nat, c: Expr, j: nat, f: Expr, n: nat)
    requires Stream(toks) && i < |toks| && j + 2 < |toks| && ParseCoalesce(toks, i) == Ok(c, j)
    requires toks[j] == TOp(Question) && toks[j + 1] == TOp(Colon) && ParseExpr(toks, j + 2) == Ok(f, n)
    ensures ParseTernary(toks, i) == Ok(Ternary(c, c, f), n)
  {
    hide ParseCoalesce, ParseExpr, FromIdent;
  }

  lemma TernaryAlone(toks: seq<Token>, i: nat, e: Expr, n: nat)
    requires Stream(toks) && i < |toks| && n < |toks| && Stop(toks[n]) && ParseTernary(toks, i) == Ok(e, n)
    ensures ParseExpr(toks, i) == Ok(e, n)
  {
    var t := toks[n];
    assert !AssignOp(t) && WordLevel(t) < 0;
    hide *;
    AssignBase(toks, i, e, n);
    OperandFrom(toks, i, e, n, 0);
    LogicalEnds(toks, n, e, 0);
    ExprIsLogical(toks, i);
  }

  /** A comma in front of the closing parenthesis is dropped. */
  lemma TrailingComma(s: string, es: seq<Expr>, toks: seq<Token>, i: nat, n: nat)
    requires es != [] && AllPlain(es) && s !in CONSTRUCTS + TRUES + FALSES + NULLS
    requires Stream(toks) && Spot(toks, i, [TIdent(s)] + ([TOp(LParen)] + (PrintList(es) + [TOp(Comma)] + [TOp(RParen)])), n)
    requires Stop(toks[n])
    ensures ParseExpr(toks, i) == Ok(Call(s, Args(es)), n)
  {
    hide *;
    Inside(toks, i, [TIdent(s)] + ([TOp(LParen)] + (PrintList(es) + [TOp(Comma)] + [TOp(RParen)])), n);
    var list := PrintList(es) + [TOp(Comma)] + [TOp(RParen)];
    CutHead(toks, i, TIdent(s), [TOp(LParen)] + list, n);
    CutHead(toks, i + 1, TOp(LParen), list, n);
    ListWithComma(es, toks, i + 2, n);
    Inside(toks, i + 2, list, n);
    NoDot(toks[i + 2]);
    ArgsList(toks, i + 1, es, n);
    CallAlone(s, Args(es), toks, i, n);
  }

  lemma Inside(toks: seq<Token>, i: nat, part: seq<Token>, n: nat)
    requires Spot(toks, i, part, n)
    ensures n < |toks|
  {
  }

  lemma NoDot(t: Token)
    requires Starter(t)
    ensures t != TOp(Dot)
  {
  }

  lemma CallAlone(s: string, args: Args, toks: seq<Token>, i: nat, n: nat)
    requires Stream(toks) && i + 1 < |toks| && toks[i] == TIdent(s) && toks[i + 1] == TOp(LParen)
    requires s !in CONSTRUCTS + TRUES + FALSES + NULLS
    requires ParseCallArgs(toks, i + 1) == Ok(args, n) && n < |toks| && Stop(toks[n])
    ensures ParseExpr(toks, i) == Ok(Call(s, args), n)
  {
    var e := Call(s, args);
    assert !Reserved(s) && KeywordLiteral(s) == [];
    hide ParseExpr, ParsePrimary, ParsePostfix, PostfixLoop, ParseCallArgs, Reserved, KeywordLiteral;
    PrimaryCall(toks, i, s, args, n);
    PostfixBase(toks, i, e, n);
    PostfixEnds(toks, n, e);
    ChainAlone(toks, i, e, n);
  }

  lemma {:induction false} ListWithComma(es: seq<Expr>, toks: seq<Token>, i: nat, n: nat)
    requires es != [] && AllPlain(es) && Stream(toks) && Spot(toks, i, PrintList(es) + [TOp(Comma)] + [TOp(RParen)], n)
    ensures i < n && ParseArgs(toks, i) == Ok(es, n) && Starter(toks[i])
    decreases es
  {
    hide Plain, Print, PrintList, ParseArgs, ParseExpr, Starter;
    var e, rest := es[0], es[1..];
    assert es == [e] + rest && AllPlain(rest);
    CommaPrint(es, e, rest);
    Closing(TOp(Comma));
    StartsPlain(e, 0);
    StartsNoClose(e, 0);
    if rest == [] {
      var k := CutEnd(toks, i, Print(e) + [TOp(Comma)], TOp(RParen), n);
      var j := RtClosed(e, toks, i, TOp(Comma), k);
      NoArguments(toks, k);
      ArgsMore(toks, i, e, j, [], n);
    } else {
      var k := Cut(toks, i, Print(e) + [TOp(Comma)], PrintList(rest) + [TOp(Comma)] + [TOp(RParen)], n);
      var j := RtClosed(e, toks, i, TOp(Comma), k);
      ListWithComma(rest, toks, k, n);
      ArgsMore(toks, i, e, j, rest, n);
    }
  }

  lemma CommaPrint(es: seq<Expr>, e: Expr, rest: seq<Expr>)
    requires es != [] && e == es[0] && rest == es[1..]
    ensures
      PrintList(es) + [TOp(Comma)] + [TOp(RParen)] ==
        if rest == [] then Print(e) + [TOp(Comma)] + [TOp(RParen)]
        else Print(e) + [TOp(Comma)] + (PrintList(rest) + [TOp(Comma)] + [TOp(RParen)])
  {
    hide Print;
  }
}
