/** The parser itself: one cursor over the tokens and one stack of pending arguments. */
module Parser {
  import opened Syntax
  import G = Grammar

  datatype Outcome<+T> = Done(value: T) | Failed(error: Error)

  /** A re-entrant stack: nested lists push and pop above the mark of the outer one. */
  class Scratch<T> {
    var buf: seq<T>

    constructor ()
      ensures buf == []
    {
      buf := [];
    }

    method Mark() returns (m: nat)
      ensures m == |buf|
    {
      m := |buf|;
    }

    method Push(v: T)
      modifies this
      ensures buf == old(buf) + [v]
    {
      buf := buf + [v];
    }

    /** Pops everything pushed since the mark, in the order it was pushed. */
    method Take(mark: nat) returns (out: seq<T>)
      requires mark <= |buf|
      modifies this
      ensures old(buf) == buf + out && |buf| == mark
    {
      out := buf[mark..];
      buf := buf[..mark];
    }

    method Drop(mark: nat)
      requires mark <= |buf|
      modifies this
      ensures buf == old(buf)[..mark]
    {
      buf := buf[..mark];
    }
  }

  /** What the rest of an argument list adds to the arguments already on the stack. */
  ghost function After(es: seq<Expr>, rest: Parse<seq<Expr>>): Parse<seq<Expr>> {
    match rest
    case Ok(more, j) => Ok(es + more, j)
    case Err(e) => Err(e)
  }

  lemma AfterNone(rest: Parse<seq<Expr>>)
    ensures After([], rest) == rest
  {
    if rest.Ok? { assert [] + rest.value == rest.value; }
  }

  /** One more argument on the stack, with the comma or the parenthesis behind it. */
  lemma AfterOne(toks: seq<Token>, i: nat, es: seq<Expr>, e: Expr, j: nat)
    requires Stream(toks) && i < |toks| && j < |toks| && toks[i] != TOp(RParen) && G.ParseExpr(toks, i) == Ok(e, j)
    ensures
      After(es, G.ParseArgs(toks, i)) ==
        if toks[j] == TOp(Comma) then After(es + [e], G.ParseArgs(toks, j + 1))
        else if toks[j] == TOp(RParen) then Ok(es + [e], j + 1)
        else Err(Expected(RParen))
  {
    hide G.ParseExpr;
    if toks[j] == TOp(Comma) {
      var rest := G.ParseArgs(toks, j + 1);
      if rest.Ok? { assert es + ([e] + rest.value) == es + [e] + rest.value; }
    }
  }

  lemma FailedArgument(toks: seq<Token>, i: nat, es: seq<Expr>)
    requires Stream(toks) && i < |toks| && toks[i] != TOp(RParen) && G.ParseExpr(toks, i).Err?
    ensures After(es, G.ParseArgs(toks, i)) == Err(G.ParseExpr(toks, i).error)
  {
  }

  lemma LastArgument(toks: seq<Token>, i: nat, es: seq<Expr>)
    requires Stream(toks) && i < |toks|
    ensures toks[i] == TOp(RParen) ==> After(es, G.ParseArgs(toks, i)) == Ok(es, i + 1)
  {
    hide G.ParseExpr;
    assert es + [] == es;
  }

  lemma Assoc<T>(a: seq<T>, b: seq<T>, c: seq<T>)
    ensures a + b + c == a + (b + c) && (a + b)[..|a|] == a
  {
  }

  /** A sequence splits into parts of given lengths in one way. */
  lemma SameParts<T>(a: seq<T>, b: seq<T>, c: seq<T>, d: seq<T>)
    requires a + b == c + d && |a| == |c|
    ensures a == c && b == d
  {
    assert (a + b)[..|a|] == a && (c + d)[..|c|] == c && (a + b)[|a|..] == b && (c + d)[|c|..] == d;
  }

  class Parser {
    const toks: seq<Token>
    var i: nat
    const exprs: Scratch<Expr>

    constructor (toks: seq<Token>)
      requires Stream(toks)
      ensures Valid() && this.toks == toks && i == 0 && fresh(exprs) && exprs.buf == []
    {
      this.toks := toks;
      i := 0;
      exprs := new Scratch();
    }

    ghost predicate Valid()
      reads this
    {
      Stream(toks) && i < |toks|
    }

    /** The method did what the grammar answers from the offset it started at. */
    ghost predicate Did<T>(r: Outcome<T>, answer: Parse<T>)
      reads this
    {
      match answer
      case Ok(v, j) => r == Done(v) && i == j
      case Err(e) => r == Failed(e)
    }

    function Cur(): Token
      requires Valid()
      reads this
    {
      toks[i]
    }

    predicate IsOp(op: Op)
      requires Valid()
      reads this
    {
      toks[i] == TOp(op)
    }

    method Next() returns (t: Token)
      requires Valid()
      modifies this`i
      ensures Valid() && t == toks[old(i)]
      ensures i == if old(i) < |toks| - 1 then old(i) + 1 else old(i)
    {
      t := toks[i];
      if i < |toks| - 1 { i := i + 1; }
    }

    method EatOp(op: Op) returns (r: Outcome<()>)
      requires Valid() && op != Semi
      modifies this`i
      ensures Valid()
      ensures toks[old(i)] == TOp(op) ==> r == Done(()) && i == old(i) + 1
      ensures toks[old(i)] != TOp(op) ==> r == Failed(Expected(op)) && i == old(i)
    {
      if !IsOp(op) { return Failed(Expected(op)); }
      var _ := Next();
      return Done(());
    }

    method ParseExpr() returns (r: Outcome<Expr>)
      requires Valid()
      modifies this`i, exprs
      ensures Valid() && exprs.buf == old(exprs.buf) && Did(r, G.ParseExpr(toks, old(i)))
      decreases |toks| - i, 30
    {
      r := ParseAssign();
      if r.Failed? || WordLevel(Cur()) < 0 { return; }
      r := ParseLogical(r.value, 0);
    }

    method ParseLogical(first: Expr, min: nat) returns (r: Outcome<Expr>)
      requires Valid() && min <= 3
      modifies this`i, exprs
      ensures Valid() && exprs.buf == old(exprs.buf) && Did(r, G.LogicalLoop(toks, old(i), first, min))
      decreases |toks| - i, 29, 3 - min
    {
      hide G.ParseAssign, G.FromIdent, G.FromCast;
      ghost var answer := G.LogicalLoop(toks, i, first, min);
      var left := first;
      while true
        invariant Valid() && old(i) <= i && exprs.buf == old(exprs.buf)
        invariant G.LogicalLoop(toks, i, left, min) == answer
        decreases |toks| - i
      {
        var level := WordLevel(Cur());
        if level < min { return Done(left); }
        var _ := Next();
        r := ParseAssign();
        if r.Failed? { return; }
        if WordLevel(Cur()) > level {
          r := ParseLogical(r.value, level + 1);
          if r.Failed? { return; }
        }
        left := Binary(Word(level), left, r.value);
      }
    }

    method ParseAssign() returns (r: Outcome<Expr>)
      requires Valid()
      modifies this`i, exprs
      ensures Valid() && exprs.buf == old(exprs.buf) && Did(r, G.ParseAssign(toks, old(i)))
      decreases |toks| - i, 28
    {
      hide G.ParseTernary, G.AssignTo, IsLValue, G.FromIdent;
      r := ParseTernary();
      if r.Failed? { return; }
      if AssignOp(Cur()) && IsLValue(r.value) {
        if G.OpAt(toks, i, Eq) && G.OpAt(toks, i + 1, Amp) { return Failed(Unmodelled); }
        r := AssignTo(r.value);
      }
    }

    method AssignTo(target: Expr) returns (r: Outcome<Expr>)
      requires Valid() && AssignOp(toks[i])
      modifies this`i, exprs
      ensures Valid() && exprs.buf == old(exprs.buf) && Did(r, G.AssignTo(toks, old(i), target))
      decreases |toks| - i, 0
    {
      var t := Next();
      r := ParseAssign();
      if r.Failed? { return; }
      match G.AssignExpr(target, t.op, r.value, i)
      case Ok(e, _) => return Done(e);
      case Err(e) => return Failed(e);
    }

    method ParseCoalesce() returns (r: Outcome<Expr>)
      requires Valid()
      modifies this`i, exprs
      ensures Valid() && exprs.buf == old(exprs.buf) && Did(r, G.ParseCoalesce(toks, old(i)))
      decreases |toks| - i, 26
    {
      hide G.ParseBinary, G.AssignTo;
      r := ParseBinary(1);
      if r.Failed? || !IsOp(Coal) { return; }
      var left := r.value;
      var _ := Next();
      r := ParseCoalesce();
      if r.Failed? { return; }
      if AssignOp(Cur()) && IsLValue(r.value) {
        r := AssignTo(r.value);
        if r.Failed? { return; }
      }
      r := Done(Coalesce(left, r.value, false));
    }

    method ParseTernary() returns (r: Outcome<Expr>)
      requires Valid()
      modifies this`i, exprs
      ensures Valid() && exprs.buf == old(exprs.buf) && Did(r, G.ParseTernary(toks, old(i)))
      decreases |toks| - i, 27
    {
      hide G.ParseCoalesce, G.ParseExpr;
      r := ParseCoalesce();
      if r.Failed? || !IsOp(Question) { return; }
      var cond := r.value;
      var _ := Next();
      if !IsOp(Colon) {
        r := ParseExpr();
        if r.Failed? { return; }
      }
      var then_ := r.value;
      var colon := EatOp(Colon);
      if colon.Failed? { return Failed(colon.error); }
      r := ParseExpr();
      if r.Failed? { return; }
      r := Done(Ternary(cond, then_, r.value));
    }

    method ParseBinary(min: nat) returns (r: Outcome<Expr>)
      requires Valid() && 1 <= min <= 12
      modifies this`i, exprs
      ensures Valid() && exprs.buf == old(exprs.buf) && Did(r, G.ParseBinary(toks, old(i), min))
      decreases |toks| - i, 25
    {
      ghost var answer := G.ParseBinary(toks, i, min);
      r := ParseUnary();
      if r.Failed? { return; }
      var left := r.value;
      while true
        invariant Valid() && old(i) < i && exprs.buf == old(exprs.buf)
        invariant G.BinaryLoop(toks, i, left, min) == answer
        decreases |toks| - i
      {
        var prec := Prec(Cur());
        if prec < min { return Done(left); }
        var op := Next();
        r := BinaryRight(prec + 1);
        if r.Failed? { return; }
        left := Binary(Sym(op.op), left, r.value);
      }
    }

    /** The right operand of a binary operator, with the assignment folded onto it. */
    method BinaryRight(min: nat) returns (r: Outcome<Expr>)
      requires Valid() && 1 <= min <= 12
      modifies this`i, exprs
      ensures Valid() && exprs.buf == old(exprs.buf) && Did(r, G.BinaryRight(toks, old(i), min))
      decreases |toks| - i, 26
    {
      r := ParseBinary(min);
      if r.Failed? { return; }
      if AssignOp(Cur()) && IsLValue(r.value) {
        if G.OpAt(toks, i, Eq) && G.OpAt(toks, i + 1, Amp) { return Failed(Unmodelled); }
        r := AssignTo(r.value);
      }
    }

    method ParseUnary() returns (r: Outcome<Expr>)
      requires Valid()
      modifies this`i, exprs
      ensures Valid() && exprs.buf == old(exprs.buf) && Did(r, G.ParseUnary(toks, old(i)))
      decreases |toks| - i, 23
    {
      hide G.ParsePostfix, G.ParseInstanceOf, G.FromIdent, G.FromCast, IsLValue, G.CastHead;
      var t := Cur();
      if G.CastAt(toks, i) {
        var _ := Next();
        var typ := Next();
        var _ := Next();
        r := ParseUnary();
        if r.Done? { r := Done(Cast(typ.name, r.value)); }
      } else if t.TOp? && StepOp(t.op) {
        var _ := Next();
        r := ParsePostfix();
        if r.Done? { r := if IsLValue(r.value) then Done(Prefix(t.op, r.value)) else Failed(NotAssignable(t.op)); }
      } else if t.TOp? && PrefixOp(t.op) {
        var _ := Next();
        r := ParseUnary();
        if r.Done? { r := Done(Prefix(t.op, r.value)); }
      } else if IsOp(Silence) {
        var _ := Next();
        r := ParseUnary();
      } else if IsOp(Amp) && G.OpAt(toks, i, Amp) && Peek(toks, i + 1).TVar? {
        r := Failed(Unmodelled);
      } else {
        r := ParseInstanceOf();
      }
    }

    method ParseInstanceOf() returns (r: Outcome<Expr>)
      requires Valid()
      modifies this`i, exprs
      ensures Valid() && exprs.buf == old(exprs.buf) && Did(r, G.ParseInstanceOf(toks, old(i)))
      decreases |toks| - i, 22
    {
      ghost var answer := G.ParseInstanceOf(toks, i);
      r := ParsePow();
      if r.Failed? { return; }
      var left := r.value;
      while InstanceOfKw(Cur())
        invariant Valid() && old(i) < i && exprs.buf == old(exprs.buf)
        invariant G.InstanceOfLoop(toks, i, left) == answer
        decreases |toks| - i
      {
        var _ := Next();
        r := ParsePow();
        if r.Failed? { return; }
        left := Binary(InstanceOf, left, r.value);
      }
      r := Done(left);
    }

    method ParsePow() returns (r: Outcome<Expr>)
      requires Valid()
      modifies this`i, exprs
      ensures Valid() && exprs.buf == old(exprs.buf) && Did(r, G.ParsePow(toks, old(i)))
      decreases |toks| - i, 20
    {
      hide G.ParsePostfix, G.ParseUnary, G.FromIdent, G.FromCast;
      r := ParsePostfix();
      if r.Failed? || !IsOp(StarStar) { return; }
      var base := r.value;
      var _ := Next();
      r := ParseUnary();
      if r.Done? { r := Done(Binary(Sym(StarStar), base, r.value)); }
    }

    method ParsePostfix() returns (r: Outcome<Expr>)
      requires Valid()
      modifies this`i, exprs
      ensures Valid() && exprs.buf == old(exprs.buf) && Did(r, G.ParsePostfix(toks, old(i)))
      decreases |toks| - i, 19
    {
      ghost var answer := G.ParsePostfix(toks, i);
      r := ParsePrimary();
      if r.Failed? { return; }
      var e := r.value;
      while true
        invariant Valid() && old(i) < i && exprs.buf == old(exprs.buf)
        invariant G.PostfixLoop(toks, i, e) == answer
        decreases |toks| - i
      {
        var before := i;
        r := PostfixStep(e);
        if r.Failed? || i == before { return; }
        e := r.value;
      }
    }

    /** One pass of the postfix loop. */
    method PostfixStep(e: Expr) returns (r: Outcome<Expr>)
      requires Valid()
      modifies this`i, exprs
      ensures Valid() && exprs.buf == old(exprs.buf) && Did(r, G.PostfixStep(toks, old(i), e))
      decreases |toks| - i, 17
    {
      var t := Cur();
      if IsOp(Arrow) {
        var _ := Next();
        var m := ParseMember();
        if m.Failed? { return Failed(m.error); }
        if !IsOp(LParen) { return Done(Prop(e, m.value)); }
        var args := ParseCallArgs();
        r := if args.Failed? then Failed(args.error) else Done(Method(e, m.value, args.value));
      } else if IsOp(LBracket) {
        var _ := Next();
        if IsOp(RBracket) {
          var _ := Next();
          return Done(Append(e));
        }
        r := ParseExpr();
        if r.Failed? { return; }
        var close := EatOp(RBracket);
        r := if close.Failed? then Failed(close.error) else Done(Index(e, r.value));
      } else if IsOp(LParen) {
        var args := ParseCallArgs();
        r := if args.Failed? then Failed(args.error) else Done(Invoke(e, args.value));
      } else if t.TOp? && StepOp(t.op) && IsLValue(e) {
        var op := Next();
        r := Done(Postfix(op.op, e));
      } else {
        r := Done(e);
      }
    }

    method ParseMember() returns (r: Outcome<Member>)
      requires Valid()
      modifies this`i, exprs
      ensures Valid() && exprs.buf == old(exprs.buf) && Did(r, G.ParseMember(toks, old(i)))
      decreases |toks| - i, 31
    {
      if Cur().TVar? {
        var t := Next();
        r := Done(Dynamic(Var(t.name)));
      } else if IsOp(LBrace) {
        var _ := Next();
        var x := ParseExpr();
        if x.Failed? { return Failed(x.error); }
        var close := EatOp(RBrace);
        r := if close.Failed? then Failed(close.error) else Done(Dynamic(x.value));
      } else if Cur().TIdent? {
        var t := Next();
        r := Done(Named(t.name));
      } else {
        r := Failed(ExpectedMember);
      }
    }

    method ParsePrimary() returns (r: Outcome<Expr>)
      requires Valid()
      modifies this`i, exprs
      ensures Valid() && exprs.buf == old(exprs.buf) && Did(r, G.ParsePrimary(toks, old(i)))
      decreases |toks| - i, 16
    {
      var t := Cur();
      match t
      case TVar(name) => var _ := Next(); r := Done(Var(name));
      case TInt(n) => var _ := Next(); r := Done(Lit(IntLit(n)));
      case TStr(text, raw) => var _ := Next(); r := Done(Lit(StrLit(text, raw)));
      case TForeign => r := Failed(Unmodelled);
      case TIdent(_) => r := ParseIdent();
      case TEof => r := Failed(Unexpected(t));
      case TOp(op) =>
        if op == LParen {
          var _ := Next();
          r := ParseExpr();
          if r.Failed? { return; }
          var close := EatOp(RParen);
          r := if close.Failed? then Failed(close.error) else Done(Paren(r.value));
        } else if op == Backslash || op == LBracket || op == LBrace {
          r := Failed(Unmodelled);
        } else {
          r := Failed(Unexpected(t));
        }
    }

    method ParseIdent() returns (r: Outcome<Expr>)
      requires Valid() && toks[i].TIdent?
      modifies this`i, exprs
      ensures Valid() && exprs.buf == old(exprs.buf) && Did(r, G.ParseIdent(toks, old(i)))
      decreases |toks| - i, 15
    {
      var ahead := Peek(toks, i + 1);
      var t := Next();
      var name := t.name;
      if name == "static" && ahead.TIdent? && FuncKeyword(ahead.name) {
        r := Failed(Unmodelled);
      } else if KeywordLiteral(name) != [] {
        r := Done(Lit(KeywordLiteral(name)[0]));
      } else if Reserved(name) || ahead == TOp(Backslash) || ahead == TOp(DoubleColon) {
        r := Failed(Unmodelled);
      } else if IsOp(LParen) {
        var args := ParseCallArgs();
        r := if args.Failed? then Failed(args.error) else Done(Call(name, args.value));
      } else if Magic(name) {
        r := Failed(Unmodelled);
      } else {
        r := Done(Const(name));
      }
    }

    method ParseCallArgs() returns (r: Outcome<Args>)
      requires Valid() && toks[i] == TOp(LParen)
      modifies this`i, exprs
      ensures Valid() && exprs.buf == old(exprs.buf) && Did(r, G.ParseCallArgs(toks, old(i)))
      decreases |toks| - i, 14
    {
      if G.MarkerAt(toks, i) {
        i := i + 5;
        return Done(FirstClass);
      }
      var es := ParseArgs();
      r := if es.Failed? then Failed(es.error) else Done(Args(es.value));
    }

    /** An argument list collects its own arguments above the mark, however deep the lists inside it nest. */
    method ParseArgs() returns (r: Outcome<seq<Expr>>)
      requires Valid() && toks[i] == TOp(LParen)
      modifies this`i, exprs
      ensures Valid() && exprs.buf == old(exprs.buf) && Did(r, G.ParseArgs(toks, old(i) + 1))
      decreases |toks| - i, 13
    {
      hide G.ParseArgs;
      var open := EatOp(LParen);
      var mark := exprs.Mark();
      ghost var pending := exprs.buf;
      var collected, es := CollectArgs();
      if collected.Failed? {
        Assoc(pending, es, []);
        exprs.Drop(mark);
        return Failed(collected.error);
      }
      var taken := exprs.Take(mark);
      SameParts(exprs.buf, taken, pending, es);
      var close := EatOp(RParen);
      r := if close.Failed? then Failed(close.error) else Done(taken);
    }

    /** Pushes the arguments up to the closing parenthesis, or to the token that stands where it should. */
    method CollectArgs() returns (r: Outcome<()>, ghost es: seq<Expr>)
      requires Valid()
      modifies this`i, exprs
      ensures Valid() && exprs.buf == old(exprs.buf) + es
      ensures r.Failed? ==> G.ParseArgs(toks, old(i)) == Err(r.error)
      ensures r.Done? && toks[i] == TOp(RParen) ==> G.ParseArgs(toks, old(i)) == Ok(es, i + 1)
      ensures r.Done? && toks[i] != TOp(RParen) ==> G.ParseArgs(toks, old(i)) == Err(Expected(RParen))
      decreases |toks| - i, 31
    {
      hide G.ParseExpr, G.ParseArgs, After;
      ghost var answer := G.ParseArgs(toks, i);
      es := [];
      AfterNone(answer);
      while !IsOp(RParen)
        invariant Valid() && old(i) <= i && exprs.buf == old(exprs.buf) + es
        invariant After(es, G.ParseArgs(toks, i)) == answer
        decreases |toks| - i
      {
        ghost var start := i;
        var e := ParseExpr();
        if e.Failed? {
          FailedArgument(toks, start, es);
          return Failed(e.error), es;
        }
        AfterOne(toks, start, es, e.value, i);
        Assoc(old(exprs.buf), es, [e.value]);
        exprs.Push(e.value);
        es := es + [e.value];
        if !IsOp(Comma) { return Done(()), es; }
        var _ := Next();
      }
      LastArgument(toks, i, es);
      r := Done(());
    }
  }
}
