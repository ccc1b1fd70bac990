/** Every tree the parser answers is faithful to the tokens it was read from. */
module Reading {
  import opened Syntax
  import opened Printer
  import opened Grammar
  import opened Shape
  import opened Verbatim
  import Sound

  // What was answered was read from s on.
  ghost predicate Grown(toks: seq<Token>, s: nat, r: Parse<Expr>) {
    r.Ok? ==> Reads(toks, s, r.next, r.value)
  }

  lemma {:induction false} ReadExpr(toks: seq<Token>, i: nat)
    requires Stream(toks) && i < |toks|
    ensures Grown(toks, i, ParseExpr(toks, i))
    decreases |toks| - i, 30
  {
    var first := ParseAssign(toks, i);
    var r := ParseExpr(toks, i);
    assert r.Ok? ==> first.Ok? && (r == first || r == LogicalLoop(toks, first.next, first.value, 0));
    hide ParseExpr, ParseAssign, LogicalLoop, Reads;
    ReadAssign(toks, i);
    if r.Ok? && r != first { ReadLogical(toks, i, first.next, first.value, 0); }
  }

  lemma {:induction false} ReadLogical(toks: seq<Token>, s: nat, i: nat, left: Expr, min: nat)
    requires Stream(toks) && i < |toks| && min <= 3 && Reads(toks, s, i, left)
    requires LogicalLoop(toks, i, left, min).Ok?
    ensures var r := LogicalLoop(toks, i, left, min); Reads(toks, s, r.next, r.value)
    decreases |toks| - i, 29, 3 - min
  {
    hide ParseAssign, Reads, WordLevel, FromIdent, FromCast;
    var r := LogicalLoop(toks, i, left, min);
    var level := WordLevel(toks[i]);
    if level < min {
      assert r == Ok(left, i);
    } else {
      var first := ParseAssign(toks, i + 1);
      var second := if WordLevel(toks[first.next]) > level then LogicalLoop(toks, first.next, first.value, level + 1) else first;
      assert first.Ok? && second.Ok?;
      var e := Binary(Word(level), left, second.value);
      assert r == LogicalLoop(toks, second.next, e, min);
      hide LogicalLoop;
      ReadAssign(toks, i + 1);
      if WordLevel(toks[first.next]) > level {
        ReadLogical(toks, i + 1, first.next, first.value, level + 1);
      }
      ReadsWord(toks, s, i, second.next, left, second.value);
      ReadLogical(toks, s, second.next, e, min);
    }
  }

  lemma ReadsWord(toks: seq<Token>, s: nat, i: nat, n: nat, l: Expr, r: Expr)
    requires Reads(toks, s, i, l) && i < |toks| && WordLevel(toks[i]) >= 0 && Reads(toks, i + 1, n, r)
    ensures Reads(toks, s, n, Binary(Word(WordLevel(toks[i])), l, r))
  {
    assert Canonical(toks[i]) ==> toks[i] == BinToken(Word(WordLevel(toks[i])));
    hide *;
    ReadsBinary(toks, s, i, n, Word(WordLevel(toks[i])), l, r);
  }

  lemma {:induction false} ReadAssign(toks: seq<Token>, i: nat)
    requires Stream(toks) && i < |toks|
    ensures Grown(toks, i, ParseAssign(toks, i))
    decreases |toks| - i, 28
  {
    hide ParseTernary, AssignTo, Reads, FromIdent, FromCast;
    var r := ParseAssign(toks, i);
    var first := ParseTernary(toks, i);
    if r.Ok? {
      assert first.Ok?;
      var assigns := AssignOp(toks[first.next]) && IsLValue(first.value);
      assert r == if assigns then AssignTo(toks, first.next, first.value) else first;
      hide ParseAssign;
      ReadTernary(toks, i);
      if assigns { ReadAssignTo(toks, i, first.next, first.value); }
    }
  }

  lemma {:induction false} ReadAssignTo(toks: seq<Token>, s: nat, i: nat, target: Expr)
    requires Stream(toks) && i < |toks| && AssignOp(toks[i]) && Reads(toks, s, i, target)
    ensures Grown(toks, s, AssignTo(toks, i, target))
    decreases |toks| - i, 0
  {
    hide ParseAssign, Reads, AssignExpr, FromIdent, FromCast;
    var r := AssignTo(toks, i, target);
    if r.Ok? {
      var v := ParseAssign(toks, i + 1);
      assert v.Ok? && r == AssignExpr(target, toks[i].op, v.value, v.next);
      hide AssignTo;
      ReadAssign(toks, i + 1);
      Unmarked(toks, i + 1);
      ReadsAssign(toks, s, i, v.next, target, v.value, r);
    }
  }

  /** A parsed value is never the marked `??` an assignment builds for itself. */
  lemma Unmarked(toks: seq<Token>, i: nat)
    requires Stream(toks) && i < |toks| && ParseAssign(toks, i).Ok?
    ensures var v := ParseAssign(toks, i).value; !(v.Coalesce? && v.assign)
  {
    hide ParseAssign, Edge;
    Sound.SoundAssign(toks, i, false);
  }

  lemma {:induction false} ReadTernary(toks: seq<Token>, i: nat)
    requires Stream(toks) && i < |toks|
    ensures Grown(toks, i, ParseTernary(toks, i))
    decreases |toks| - i, 27
  {
    hide ParseCoalesce, ParseExpr, Reads, FromIdent, FromCast;
    var r := ParseTernary(toks, i);
    var c := ParseCoalesce(toks, i);
    if r.Ok? {
      assert c.Ok?;
      if !OpAt(toks, c.next, Question) {
        assert r == c;
        hide ParseTernary;
        ReadCoalesce(toks, i);
      } else if OpAt(toks, c.next + 1, Colon) {
        assert c.next + 1 < r.next;
        hide ParseTernary;
        ReadsShort(toks, i, c.next, r.next, r.value);
      } else {
        hide ParseTernary;
        ReadCoalesce(toks, i);
        ReadArms(toks, i, c.value, c.next);
      }
    }
  }

  lemma {:induction false} ReadArms(toks: seq<Token>, i: nat, c: Expr, j: nat)
    requires Stream(toks) && i < |toks| && i < j && j + 1 < |toks| && ParseCoalesce(toks, i) == Ok(c, j) && Reads(toks, i, j, c)
    requires OpAt(toks, j, Question) && !OpAt(toks, j + 1, Colon) && ParseTernary(toks, i).Ok?
    ensures var r := ParseTernary(toks, i); Reads(toks, i, r.next, r.value)
    decreases |toks| - i, 0
  {
    hide *;
    var t, k, f := Sound.ArmsCase(toks, i, c, j);
    At(toks, j, Question);
    At(toks, j + 1, Colon);
    ReadExpr(toks, j + 1);
    ReadExpr(toks, k + 1);
    Growth(toks, j + 1, ParseExpr(toks, j + 1));
    Growth(toks, k + 1, ParseExpr(toks, k + 1));
    ReadsTernary(toks, i, j, k, ParseTernary(toks, i).next, c, t.value, f);
  }

  lemma At(toks: seq<Token>, i: nat, op: Op)
    requires Stream(toks) && i < |toks|
    ensures OpAt(toks, i, op) <==> toks[i] == TOp(op)
  {
  }

  lemma Growth(toks: seq<Token>, s: nat, r: Parse<Expr>)
    requires Grown(toks, s, r) && r.Ok?
    ensures Reads(toks, s, r.next, r.value)
  {
    hide Reads;
  }

  lemma {:induction false} ReadCoalesce(toks: seq<Token>, i: nat)
    requires Stream(toks) && i < |toks|
    ensures Grown(toks, i, ParseCoalesce(toks, i))
    decreases |toks| - i, 26
  {
    hide ParseCoalesce, ParseBinary, AssignTo, Reads, FromIdent;
    if ParseCoalesce(toks, i).Ok? {
      var l, right := Sound.CoalesceCase(toks, i);
      ReadBinary(toks, i, 1);
      if l != ParseCoalesce(toks, i) { ReadRest(toks, i, l, right); }
    }
  }

  lemma {:induction false} ReadRest(toks: seq<Token>, i: nat, l: Parse<Expr>, right: Parse<Expr>)
    requires Stream(toks) && i < |toks| && Sound.Folded(toks, i, l, right) && Reads(toks, i, l.next, l.value)
    ensures Grown(toks, i, ParseCoalesce(toks, i))
    decreases |toks| - i, 25
  {
    hide ParseCoalesce, ParseBinary, AssignTo, Reads, FromIdent, AssignOp, IsLValue;
    var first := ParseCoalesce(toks, l.next + 1);
    ReadCoalesce(toks, l.next + 1);
    if right != first { ReadAssignTo(toks, l.next + 1, first.next, first.value); }
    ReadsCoalesce(toks, i, l.next, right.next, l.value, right.value);
  }

  lemma {:induction false} ReadBinary(toks: seq<Token>, i: nat, min: nat)
    requires Stream(toks) && i < |toks| && 1 <= min <= 12
    ensures Grown(toks, i, ParseBinary(toks, i, min))
    decreases |toks| - i, 25
  {
    hide ParseUnary, BinaryLoop, Reads, FromIdent, FromCast;
    var r := ParseBinary(toks, i, min);
    var u := ParseUnary(toks, i);
    if r.Ok? {
      assert u.Ok? && r == BinaryLoop(toks, u.next, u.value, min);
      hide ParseBinary;
      ReadUnary(toks, i);
      ReadBinaryLoop(toks, i, u.next, u.value, min);
    }
  }

  lemma {:induction false} ReadBinaryLoop(toks: seq<Token>, s: nat, i: nat, left: Expr, min: nat)
    requires Stream(toks) && i < |toks| && 1 <= min <= 12 && Reads(toks, s, i, left)
    ensures Grown(toks, s, BinaryLoop(toks, i, left, min))
    decreases |toks| - i, 24
  {
    hide BinaryRight, Reads, FromIdent, FromCast;
    var r := BinaryLoop(toks, i, left, min);
    var p := Prec(toks[i]);
    if p < min {
      assert r == Ok(left, i);
    } else if r.Ok? {
      var right := BinaryRight(toks, i + 1, p + 1);
      assert right.Ok?;
      var e := Binary(Sym(toks[i].op), left, right.value);
      assert r == BinaryLoop(toks, right.next, e, min);
      hide BinaryLoop;
      ReadRight(toks, i + 1, p + 1);
      ReadsBinary(toks, s, i, right.next, Sym(toks[i].op), left, right.value);
      ReadBinaryLoop(toks, s, right.next, e, min);
    }
  }

  lemma {:induction false} ReadRight(toks: seq<Token>, i: nat, min: nat)
    requires Stream(toks) && i < |toks| && 1 <= min <= 12
    ensures Grown(toks, i, BinaryRight(toks, i, min))
    decreases |toks| - i, 26
  {
    hide ParseBinary, AssignTo, Reads, FromIdent, FromCast;
    var r := BinaryRight(toks, i, min);
    var b := ParseBinary(toks, i, min);
    if r.Ok? {
      assert b.Ok?;
      var assigns := AssignOp(toks[b.next]) && IsLValue(b.value);
      assert r == if assigns then AssignTo(toks, b.next, b.value) else b;
      hide BinaryRight;
      ReadBinary(toks, i, min);
      if assigns { ReadAssignTo(toks, i, b.next, b.value); }
    }
  }

  lemma ReadsSilent(toks: seq<Token>, i: nat, n: nat, e: Expr)
    requires i < |toks| && toks[i] == TOp(Silence) && Reads(toks, i + 1, n, e)
    ensures Reads(toks, i, n, e)
  {
    hide Faithful, Print, Lost;
    Silent(toks, i, n, Print(e), Lost(e));
  }

  lemma {:induction false} ReadUnary(toks: seq<Token>, i: nat)
    requires Stream(toks) && i < |toks|
    ensures Grown(toks, i, ParseUnary(toks, i))
    decreases |toks| - i, 23
  {
    hide ParseInstanceOf, ParsePostfix, Reads, FromIdent, FromCast;
    var r := ParseUnary(toks, i);
    var t := toks[i];
    if r.Ok? {
      if CastAt(toks, i) {
        var x := ParseUnary(toks, i + 3);
        assert x.Ok? && r == Ok(Cast(toks[i + 1].name, x.value), x.next);
        hide ParseUnary;
        ReadUnary(toks, i + 3);
        ReadsCast(toks, i, x.next, toks[i + 1].name, x.value);
      } else if t.TOp? && StepOp(t.op) {
        var x := ParsePostfix(toks, i + 1);
        assert x.Ok? && r == Ok(Prefix(t.op, x.value), x.next);
        hide ParseUnary;
        ReadPostfix(toks, i + 1);
        ReadsPrefix(toks, i, x.next, t.op, x.value);
      } else if t.TOp? && PrefixOp(t.op) {
        var x := ParseUnary(toks, i + 1);
        assert x.Ok? && r == Ok(Prefix(t.op, x.value), x.next);
        hide ParseUnary;
        ReadUnary(toks, i + 1);
        ReadsPrefix(toks, i, x.next, t.op, x.value);
      } else if OpAt(toks, i, Silence) {
        assert r == ParseUnary(toks, i + 1);
        hide ParseUnary;
        ReadUnary(toks, i + 1);
        ReadsSilent(toks, i, r.next, r.value);
      } else {
        assert r == ParseInstanceOf(toks, i);
        hide ParseUnary;
        ReadInstanceOf(toks, i);
      }
    }
  }

  lemma {:induction false} ReadInstanceOf(toks: seq<Token>, i: nat)
    requires Stream(toks) && i < |toks|
    ensures Grown(toks, i, ParseInstanceOf(toks, i))
    decreases |toks| - i, 22
  {
    hide ParsePow, InstanceOfLoop, Reads, FromIdent, FromCast;
    var r := ParseInstanceOf(toks, i);
    var p := ParsePow(toks, i);
    if r.Ok? {
      assert p.Ok? && r == InstanceOfLoop(toks, p.next, p.value);
      hide ParseInstanceOf;
      ReadPow(toks, i);
      ReadInstanceOfLoop(toks, i, p.next, p.value);
    }
  }

  lemma {:induction false} ReadInstanceOfLoop(toks: seq<Token>, s: nat, i: nat, left: Expr)
    requires Stream(toks) && i < |toks| && Reads(toks, s, i, left)
    ensures Grown(toks, s, InstanceOfLoop(toks, i, left))
    decreases |toks| - i, 21
  {
    hide ParsePow, Reads, FromIdent, FromCast;
    var r := InstanceOfLoop(toks, i, left);
    if !InstanceOfKw(toks[i]) {
      assert r == Ok(left, i);
    } else if r.Ok? {
      var right := ParsePow(toks, i + 1);
      assert right.Ok? && r == InstanceOfLoop(toks, right.next, Binary(InstanceOf, left, right.value));
      hide InstanceOfLoop;
      ReadPow(toks, i + 1);
      ReadsBinary(toks, s, i, right.next, InstanceOf, left, right.value);
      ReadInstanceOfLoop(toks, s, right.next, Binary(InstanceOf, left, right.value));
    }
  }

  lemma {:induction false} ReadPow(toks: seq<Token>, i: nat)
    requires Stream(toks) && i < |toks|
    ensures Grown(toks, i, ParsePow(toks, i))
    decreases |toks| - i, 20
  {
    hide ParsePostfix, ParseUnary, Reads, FromIdent, FromCast;
    var r := ParsePow(toks, i);
    var b := ParsePostfix(toks, i);
    if r.Ok? {
      assert b.Ok?;
      if OpAt(toks, b.next, StarStar) {
        var x := ParseUnary(toks, b.next + 1);
        assert x.Ok? && r == Ok(Binary(Sym(StarStar), b.value, x.value), x.next);
        hide ParsePow;
        ReadPostfix(toks, i);
        ReadUnary(toks, b.next + 1);
        ReadsBinary(toks, i, b.next, x.next, Sym(StarStar), b.value, x.value);
      } else {
        assert r == b;
        hide ParsePow;
        ReadPostfix(toks, i);
      }
    }
  }

  lemma {:induction false} ReadPostfix(toks: seq<Token>, i: nat)
    requires Stream(toks) && i < |toks|
    ensures Grown(toks, i, ParsePostfix(toks, i))
    decreases |toks| - i, 19
  {
    hide ParsePrimary, PostfixLoop, Reads, FromIdent, FromCast;
    var r := ParsePostfix(toks, i);
    var p := ParsePrimary(toks, i);
    if r.Ok? {
      assert p.Ok? && r == PostfixLoop(toks, p.next, p.value);
      hide ParsePostfix;
      ReadPrimary(toks, i);
      ReadPostfixLoop(toks, i, p.next, p.value);
    }
  }

  lemma {:induction false} ReadPostfixLoop(toks: seq<Token>, s: nat, i: nat, left: Expr)
    requires Stream(toks) && i < |toks| && Reads(toks, s, i, left)
    ensures Grown(toks, s, PostfixLoop(toks, i, left))
    decreases |toks| - i, 18
  {
    hide PostfixStep, Reads, FromIdent, FromCast;
    var r := PostfixLoop(toks, i, left);
    var step := PostfixStep(toks, i, left);
    if r.Ok? {
      assert step.Ok?;
      assert r == if step.next == i then step else PostfixLoop(toks, step.next, step.value);
      hide PostfixLoop;
      ReadStep(toks, s, i, left);
      if step.next != i { ReadPostfixLoop(toks, s, step.next, step.value); }
    }
  }

  lemma {:induction false} ReadStep(toks: seq<Token>, s: nat, i: nat, left: Expr)
    requires Stream(toks) && i < |toks| && Reads(toks, s, i, left)
    ensures Grown(toks, s, PostfixStep(toks, i, left))
    decreases |toks| - i, 17
  {
    hide ParseMember, ParseCallArgs, Reads, ReadsMethod, ReadsArgs, ReadsProp, ParseExpr, FromIdent, FromCast;
    var r := PostfixStep(toks, i, left);
    if r.Ok? {
      if OpAt(toks, i, Arrow) {
        var m := ParseMember(toks, i + 1);
        assert m.Ok?;
        if OpAt(toks, m.next, LParen) {
          var a := ParseCallArgs(toks, m.next);
          assert a.Ok? && r == Ok(Method(left, m.value, a.value), a.next);
          hide PostfixStep;
          ReadMember(toks, i + 1);
          ReadCallArgs(toks, m.next);
          ReadsMethodCall(toks, s, i, m.next, a.next, left, m.value, a.value);
        } else {
          assert r == Ok(Prop(left, m.value), m.next);
          hide PostfixStep;
          ReadMember(toks, i + 1);
          ReadsProperty(toks, s, i, m.next, left, m.value);
        }
      } else if OpAt(toks, i, LBracket) {
        if OpAt(toks, i + 1, RBracket) {
          assert r == Ok(Append(left), i + 2);
          hide PostfixStep;
          ReadsAppend(toks, s, i, left);
        } else {
          var key := ParseExpr(toks, i + 1);
          assert key.Ok? && OpAt(toks, key.next, RBracket) && r == Ok(Index(left, key.value), key.next + 1);
          hide PostfixStep;
          ReadExpr(toks, i + 1);
          ReadsIndex(toks, s, i, key.next, left, key.value);
        }
      } else if OpAt(toks, i, LParen) {
        var a := ParseCallArgs(toks, i);
        assert a.Ok? && r == Ok(Invoke(left, a.value), a.next);
        hide PostfixStep;
        ReadCallArgs(toks, i);
        ReadsInvoke(toks, s, i, a.next, left, a.value);
      } else if r.next == i {
        assert r == Ok(left, i);
      } else {
        assert r == Ok(Postfix(toks[i].op, left), i + 1);
        hide PostfixStep;
        ReadsStep(toks, s, i, left, toks[i].op);
      }
    }
  }

  lemma ConstName(toks: seq<Token>, i: nat)
    requires Stream(toks) && i < |toks| && ParseExpr(toks, i).Ok?
    ensures var u := Unwrap(ParseExpr(toks, i).value); u.Const? ==> KeywordLiteral(u.name) == []
  {
    hide ParseExpr, Wf, Edge, Continues, Unwrap;
    Sound.SoundExpr(toks, i, false);
    UnwrapWf(ParseExpr(toks, i).value);
  }

  lemma {:induction false} UnwrapWf(x: Expr)
    requires Wf(x, 0, false)
    ensures Unwrap(x).Const? ==> KeywordLiteral(Unwrap(x).name) == []
    decreases x
  {
    if x.Paren? { UnwrapWf(x.x); }
  }

  lemma {:induction false} ReadMember(toks: seq<Token>, i: nat)
    requires Stream(toks) && i < |toks|
    ensures var r := ParseMember(toks, i); r.Ok? ==> ReadsProp(toks, i, r.next, r.value) && ReadsMethod(toks, i, r.next, r.value)
    decreases |toks| - i, 31
  {
    hide ParseExpr, Reads, ReadsProp, ReadsMethod, FromIdent, FromCast;
    var r := ParseMember(toks, i);
    if r.Ok? {
      if OpAt(toks, i, LBrace) {
        var x := ParseExpr(toks, i + 1);
        assert x.Ok? && OpAt(toks, x.next, RBrace) && r == Ok(Dynamic(x.value), x.next + 1);
        hide ParseMember;
        ReadExpr(toks, i + 1);
        ConstName(toks, i + 1);
        ReadsBraced(toks, i, x.next, x.value);
      } else {
        ReadsNamed(toks, i, r.value);
      }
    }
  }

  lemma {:induction false} ReadPrimary(toks: seq<Token>, i: nat)
    requires Stream(toks) && i < |toks|
    ensures Grown(toks, i, ParsePrimary(toks, i))
    decreases |toks| - i, 16
  {
    hide ParseExpr, Reads, ParseIdent, FromIdent, FromCast;
    var r := ParsePrimary(toks, i);
    if r.Ok? {
      if OpAt(toks, i, LParen) {
        var x := ParseExpr(toks, i + 1);
        assert x.Ok? && OpAt(toks, x.next, RParen) && r == Ok(Paren(x.value), x.next + 1);
        hide ParsePrimary;
        ReadExpr(toks, i + 1);
        ReadsParen(toks, i, x.next, x.value);
      } else if toks[i].TIdent? {
        assert r == ParseIdent(toks, i);
        hide ParsePrimary;
        ReadIdent(toks, i);
      } else {
        ReadsAtom(toks, i, r.value);
      }
    }
  }

  lemma {:induction false} ReadIdent(toks: seq<Token>, i: nat)
    requires Stream(toks) && i < |toks| && toks[i].TIdent?
    ensures Grown(toks, i, ParseIdent(toks, i))
    decreases |toks| - i, 15
  {
    hide ParseCallArgs, Reads, ReadsArgs, FromIdent, FromCast;
    var r := ParseIdent(toks, i);
    if r.Ok? {
      if r.value.Call? {
        var a := ParseCallArgs(toks, i + 1);
        assert a.Ok? && r == Ok(Call(toks[i].name, a.value), a.next);
        hide ParseIdent;
        ReadCallArgs(toks, i + 1);
        ReadsCall(toks, i, a.next, toks[i].name, a.value);
      } else {
        assert r.next == i + 1;
        ReadsAtom(toks, i, r.value);
      }
    }
  }

  lemma {:induction false} ReadCallArgs(toks: seq<Token>, i: nat)
    requires Stream(toks) && i < |toks| && OpAt(toks, i, LParen)
    ensures var r := ParseCallArgs(toks, i); r.Ok? ==> ReadsArgs(toks, i, r.next, r.value)
    decreases |toks| - i, 14
  {
    hide ReadsArgs, ParseArgs, ReadsList, FromIdent, FromCast;
    var r := ParseCallArgs(toks, i);
    if r.Ok? {
      if MarkerAt(toks, i) {
        ReadsMarker(toks, i);
      } else {
        var es := ParseArgs(toks, i + 1);
        assert es.Ok? && r == Ok(Args(es.value), es.next);
        hide ParseCallArgs;
        ReadList(toks, i + 1);
        ReadsArgList(toks, i, es.next, es.value);
      }
    }
  }

  lemma {:induction false} ReadList(toks: seq<Token>, i: nat)
    requires Stream(toks) && i < |toks|
    ensures var r := ParseArgs(toks, i); r.Ok? ==> ReadsList(toks, i, r.next, r.value)
    decreases |toks| - i, 31
  {
    hide ParseExpr, FromIdent, FromCast;
    var r := ParseArgs(toks, i);
    if r.Ok? {
      if OpAt(toks, i, RParen) {
        NoArgs(toks, i);
      } else {
        Sound.ArgsCase(toks, i);
        var e := ParseExpr(toks, i);
        if OpAt(toks, e.next, Comma) {
          var rest := ParseArgs(toks, e.next + 1);
          ReadMore(toks, i, e.value, e.next, rest.value, rest.next);
        } else {
          hide *;
          ReadOne(toks, i, e.value, e.next);
        }
      }
    }
  }

  lemma NoArgs(toks: seq<Token>, i: nat)
    requires i < |toks| && toks[i] == TOp(RParen)
    ensures ReadsList(toks, i, i + 1, [])
  {
    hide Faithful;
    TokenItself(toks, i, TOp(RParen));
    assert PrintList([]) + [TOp(RParen)] == [TOp(RParen)];
  }

  lemma {:induction false} ReadOne(toks: seq<Token>, i: nat, e: Expr, j: nat)
    requires Stream(toks) && i < |toks| && ParseExpr(toks, i) == Ok(e, j) && OpAt(toks, j, RParen)
    ensures ReadsList(toks, i, j + 1, [e])
    decreases |toks| - i, 31, 0
  {
    ReadExpr(toks, i);
    assert toks[j] == TOp(RParen);
    assert Reads(toks, i, j, e);
    hide *;
    ReadsLast(toks, i, j, e);
  }

  lemma {:induction false} ReadMore(toks: seq<Token>, i: nat, e: Expr, j: nat, rest: seq<Expr>, n: nat)
    requires Stream(toks) && i < |toks| && ParseExpr(toks, i) == Ok(e, j)
    requires i < j && j + 1 < |toks| && toks[j] == TOp(Comma) && ParseArgs(toks, j + 1) == Ok(rest, n)
    ensures ReadsList(toks, i, n, [e] + rest)
    decreases |toks| - i, 31, 0
  {
    hide ParseExpr, Reads, ReadsList;
    ReadExpr(toks, i);
    if rest == [] {
      NoRest(toks, j + 1);
      ReadsTrailing(toks, i, j, e);
      assert [e] + rest == [e];
    } else {
      hide ParseArgs;
      ReadList(toks, j + 1);
      ReadsMore(toks, i, j, n, e, rest);
    }
  }

  lemma NoRest(toks: seq<Token>, i: nat)
    requires Stream(toks) && i < |toks| && ParseArgs(toks, i).Ok? && ParseArgs(toks, i).value == []
    ensures toks[i] == TOp(RParen) && ParseArgs(toks, i).next == i + 1
  {
    hide ParseExpr;
  }
}
