/**
 Every tree the parser answers has the shape of its level, and the token behind it is one the
 parse could not have gone on with.
 */
module Sound {
  import opened Names
  import opened Syntax
  import opened Printer
  import opened Grammar
  import opened Shape

  /** Where strict is set, no silence operator stands from i up to n. */
  ghost predicate Quiet(toks: seq<Token>, strict: bool, i: nat, n: nat) {
    n <= |toks| && (strict ==> forall k :: i <= k < n ==> toks[k] != TOp(Silence))
  }

  lemma QuietPart(toks: seq<Token>, strict: bool, i: nat, n: nat, a: nat, b: nat)
    requires Quiet(toks, strict, i, n) && i <= a && b <= n
    ensures Quiet(toks, strict, a, b)
  {
  }

  /** A tree of a level that the token t does not continue. */
  predicate Done(e: Expr, level: int, strict: bool, t: Token) {
    Wf(e, level, strict) && !Absorbs(e, level, t)
  }

  /** A finished operand of a tighter level is one of a looser level that t does not continue either. */
  lemma Loosen(e: Expr, level: int, looser: int, strict: bool, t: Token)
    requires Done(e, level, strict, t) && looser <= level && !Continues(looser, e, t)
    requires looser <= 18 < level ==> strict ==> Rank(e) < 19 || !CastHead(e)
    ensures Done(e, looser, strict, t)
  {
    WfLooser(e, level, looser, strict);
    hide Wf, Edge, Continues;
  }

  lemma ContinuesLooser(e: Expr, level: int, looser: int, t: Token)
    requires looser <= level && !Continues(looser, e, t)
    ensures !Continues(level, e, t)
  {
  }

  // ---- primaries and postfix chains ----

  /** A postfix chain that is open at t: only the chain itself may go on with it. */
  predicate Chain(e: Expr, strict: bool, t: Token) {
    Wf(e, 21, strict) && Rank(e) == 21 && !Edge(e, t)
  }

  lemma {:induction false} SoundExpr(toks: seq<Token>, i: nat, strict: bool)
    requires Stream(toks) && i < |toks| && ParseExpr(toks, i).Ok?
    requires Quiet(toks, strict, i, ParseExpr(toks, i).next)
    ensures var r := ParseExpr(toks, i); Done(r.value, 0, strict, toks[r.next])
    decreases |toks| - i, 30
  {
    hide ParseAssign, LogicalLoop, FromIdent, FromCast;
    var r := ParseExpr(toks, i);
    var first := ParseAssign(toks, i);
    assert first.Ok?;
    var j, left := first.next, first.value;
    if WordLevel(toks[j]) < 0 {
      assert r == first;
      hide ParseExpr;
      SoundAssign(toks, i, strict);
      NotAtZero(left, toks[j], strict);
    } else {
      assert r == LogicalLoop(toks, j, left, 0);
      hide ParseExpr;
      QuietPart(toks, strict, i, r.next, i, j);
      SoundAssign(toks, i, strict);
      DropToLogical(left, 0, toks[j], strict);
      QuietPart(toks, strict, i, r.next, j, r.next);
      SoundLogical(toks, j, left, 0, strict);
    }
  }

  lemma NotAtZero(e: Expr, t: Token, strict: bool)
    requires Done(e, 3, strict, t) && WordLevel(t) < 0
    ensures Done(e, 0, strict, t)
  {
    Loosen(e, 3, 0, strict, t) by { hide Wf, Edge; }
  }

  lemma DropToLogical(e: Expr, min: nat, t: Token, strict: bool)
    requires Done(e, 3, strict, t) && min <= 3
    ensures Wf(e, min, strict) && !Absorbs(e, 3, t)
  {
    WfLooser(e, 3, min, strict);
  }

  lemma {:induction false} SoundLogical(toks: seq<Token>, i: nat, left: Expr, min: nat, strict: bool)
    requires Stream(toks) && i < |toks| && min <= 3
    requires Wf(left, min, strict) && !Absorbs(left, 3, toks[i])
    requires LogicalLoop(toks, i, left, min).Ok? && Quiet(toks, strict, i, LogicalLoop(toks, i, left, min).next)
    ensures var r := LogicalLoop(toks, i, left, min); Done(r.value, min, strict, toks[r.next])
    decreases |toks| - i, 29, 3 - min
  {
    hide ParseAssign, WordLevel, FromIdent, FromCast, Wf, Edge, Continues, Absorbs, Done;
    var r := LogicalLoop(toks, i, left, min);
    var level := WordLevel(toks[i]);
    if level < min {
      LogicalAtRest(left, min, toks[i], strict);
    } else {
      var first := ParseAssign(toks, i + 1);
      var second := if WordLevel(toks[first.next]) > level then LogicalLoop(toks, first.next, first.value, level + 1) else first;
      assert first.Ok? && second.Ok?;
      var e := Binary(Word(level), left, second.value);
      assert r == LogicalLoop(toks, second.next, e, min);
      assert first.next <= second.next && second.next <= r.next;
      hide LogicalLoop;
      QuietPart(toks, strict, i, r.next, i + 1, first.next);
      SoundAssign(toks, i + 1, strict);
      DropToLogical(first.value, level + 1, toks[first.next], strict);
      if WordLevel(toks[first.next]) > level {
        QuietPart(toks, strict, i, r.next, first.next, second.next);
        SoundLogical(toks, first.next, first.value, level + 1, strict);
      } else {
        LogicalAtRest(first.value, level + 1, toks[first.next], strict);
      }
      LogicalGrows(left, level, second.value, toks[i], toks[second.next], min, strict);
      QuietPart(toks, strict, i, r.next, second.next, r.next);
      SoundLogical(toks, second.next, e, min, strict);
    }
  }

  lemma LogicalAtRest(e: Expr, min: nat, t: Token, strict: bool)
    requires Wf(e, min, strict) && !Absorbs(e, 3, t) && min <= 3 && WordLevel(t) < min
    ensures Done(e, min, strict, t)
  {
    hide Wf, Edge;
  }

  lemma LogicalGrows(l: Expr, k: nat, r: Expr, op: Token, t: Token, min: nat, strict: bool)
    requires min <= k <= 2 && WordLevel(op) == k
    requires Wf(l, min, strict) && !Absorbs(l, 3, op)
    requires Done(r, k + 1, strict, t)
    ensures Wf(Binary(Word(k), l, r), min, strict) && !Absorbs(Binary(Word(k), l, r), 3, t)
  {
    WordNameLevel(k);
    EdgeWord(l, op, TIdent(WordName(k)));
    hide WordName;
  }

  /** A word operator is taken by its level, whatever its case. */
  lemma {:induction false} EdgeWord(e: Expr, a: Token, b: Token)
    requires WordLevel(a) == WordLevel(b) >= 0
    ensures Edge(e, a) == Edge(e, b)
    decreases e, 0
  {
    match e
    case Const(name) => NoKeyword(a); NoKeyword(b);
    case Prefix(op, x) => EdgeWordAt(x, if StepOp(op) then 21 else 18, a, b);
    case Cast(_, x) => EdgeWordAt(x, 18, a, b);
    case Binary(op, _, r) => EdgeWordAt(r, RightLevel(op), a, b);
    case Coalesce(_, r, assign) => EdgeWordAt(r, if assign then 3 else 5, a, b);
    case Ternary(_, _, f) => EdgeWordAt(f, 0, a, b);
    case Assign(_, op, v) =>
      if ReadsTarget(op, v) { EdgeWordAt(v.right, 3, a, b); } else { EdgeWordAt(v, 3, a, b); }
    case _ =>
  }

  lemma {:induction false} EdgeWordAt(e: Expr, level: int, a: Token, b: Token)
    requires WordLevel(a) == WordLevel(b) >= 0
    ensures Absorbs(e, level, a) == Absorbs(e, level, b)
    decreases e, 1
  {
    EdgeWord(e, a, b);
    hide Edge, WordLevel;
  }

  lemma NoKeyword(t: Token)
    requires WordLevel(t) >= 0
    ensures t.TIdent? && !FuncKeyword(t.name)
  {
    assert Lower(t.name)[0] != 'f';
  }

  // ---- assignments, ternaries, `??` ----

  lemma {:induction false} SoundAssign(toks: seq<Token>, i: nat, strict: bool)
    requires Stream(toks) && i < |toks| && ParseAssign(toks, i).Ok?
    requires Quiet(toks, strict, i, ParseAssign(toks, i).next)
    ensures var r := ParseAssign(toks, i); Done(r.value, 3, strict, toks[r.next])
    decreases |toks| - i, 28
  {
    hide ParseTernary, AssignTo, FromIdent, FromCast;
    var r := ParseAssign(toks, i);
    var first := ParseTernary(toks, i);
    assert first.Ok?;
    var j, left := first.next, first.value;
    if AssignOp(toks[j]) && IsLValue(left) {
      assert r == AssignTo(toks, j, left);
      hide ParseAssign;
      QuietPart(toks, strict, i, r.next, i, j);
      SoundTernary(toks, i, strict);
      TargetOf(left, 4, strict, toks[j]);
      QuietPart(toks, strict, i, r.next, j, r.next);
      SoundAssignTo(toks, j, left, strict);
    } else {
      assert r == first;
      hide ParseAssign;
      SoundTernary(toks, i, strict);
      Loosen(left, 4, 3, strict, toks[j]) by { hide Wf, Edge; }
    }
  }

  lemma TargetOf(e: Expr, level: int, strict: bool, t: Token)
    requires Done(e, level, strict, t) && IsLValue(e) && level <= 18
    ensures Wf(e, 18, strict)
  {
    WfLValue(e, level, strict);
  }

  lemma {:induction false} SoundAssignTo(toks: seq<Token>, i: nat, target: Expr, strict: bool)
    requires Stream(toks) && i < |toks| && AssignOp(toks[i]) && IsLValue(target) && Wf(target, 18, strict)
    requires AssignTo(toks, i, target).Ok? && Quiet(toks, strict, i, AssignTo(toks, i, target).next)
    ensures var r := AssignTo(toks, i, target); r.value.Assign? && Done(r.value, 3, strict, toks[r.next])
    decreases |toks| - i, 0
  {
    hide ParseAssign, FromIdent, FromCast;
    var r := AssignTo(toks, i, target);
    var v := ParseAssign(toks, i + 1);
    assert v.Ok? && r == AssignExpr(target, toks[i].op, v.value, v.next) && r.next == v.next;
    hide AssignTo;
    QuietPart(toks, strict, i, r.next, i + 1, r.next);
    SoundAssign(toks, i + 1, strict);
    AssignGrows(target, toks[i].op, v.value, v.next, strict, toks[v.next]);
  }

  lemma AssignGrows(target: Expr, op: Op, value: Expr, n: nat, strict: bool, t: Token)
    requires IsLValue(target) && Wf(target, 18, strict) && AssignOp(TOp(op)) && Done(value, 3, strict, t)
    requires AssignExpr(target, op, value, n).Ok?
    ensures var r := AssignExpr(target, op, value, n); Done(r.value, 3, strict, t)
  {
    if op == CoalEq {
      CoalesceAssigned(target, value, strict, t);
    } else {
      Assigned(target, op, value, strict, t);
    }
  }

  lemma Assigned(target: Expr, op: Op, value: Expr, strict: bool, t: Token)
    requires IsLValue(target) && Wf(target, 18, strict) && AssignOp(TOp(op)) && op != CoalEq && Done(value, 3, strict, t)
    ensures Done(Assign(target, op, value), 3, strict, t)
  {
    var e := Assign(target, op, value);
    assert !ReadsTarget(op, value) by { hide Edge; }
    assert Wf(e, 3, strict) by { hide Edge, Absorbs; }
    assert !Edge(e, t) by { hide Wf; }
    assert !Continues(3, e, t) by { hide Wf, Edge; }
    hide Wf, Edge, Continues;
  }

  lemma CoalesceAssigned(target: Expr, value: Expr, strict: bool, t: Token)
    requires IsLValue(target) && Wf(target, 18, strict) && !Unwrap(target).Append? && Done(value, 3, strict, t)
    ensures Done(Assign(target, Eq, Coalesce(target, value, true)), 3, strict, t)
  {
    var e := Assign(target, Eq, Coalesce(target, value, true));
    assert ReadsTarget(e.op, e.value);
    assert Wf(e, 3, strict) by { hide Edge, Absorbs; }
    assert !Edge(e, t) by { hide Wf; }
    assert !Continues(3, e, t) by { hide Wf, Edge; }
    hide Wf, Edge, Continues;
  }

  lemma {:induction false} SoundTernary(toks: seq<Token>, i: nat, strict: bool)
    requires Stream(toks) && i < |toks| && ParseTernary(toks, i).Ok?
    requires Quiet(toks, strict, i, ParseTernary(toks, i).next)
    ensures var r := ParseTernary(toks, i); Done(r.value, 4, strict, toks[r.next])
    decreases |toks| - i, 27
  {
    hide ParseCoalesce, ParseExpr, FromIdent, FromCast;
    var r := ParseTernary(toks, i);
    var c := ParseCoalesce(toks, i);
    assert c.Ok?;
    var j, cond := c.next, c.value;
    if OpAt(toks, j, Question) {
      hide Edge, Wf, Continues;
      QuietPart(toks, strict, i, r.next, i, j);
      SoundCoalesce(toks, i, strict);
      SoundArms(toks, i, cond, j, strict);
    } else {
      assert r == c;
      hide ParseTernary;
      SoundCoalesce(toks, i, strict);
      Loosen(cond, 5, 4, strict, toks[j]) by { hide Wf, Edge; }
    }
  }

  lemma {:induction false} SoundArms(toks: seq<Token>, i: nat, cond: Expr, j: nat, strict: bool)
    requires Stream(toks) && i < |toks| && i < j < |toks| && OpAt(toks, j, Question)
    requires ParseCoalesce(toks, i) == Ok(cond, j) && Done(cond, 5, strict, TOp(Question))
    requires ParseTernary(toks, i).Ok? && Quiet(toks, strict, i, ParseTernary(toks, i).next)
    ensures var r := ParseTernary(toks, i); Done(r.value, 4, strict, toks[r.next])
    decreases |toks| - i, 26
  {
    hide *;
    var t, k, f := ArmsCase(toks, i, cond, j);
    var n := ParseTernary(toks, i).next;
    if t == Ok(cond, j + 1) {
      Unfinished(cond, strict);
    } else {
      QuietPart(toks, strict, i, n, j + 1, k);
      SoundExpr(toks, j + 1, strict);
      DoneWf(t.value, 0, strict, toks[k]);
    }
    QuietPart(toks, strict, i, n, k + 1, n);
    SoundExpr(toks, k + 1, strict);
    TernaryGrows(cond, t.value, f, strict, toks[n]);
  }

  /** The arms of a ternary; a short one takes its condition for the first. */
  lemma ArmsCase(toks: seq<Token>, i: nat, cond: Expr, j: nat) returns (t: Parse<Expr>, k: nat, f: Expr)
    requires Stream(toks) && i < |toks| && i < j < |toks| && OpAt(toks, j, Question)
    requires ParseCoalesce(toks, i) == Ok(cond, j) && ParseTernary(toks, i).Ok?
    ensures t.Ok? && t.next == k && j < k && k + 1 < |toks| && j + 1 < |toks|
    ensures t == Ok(cond, j + 1) || t == ParseExpr(toks, j + 1)
    ensures toks[j + 1] == TOp(Colon) <==> t == Ok(cond, j + 1)
    ensures toks[k] == TOp(Colon) && ParseExpr(toks, k + 1).Ok? && ParseExpr(toks, k + 1).value == f
    ensures ParseTernary(toks, i) == Ok(Ternary(cond, t.value, f), ParseExpr(toks, k + 1).next)
    ensures ParseExpr(toks, k + 1).next < |toks|
  {
    hide ParseCoalesce, ParseExpr, FromIdent;
    t := if OpAt(toks, j + 1, Colon) then Ok(cond, j + 1) else ParseExpr(toks, j + 1);
    k := t.next;
    f := ParseExpr(toks, k + 1).value;
  }

  lemma Unfinished(e: Expr, strict: bool)
    requires Done(e, 5, strict, TOp(Question))
    ensures Wf(e, 0, strict)
  {
    hide Wf, Edge;
    WfLooser(e, 5, 0, strict);
  }

  lemma DoneWf(e: Expr, level: int, strict: bool, t: Token)
    requires Done(e, level, strict, t)
    ensures Wf(e, level, strict)
  {
    hide Wf, Edge;
  }

  lemma TernaryGrows(c: Expr, t: Expr, f: Expr, strict: bool, next: Token)
    requires Done(c, 5, strict, TOp(Question)) && Wf(t, 0, strict) && Done(f, 0, strict, next)
    ensures Done(Ternary(c, t, f), 4, strict, next)
  {
    hide Wf, Edge, Continues;
    TernaryWf(c, t, f, strict);
    TernaryClosed(c, t, f, next);
  }

  lemma TernaryWf(c: Expr, t: Expr, f: Expr, strict: bool)
    requires Wf(c, 5, strict) && !Edge(c, TOp(Question)) && Wf(t, 0, strict) && Wf(f, 0, strict)
    ensures Wf(Ternary(c, t, f), 4, strict)
  {
    hide Edge, Continues;
  }

  lemma TernaryClosed(c: Expr, t: Expr, f: Expr, next: Token)
    requires !Absorbs(f, 0, next)
    ensures !Edge(Ternary(c, t, f), next) && !Continues(4, Ternary(c, t, f), next)
  {
    hide Wf;
  }

  /** The right side of `??` at l.next, with the assignment folded onto it. */
  ghost predicate Folded(toks: seq<Token>, i: nat, l: Parse<Expr>, right: Parse<Expr>)
    requires Stream(toks) && i < |toks|
  {
    && l.Ok? && i < l.next && l.next + 1 < |toks| && OpAt(toks, l.next, Coal)
    && right.Ok? && ParseCoalesce(toks, i) == Ok(Coalesce(l.value, right.value, false), right.next)
    && var first := ParseCoalesce(toks, l.next + 1);
       first.Ok? &&
       if AssignOp(toks[first.next]) && IsLValue(first.value) then right == AssignTo(toks, first.next, first.value)
       else right == first
  }

  lemma CoalesceCase(toks: seq<Token>, i: nat) returns (l: Parse<Expr>, right: Parse<Expr>)
    requires Stream(toks) && i < |toks| && ParseCoalesce(toks, i).Ok?
    ensures l == ParseBinary(toks, i, 1) && l.Ok?
    ensures if OpAt(toks, l.next, Coal) then Folded(toks, i, l, right) else ParseCoalesce(toks, i) == l
  {
    hide ParseBinary, AssignTo, FromIdent, IsLValue;
    l := ParseBinary(toks, i, 1);
    right := l;
    if OpAt(toks, l.next, Coal) {
      right := ParseCoalesce(toks, l.next + 1);
      if AssignOp(toks[right.next]) && IsLValue(right.value) { right := AssignTo(toks, right.next, right.value); }
    }
  }

  lemma {:induction false} SoundCoalesce(toks: seq<Token>, i: nat, strict: bool)
    requires Stream(toks) && i < |toks| && ParseCoalesce(toks, i).Ok?
    requires Quiet(toks, strict, i, ParseCoalesce(toks, i).next)
    ensures var r := ParseCoalesce(toks, i); Done(r.value, 5, strict, toks[r.next])
    decreases |toks| - i, 26
  {
    hide ParseCoalesce, ParseBinary, AssignTo, Wf, Edge, Continues, IsLValue, FromIdent;
    var l, right := CoalesceCase(toks, i);
    if OpAt(toks, l.next, Coal) {
      QuietPart(toks, strict, i, right.next, i, l.next);
      SoundBinary(toks, i, 1, strict);
      SoundValue(toks, i, l, right, strict);
      CoalesceGrows(l.value, right.value, strict, toks[right.next]);
    } else {
      SoundBinary(toks, i, 1, strict);
      Loosen(l.value, 6, 5, strict, toks[l.next]) by { StillRests(l.value, toks[l.next]); }
    }
  }

  lemma StillRests(e: Expr, t: Token)
    requires !Continues(6, e, t) && t != TOp(Coal)
    ensures !Continues(5, e, t)
  {
    hide IsLValue;
  }

  lemma {:induction false} SoundValue(toks: seq<Token>, i: nat, l: Parse<Expr>, right: Parse<Expr>, strict: bool)
    requires Stream(toks) && i < |toks| && Folded(toks, i, l, right) && right.next < |toks|
    requires Quiet(toks, strict, i, right.next)
    ensures RightDone(right.value, 5, strict, toks[right.next])
    decreases |toks| - i, 25
  {
    hide ParseCoalesce, ParseBinary, AssignTo, Wf, Edge, Continues, IsLValue, AssignOp, FromIdent;
    var first := ParseCoalesce(toks, l.next + 1);
    QuietPart(toks, strict, i, right.next, l.next + 1, first.next);
    SoundCoalesce(toks, l.next + 1, strict);
    if AssignOp(toks[first.next]) && IsLValue(first.value) {
      TargetOf(first.value, 5, strict, toks[first.next]);
      QuietPart(toks, strict, i, right.next, first.next, right.next);
      SoundAssignTo(toks, first.next, first.value, strict);
    } else {
      NoAssignment(first.value, 5, strict, toks[first.next]);
    }
  }

  lemma CoalesceGrows(l: Expr, r: Expr, strict: bool, t: Token)
    requires Done(l, 6, strict, TOp(Coal)) && RightDone(r, 5, strict, t)
    ensures Done(Coalesce(l, r, false), 5, strict, t)
  {
    ContinuesLooser(r, 5, if r.Assign? then 3 else 5, t);
    var e := Coalesce(l, r, false);
    assert Wf(e, 5, strict) by { hide Edge; }
    assert !Absorbs(r, 5, t) && !(IsLValue(r) && AssignOp(t));
    assert !Edge(e, t);
    assert !Continues(5, e, t) by { hide Wf, Edge; }
  }

  // ---- binary operators ----

  lemma {:induction false} SoundBinary(toks: seq<Token>, i: nat, min: nat, strict: bool)
    requires Stream(toks) && i < |toks| && 1 <= min <= 12 && ParseBinary(toks, i, min).Ok?
    requires Quiet(toks, strict, i, ParseBinary(toks, i, min).next)
    ensures var r := ParseBinary(toks, i, min); Done(r.value, 5 + min, strict, toks[r.next])
    decreases |toks| - i, 25
  {
    hide ParseUnary, BinaryLoop, FromIdent, FromCast;
    var r := ParseBinary(toks, i, min);
    var u := ParseUnary(toks, i);
    assert u.Ok? && r == BinaryLoop(toks, u.next, u.value, min);
    hide ParseBinary;
    QuietPart(toks, strict, i, r.next, i, u.next);
    SoundUnary(toks, i, strict);
    WfLooser(u.value, 18, 5 + min, strict) by { hide Edge; }
    QuietPart(toks, strict, i, r.next, u.next, r.next);
    SoundBinaryLoop(toks, u.next, u.value, min, strict);
  }

  lemma {:induction false} SoundBinaryLoop(toks: seq<Token>, i: nat, left: Expr, min: nat, strict: bool)
    requires Stream(toks) && i < |toks| && 1 <= min <= 12
    requires Wf(left, 5 + min, strict) && !Absorbs(left, 18, toks[i])
    requires BinaryLoop(toks, i, left, min).Ok? && Quiet(toks, strict, i, BinaryLoop(toks, i, left, min).next)
    ensures var r := BinaryLoop(toks, i, left, min); Done(r.value, 5 + min, strict, toks[r.next])
    decreases |toks| - i, 24
  {
    hide BinaryRight, FromIdent, FromCast;
    var r := BinaryLoop(toks, i, left, min);
    var p := Prec(toks[i]);
    if p < min {
      assert r == Ok(left, i);
      BinaryAtRest(left, min, toks[i], strict);
    } else {
      var right := BinaryRight(toks, i + 1, p + 1);
      assert right.Ok?;
      var e := Binary(Sym(toks[i].op), left, right.value);
      assert r == BinaryLoop(toks, right.next, e, min) && right.next <= r.next;
      hide BinaryLoop;
      QuietPart(toks, strict, i, r.next, i + 1, right.next);
      SoundRight(toks, i + 1, p + 1, strict);
      BinaryGrows(left, toks[i].op, right.value, toks[right.next], min, strict);
      QuietPart(toks, strict, i, r.next, right.next, r.next);
      SoundBinaryLoop(toks, right.next, e, min, strict);
    }
  }

  lemma BinaryAtRest(e: Expr, min: nat, t: Token, strict: bool)
    requires 1 <= min <= 12 && Wf(e, 5 + min, strict) && !Absorbs(e, 18, t) && Prec(t) < min
    ensures Done(e, 5 + min, strict, t)
  {
    hide Wf, Edge;
  }

  /** A right operand at rest: an assignment, or an operand no assignment is waiting for. */
  predicate RightDone(r: Expr, level: int, strict: bool, t: Token) {
    if r.Assign? then Done(r, 3, strict, t) else Done(r, level, strict, t) && !(AssignOp(t) && IsLValue(r))
  }

  lemma BinaryGrows(l: Expr, op: Op, r: Expr, t: Token, min: nat, strict: bool)
    requires 1 <= min <= 12 && min <= Prec(TOp(op))
    requires Wf(l, 5 + min, strict) && !Absorbs(l, 18, TOp(op))
    requires RightDone(r, 6 + Prec(TOp(op)), strict, t)
    ensures Wf(Binary(Sym(op), l, r), 5 + min, strict) && !Absorbs(Binary(Sym(op), l, r), 18, t)
  {
    hide Wf, Edge, Continues;
    var level := 6 + Prec(TOp(op));
    ContinuesLooser(r, level, if r.Assign? then 3 else level, t);
    BinaryWf(l, op, r, min, strict);
    BinaryClosed(l, op, r, t);
  }

  lemma BinaryWf(l: Expr, op: Op, r: Expr, min: nat, strict: bool)
    requires 1 <= min <= 12 && min <= Prec(TOp(op)) && Wf(l, 5 + min, strict) && !Edge(l, TOp(op))
    requires Wf(r, if r.Assign? then 3 else 6 + Prec(TOp(op)), strict)
    ensures Wf(Binary(Sym(op), l, r), 5 + min, strict)
  {
    hide Edge, Continues;
  }

  lemma BinaryClosed(l: Expr, op: Op, r: Expr, t: Token)
    requires Prec(TOp(op)) > 0 && !Absorbs(r, 6 + Prec(TOp(op)), t) && !(IsLValue(r) && AssignOp(t))
    ensures !Edge(Binary(Sym(op), l, r), t) && !Continues(18, Binary(Sym(op), l, r), t)
  {
    hide Wf;
  }

  lemma {:induction false} SoundRight(toks: seq<Token>, i: nat, min: nat, strict: bool)
    requires Stream(toks) && i < |toks| && 1 <= min <= 12 && BinaryRight(toks, i, min).Ok?
    requires Quiet(toks, strict, i, BinaryRight(toks, i, min).next)
    ensures var r := BinaryRight(toks, i, min); RightDone(r.value, 5 + min, strict, toks[r.next])
    decreases |toks| - i, 26
  {
    hide ParseBinary, AssignTo, FromIdent, FromCast;
    var r := BinaryRight(toks, i, min);
    var b := ParseBinary(toks, i, min);
    assert b.Ok?;
    var j := b.next;
    if AssignOp(toks[j]) && IsLValue(b.value) {
      assert r == AssignTo(toks, j, b.value);
      hide BinaryRight;
      QuietPart(toks, strict, i, r.next, i, j);
      SoundBinary(toks, i, min, strict);
      TargetOf(b.value, 5 + min, strict, toks[j]);
      QuietPart(toks, strict, i, r.next, j, r.next);
      SoundAssignTo(toks, j, b.value, strict);
    } else {
      assert r == b;
      hide BinaryRight;
      SoundBinary(toks, i, min, strict);
      NoAssignment(b.value, 5 + min, strict, toks[j]);
    }
  }

  lemma NoAssignment(e: Expr, level: int, strict: bool, t: Token)
    requires 3 < level && Done(e, level, strict, t)
    ensures !e.Assign?
  {
    hide Edge;
  }

  // ---- prefix operators, instanceof, powers ----

  lemma {:induction false} SoundUnary(toks: seq<Token>, i: nat, strict: bool)
    requires Stream(toks) && i < |toks| && ParseUnary(toks, i).Ok?
    requires Quiet(toks, strict, i, ParseUnary(toks, i).next)
    ensures var r := ParseUnary(toks, i); Done(r.value, 18, strict, toks[r.next])
    decreases |toks| - i, 23
  {
    hide ParseInstanceOf, ParsePostfix, FromIdent, FromCast;
    var r := ParseUnary(toks, i);
    var t := toks[i];
    if CastAt(toks, i) {
      var x := ParseUnary(toks, i + 3);
      assert x.Ok? && r == Ok(Cast(toks[i + 1].name, x.value), x.next);
      hide ParseUnary;
      QuietPart(toks, strict, i, r.next, i + 3, r.next);
      SoundUnary(toks, i + 3, strict);
      CastGrows(toks[i + 1].name, x.value, strict, toks[r.next]);
    } else if t.TOp? && StepOp(t.op) {
      var x := ParsePostfix(toks, i + 1);
      assert x.Ok? && IsLValue(x.value) && r == Ok(Prefix(t.op, x.value), x.next);
      hide ParseUnary;
      QuietPart(toks, strict, i, r.next, i + 1, r.next);
      SoundPostfix(toks, i + 1, strict);
      PrefixGrows(t.op, x.value, strict, toks[r.next]);
    } else if t.TOp? && PrefixOp(t.op) {
      var x := ParseUnary(toks, i + 1);
      assert x.Ok? && r == Ok(Prefix(t.op, x.value), x.next);
      hide ParseUnary;
      QuietPart(toks, strict, i, r.next, i + 1, r.next);
      SoundUnary(toks, i + 1, strict);
      PrefixGrows(t.op, x.value, strict, toks[r.next]);
    } else if OpAt(toks, i, Silence) {
      assert r == ParseUnary(toks, i + 1);
      hide ParseUnary;
      QuietPart(toks, strict, i, r.next, i + 1, r.next);
      SoundUnary(toks, i + 1, strict);
    } else {
      assert r == ParseInstanceOf(toks, i);
      hide ParseUnary;
      SoundInstanceOf(toks, i, strict);
      UnaryOperand(toks, i, r, strict);
    }
  }

  /** Where no cast stands in front, the operand is none in disguise. */
  lemma UnaryOperand(toks: seq<Token>, i: nat, r: Parse<Expr>, strict: bool)
    requires Stream(toks) && i < |toks| && r.Ok? && r.next < |toks| && FromCast(toks, i, r)
    requires !CastAt(toks, i) && Quiet(toks, strict, i, r.next) && Done(r.value, 19, strict, toks[r.next])
    ensures Done(r.value, 18, strict, toks[r.next])
  {
    hide Wf, Edge, CastHead, CastAt;
    assert strict && i + 1 < r.next ==> !OpAt(toks, i + 1, Silence);
    Loosen(r.value, 19, 18, strict, toks[r.next]);
  }

  lemma CastGrows(typ: string, x: Expr, strict: bool, t: Token)
    requires CastType(typ) && Done(x, 18, strict, t)
    ensures Done(Cast(typ, x), 18, strict, t)
  {
  }

  // No token goes on behind a finished prefix operator or power at its own level.
  lemma EndsItself(e: Expr, level: int, t: Token)
    requires Rank(e) == level && (level == 18 || level == 20)
    ensures !Continues(level, e, t)
  {
  }

  lemma PrefixGrows(op: Op, x: Expr, strict: bool, t: Token)
    requires if StepOp(op) then IsLValue(x) && Done(x, 21, strict, t) else PrefixOp(op) && Done(x, 18, strict, t)
    ensures Done(Prefix(op, x), 18, strict, t)
  {
    hide Continues, CastHead;
    EndsItself(Prefix(op, x), 18, t);
    assert Wf(Prefix(op, x), 18, strict) && !Edge(Prefix(op, x), t);
  }

  lemma {:induction false} SoundInstanceOf(toks: seq<Token>, i: nat, strict: bool)
    requires Stream(toks) && i < |toks| && ParseInstanceOf(toks, i).Ok?
    requires Quiet(toks, strict, i, ParseInstanceOf(toks, i).next)
    ensures var r := ParseInstanceOf(toks, i); Done(r.value, 19, strict, toks[r.next])
    decreases |toks| - i, 22
  {
    hide ParsePow, InstanceOfLoop, FromIdent, FromCast;
    var r := ParseInstanceOf(toks, i);
    var p := ParsePow(toks, i);
    assert p.Ok? && r == InstanceOfLoop(toks, p.next, p.value);
    hide ParseInstanceOf;
    QuietPart(toks, strict, i, r.next, i, p.next);
    SoundPow(toks, i, strict);
    WfLooser(p.value, 20, 19, strict) by { hide Edge; }
    QuietPart(toks, strict, i, r.next, p.next, r.next);
    SoundInstanceOfLoop(toks, p.next, p.value, strict);
  }

  lemma {:induction false} SoundInstanceOfLoop(toks: seq<Token>, i: nat, left: Expr, strict: bool)
    requires Stream(toks) && i < |toks| && Wf(left, 19, strict) && !Absorbs(left, 20, toks[i])
    requires InstanceOfLoop(toks, i, left).Ok? && Quiet(toks, strict, i, InstanceOfLoop(toks, i, left).next)
    ensures var r := InstanceOfLoop(toks, i, left); Done(r.value, 19, strict, toks[r.next])
    decreases |toks| - i, 21
  {
    hide ParsePow, FromIdent, FromCast;
    var r := InstanceOfLoop(toks, i, left);
    if InstanceOfKw(toks[i]) {
      var right := ParsePow(toks, i + 1);
      assert right.Ok?;
      var e := Binary(InstanceOf, left, right.value);
      assert r == InstanceOfLoop(toks, right.next, e) && right.next <= r.next;
      hide InstanceOfLoop;
      QuietPart(toks, strict, i, r.next, i + 1, right.next);
      SoundPow(toks, i + 1, strict);
      InstanceOfGrows(left, right.value, strict, toks[right.next]);
      QuietPart(toks, strict, i, r.next, right.next, r.next);
      SoundInstanceOfLoop(toks, right.next, e, strict);
    } else {
      assert r == Ok(left, i);
      hide Wf, Edge, InstanceOfLoop;
    }
  }

  lemma InstanceOfGrows(l: Expr, r: Expr, strict: bool, t: Token)
    requires Wf(l, 19, strict) && !Absorbs(l, 20, BinToken(InstanceOf)) && Done(r, 20, strict, t)
    ensures Wf(Binary(InstanceOf, l, r), 19, strict) && !Absorbs(Binary(InstanceOf, l, r), 20, t)
  {
  }

  lemma {:induction false} SoundPow(toks: seq<Token>, i: nat, strict: bool)
    requires Stream(toks) && i < |toks| && ParsePow(toks, i).Ok?
    requires Quiet(toks, strict, i, ParsePow(toks, i).next)
    ensures var r := ParsePow(toks, i); Done(r.value, 20, strict, toks[r.next])
    decreases |toks| - i, 20
  {
    hide ParsePostfix, ParseUnary, FromIdent, FromCast;
    var r := ParsePow(toks, i);
    var b := ParsePostfix(toks, i);
    assert b.Ok?;
    if OpAt(toks, b.next, StarStar) {
      var x := ParseUnary(toks, b.next + 1);
      assert x.Ok? && r == Ok(Binary(Sym(StarStar), b.value, x.value), x.next);
      hide ParsePow;
      QuietPart(toks, strict, i, r.next, i, b.next);
      SoundPostfix(toks, i, strict);
      QuietPart(toks, strict, i, r.next, b.next + 1, r.next);
      SoundUnary(toks, b.next + 1, strict);
      PowGrows(b.value, x.value, strict, toks[r.next]);
    } else {
      assert r == b;
      hide ParsePow;
      SoundPostfix(toks, i, strict);
      Loosen(b.value, 21, 20, strict, toks[r.next]) by { hide Wf, Edge; }
    }
  }

  lemma PowGrows(b: Expr, x: Expr, strict: bool, t: Token)
    requires Done(b, 21, strict, TOp(StarStar)) && Done(x, 18, strict, t)
    ensures Done(Binary(Sym(StarStar), b, x), 20, strict, t)
  {
    hide Continues, CastHead;
    EndsItself(Binary(Sym(StarStar), b, x), 20, t);
    assert Wf(Binary(Sym(StarStar), b, x), 20, strict) && !Edge(Binary(Sym(StarStar), b, x), t);
  }

  lemma {:induction false} SoundPostfix(toks: seq<Token>, i: nat, strict: bool)
    requires Stream(toks) && i < |toks| && ParsePostfix(toks, i).Ok?
    requires Quiet(toks, strict, i, ParsePostfix(toks, i).next)
    ensures var r := ParsePostfix(toks, i); Done(r.value, 21, strict, toks[r.next])
    decreases |toks| - i, 19
  {
    hide ParsePrimary, PostfixLoop, FromIdent, FromCast;
    var r := ParsePostfix(toks, i);
    var p := ParsePrimary(toks, i);
    assert p.Ok? && r == PostfixLoop(toks, p.next, p.value);
    hide ParsePostfix;
    QuietPart(toks, strict, i, r.next, i, p.next);
    SoundPrimary(toks, i, strict);
    QuietPart(toks, strict, i, r.next, p.next, r.next);
    SoundPostfixLoop(toks, p.next, p.value, strict);
  }

  lemma {:induction false} SoundPostfixLoop(toks: seq<Token>, i: nat, left: Expr, strict: bool)
    requires Stream(toks) && i < |toks| && Chain(left, strict, toks[i])
    requires PostfixLoop(toks, i, left).Ok? && Quiet(toks, strict, i, PostfixLoop(toks, i, left).next)
    ensures var r := PostfixLoop(toks, i, left); Done(r.value, 21, strict, toks[r.next])
    decreases |toks| - i, 18
  {
    hide PostfixStep, FromIdent, FromCast;
    var r := PostfixLoop(toks, i, left);
    var step := PostfixStep(toks, i, left);
    assert step.Ok?;
    if step.next == i {
      assert r == Ok(left, i) && step == r;
      hide PostfixLoop;
      StepDone(toks, i, left, strict);
    } else {
      assert r == PostfixLoop(toks, step.next, step.value) && step.next <= r.next;
      hide PostfixLoop;
      QuietPart(toks, strict, i, r.next, i, step.next);
      SoundStep(toks, i, left, strict);
      QuietPart(toks, strict, i, r.next, step.next, r.next);
      SoundPostfixLoop(toks, step.next, step.value, strict);
    }
  }

  lemma StepDone(toks: seq<Token>, i: nat, left: Expr, strict: bool)
    requires Stream(toks) && i < |toks| && Chain(left, strict, toks[i]) && PostfixStep(toks, i, left) == Ok(left, i)
    ensures Done(left, 21, strict, toks[i])
  {
    hide Wf, Edge;
  }

  /** One step of a chain keeps it a chain. */
  lemma {:induction false} SoundStep(toks: seq<Token>, i: nat, left: Expr, strict: bool)
    requires Stream(toks) && i < |toks| && Chain(left, strict, toks[i])
    requires PostfixStep(toks, i, left).Ok? && i < PostfixStep(toks, i, left).next
    requires Quiet(toks, strict, i, PostfixStep(toks, i, left).next)
    ensures var r := PostfixStep(toks, i, left); Chain(r.value, strict, toks[r.next])
    decreases |toks| - i, 17
  {
    hide ParseMember, ParseCallArgs, ParseExpr, FromIdent, FromCast;
    var r := PostfixStep(toks, i, left);
    if OpAt(toks, i, Arrow) {
      var m := ParseMember(toks, i + 1);
      assert m.Ok?;
      if OpAt(toks, m.next, LParen) {
        var a := ParseCallArgs(toks, m.next);
        assert a.Ok? && r == Ok(Method(left, m.value, a.value), a.next);
        hide PostfixStep;
        QuietPart(toks, strict, i, r.next, i + 1, m.next);
        SoundMember(toks, i + 1, strict);
        QuietPart(toks, strict, i, r.next, m.next, r.next);
        SoundCallArgs(toks, m.next, strict);
        MethodGrows(left, m.value, a.value, strict, toks[r.next]);
      } else {
        assert r == Ok(Prop(left, m.value), m.next);
        hide PostfixStep;
        QuietPart(toks, strict, i, r.next, i + 1, m.next);
        SoundMember(toks, i + 1, strict);
        PropGrows(left, m.value, strict, toks[r.next]);
      }
    } else if OpAt(toks, i, LBracket) {
      if OpAt(toks, i + 1, RBracket) {
        assert r == Ok(Append(left), i + 2);
        AppendGrows(left, strict, toks[r.next]);
      } else {
        var key := ParseExpr(toks, i + 1);
        assert key.Ok? && r == Ok(Index(left, key.value), key.next + 1);
        hide PostfixStep;
        QuietPart(toks, strict, i, r.next, i + 1, key.next);
        SoundExpr(toks, i + 1, strict);
        IndexGrows(left, key.value, strict, toks[r.next]);
      }
    } else if OpAt(toks, i, LParen) {
      var a := ParseCallArgs(toks, i);
      assert a.Ok? && r == Ok(Invoke(left, a.value), a.next);
      hide PostfixStep;
      SoundCallArgs(toks, i, strict);
      InvokeGrows(left, a.value, strict, toks[r.next]);
    } else {
      assert StepOp(toks[i].op) && IsLValue(left) && r == Ok(Postfix(toks[i].op, left), i + 1);
      StepGrows(left, toks[i].op, strict, toks[r.next]);
    }
  }

  predicate MemberWf(m: Member, strict: bool) {
    m.Dynamic? ==> Wf(m.x, 0, strict)
  }

  predicate ArgsWf(a: Args, strict: bool) {
    a.Args? ==> AllWf(a.es, strict)
  }

  predicate AllWf(es: seq<Expr>, strict: bool) {
    forall k :: 0 <= k < |es| ==> Wf(es[k], 0, strict)
  }

  lemma MethodGrows(l: Expr, m: Member, a: Args, strict: bool, t: Token)
    requires Chain(l, strict, TOp(Arrow)) && MemberWf(m, strict) && ArgsWf(a, strict)
    ensures Chain(Method(l, m, a), strict, t)
  {
  }

  lemma PropGrows(l: Expr, m: Member, strict: bool, t: Token)
    requires Chain(l, strict, TOp(Arrow)) && MemberWf(m, strict) && t != TOp(LParen)
    ensures Chain(Prop(l, m), strict, t)
  {
  }

  lemma AppendGrows(l: Expr, strict: bool, t: Token)
    requires Chain(l, strict, TOp(LBracket))
    ensures Chain(Append(l), strict, t)
  {
  }

  lemma IndexGrows(l: Expr, key: Expr, strict: bool, t: Token)
    requires Chain(l, strict, TOp(LBracket)) && Wf(key, 0, strict)
    ensures Chain(Index(l, key), strict, t)
  {
  }

  lemma InvokeGrows(l: Expr, a: Args, strict: bool, t: Token)
    requires Chain(l, strict, TOp(LParen)) && ArgsWf(a, strict)
    ensures Chain(Invoke(l, a), strict, t)
  {
  }

  lemma StepGrows(l: Expr, op: Op, strict: bool, t: Token)
    requires StepOp(op) && IsLValue(l) && Chain(l, strict, TOp(op))
    ensures Chain(Postfix(op, l), strict, t)
  {
  }

  lemma {:induction false} SoundMember(toks: seq<Token>, i: nat, strict: bool)
    requires Stream(toks) && i < |toks| && ParseMember(toks, i).Ok?
    requires Quiet(toks, strict, i, ParseMember(toks, i).next)
    ensures MemberWf(ParseMember(toks, i).value, strict)
    decreases |toks| - i, 31
  {
    hide ParseExpr, FromIdent, FromCast;
    var r := ParseMember(toks, i);
    if OpAt(toks, i, LBrace) {
      var x := ParseExpr(toks, i + 1);
      assert x.Ok? && r == Ok(Dynamic(x.value), x.next + 1);
      hide ParseMember;
      QuietPart(toks, strict, i, r.next, i + 1, x.next);
      SoundExpr(toks, i + 1, strict);
    }
  }

  lemma {:induction false} SoundPrimary(toks: seq<Token>, i: nat, strict: bool)
    requires Stream(toks) && i < |toks| && ParsePrimary(toks, i).Ok?
    requires Quiet(toks, strict, i, ParsePrimary(toks, i).next)
    ensures var r := ParsePrimary(toks, i); Chain(r.value, strict, toks[r.next])
    decreases |toks| - i, 16
  {
    hide ParseExpr, ParseIdent, FromIdent, FromCast;
    var r := ParsePrimary(toks, i);
    if OpAt(toks, i, LParen) {
      var x := ParseExpr(toks, i + 1);
      assert x.Ok? && r == Ok(Paren(x.value), x.next + 1);
      hide ParsePrimary;
      QuietPart(toks, strict, i, r.next, i + 1, x.next);
      SoundExpr(toks, i + 1, strict);
    } else if toks[i].TIdent? {
      assert r == ParseIdent(toks, i);
      hide ParsePrimary;
      SoundIdent(toks, i, strict);
    } else {
    }
  }

  lemma {:induction false} SoundIdent(toks: seq<Token>, i: nat, strict: bool)
    requires Stream(toks) && i < |toks| && toks[i].TIdent? && ParseIdent(toks, i).Ok?
    requires Quiet(toks, strict, i, ParseIdent(toks, i).next)
    ensures var r := ParseIdent(toks, i); Chain(r.value, strict, toks[r.next])
    decreases |toks| - i, 15
  {
    hide ParseCallArgs, FromIdent, FromCast;
    var r := ParseIdent(toks, i);
    if r.value.Call? {
      var a := ParseCallArgs(toks, i + 1);
      assert a.Ok? && r == Ok(Call(toks[i].name, a.value), a.next);
      hide ParseIdent;
      QuietPart(toks, strict, i, r.next, i + 1, r.next);
      SoundCallArgs(toks, i + 1, strict);
    }
  }

  lemma {:induction false} SoundCallArgs(toks: seq<Token>, i: nat, strict: bool)
    requires Stream(toks) && i < |toks| && OpAt(toks, i, LParen) && ParseCallArgs(toks, i).Ok?
    requires Quiet(toks, strict, i, ParseCallArgs(toks, i).next)
    ensures ArgsWf(ParseCallArgs(toks, i).value, strict)
    decreases |toks| - i, 14
  {
    hide ParseArgs, FromIdent, FromCast;
    var r := ParseCallArgs(toks, i);
    if !MarkerAt(toks, i) {
      var es := ParseArgs(toks, i + 1);
      assert es.Ok? && r == Ok(Args(es.value), es.next);
      hide ParseCallArgs;
      QuietPart(toks, strict, i, r.next, i + 1, r.next);
      SoundArgs(toks, i + 1, strict);
    }
  }

  lemma {:induction false} SoundArgs(toks: seq<Token>, i: nat, strict: bool)
    requires Stream(toks) && i < |toks| && ParseArgs(toks, i).Ok?
    requires Quiet(toks, strict, i, ParseArgs(toks, i).next)
    ensures AllWf(ParseArgs(toks, i).value, strict)
    decreases |toks| - i, 31
  {
    if !OpAt(toks, i, RParen) {
      ArgsCase(toks, i);
      var e, r := ParseExpr(toks, i), ParseArgs(toks, i);
      if OpAt(toks, e.next, Comma) {
        var rest := ParseArgs(toks, e.next + 1);
        SoundArgsMore(toks, i, e.value, e.next, rest.value, rest.next, strict);
      } else {
        hide *;
        QuietPart(toks, strict, i, r.next, i, e.next);
        SoundExpr(toks, i, strict);
        AllWfCons(e.value, [], strict, toks[e.next]);
      }
    }
  }

  lemma {:induction false} SoundArgsMore(toks: seq<Token>, i: nat, e: Expr, j: nat, rest: seq<Expr>, n: nat, strict: bool)
    requires Stream(toks) && i < |toks| && ParseExpr(toks, i) == Ok(e, j)
    requires i < j && j + 1 < |toks| && ParseArgs(toks, j + 1) == Ok(rest, n) && j + 1 < n && Quiet(toks, strict, i, n)
    ensures AllWf([e] + rest, strict)
    decreases |toks| - i, 31, 0
  {
    hide *;
    QuietPart(toks, strict, i, n, i, j);
    SoundExpr(toks, i, strict);
    QuietPart(toks, strict, i, n, j + 1, n);
    SoundArgs(toks, j + 1, strict);
    AllWfCons(e, rest, strict, toks[j]);
  }

  /** A list of arguments is one, or one and a comma and the rest. */
  lemma ArgsCase(toks: seq<Token>, i: nat)
    requires Stream(toks) && i < |toks| && !OpAt(toks, i, RParen) && ParseArgs(toks, i).Ok?
    ensures ParseExpr(toks, i).Ok? && i < ParseExpr(toks, i).next
    ensures
      var r, e := ParseArgs(toks, i), ParseExpr(toks, i);
      if OpAt(toks, e.next, Comma) then
        && e.next + 1 < |toks| && ParseArgs(toks, e.next + 1).Ok?
        && r == Ok([e.value] + ParseArgs(toks, e.next + 1).value, ParseArgs(toks, e.next + 1).next)
      else OpAt(toks, e.next, RParen) && r == Ok([e.value], e.next + 1)
  {
    hide ParseExpr;
  }

  lemma AllWfCons(e: Expr, es: seq<Expr>, strict: bool, t: Token)
    requires Done(e, 0, strict, t)
    ensures AllWf(es, strict) ==> AllWf([e] + es, strict)
    ensures AllWf([e], strict)
  {
    hide Wf, Edge, Continues;
  }
}
