/** The braces of printed members: none around a name alone, and none in front of an argument list. */
module Braces {
  import opened Syntax
  import opened Printer
  import opened Grammar
  import opened Shape
  import opened Verbatim

  ghost predicate OpenBefore(s: seq<Token>, m: nat) {
    exists k :: 0 <= k < m && k < |s| && s[k] == TOp(LBrace)
  }

  ghost predicate CloseAfter(s: seq<Token>, k: nat) {
    exists m :: k < m < |s| && s[m] == TOp(RBrace)
  }

  ghost predicate Opened(s: seq<Token>) {
    forall m :: 0 <= m < |s| && s[m] == TOp(RBrace) ==> OpenBefore(s, m)
  }

  ghost predicate Closed(s: seq<Token>) {
    forall k :: 0 <= k < |s| && s[k] == TOp(LBrace) ==> CloseAfter(s, k)
  }

  ghost predicate NoNames(s: seq<Token>) {
    forall k, m :: 0 <= k < m < |s| ==> !NameBraces(s, k, m)
  }

  predicate NoCalls(s: seq<Token>) {
    forall k :: 0 <= k < |s| - 1 ==> !(s[k] == TOp(RBrace) && s[k + 1] == TOp(LParen))
  }

  /** Every brace has its other half, no pair holds a name alone, and no closing one stands in front of a parenthesis. */
  ghost predicate Snug(s: seq<Token>) {
    s != [] && Opened(s) && Closed(s) && NoNames(s) && NoCalls(s)
  }

  lemma {:induction false} NoBraceWrapped(s: seq<Token>, k: nat)
    requires WrapsName(s) && k < |s|
    ensures s[k] != TOp(LBrace) && s[k] != TOp(RBrace)
    decreases |s|
  {
    if 0 < k < |s| - 1 { NoBraceWrapped(s[1..|s| - 1], k - 1); }
  }

  lemma HoldsBrace(s: seq<Token>, k: nat)
    requires k < |s| && (s[k] == TOp(LBrace) || s[k] == TOp(RBrace))
    ensures !WrapsName(s)
  {
    hide WrapsName;
    if WrapsName(s) { NoBraceWrapped(s, k); }
  }

  lemma Cat(a: seq<Token>, b: seq<Token>)
    requires Snug(a) && Snug(b) && !(a[|a| - 1] == TOp(RBrace) && b[0] == TOp(LParen))
    ensures Snug(a + b)
  {
    hide Opened, Closed, NoNames, NoCalls, NameBraces;
    CatOpened(a, b);
    CatClosed(a, b);
    CatCalls(a, b);
    CatNames(a, b);
  }

  lemma CatOpened(a: seq<Token>, b: seq<Token>)
    requires Opened(a) && Opened(b)
    ensures Opened(a + b)
  {
    var s, n := a + b, |a|;
    forall m | 0 <= m < |s| && s[m] == TOp(RBrace) ensures OpenBefore(s, m) {
      if m < n {
        var k :| 0 <= k < m && k < |a| && a[k] == TOp(LBrace);
        assert s[k] == TOp(LBrace);
      } else {
        assert b[m - n] == TOp(RBrace);
        var k :| 0 <= k < m - n && k < |b| && b[k] == TOp(LBrace);
        assert s[n + k] == TOp(LBrace);
      }
    }
  }

  lemma CatClosed(a: seq<Token>, b: seq<Token>)
    requires Closed(a) && Closed(b)
    ensures Closed(a + b)
  {
    var s, n := a + b, |a|;
    forall k | 0 <= k < |s| && s[k] == TOp(LBrace) ensures CloseAfter(s, k) {
      if k < n {
        var m :| k < m < |a| && a[m] == TOp(RBrace);
        assert s[m] == TOp(RBrace);
      } else {
        assert b[k - n] == TOp(LBrace);
        var m :| k - n < m < |b| && b[m] == TOp(RBrace);
        assert s[n + m] == TOp(RBrace);
      }
    }
  }

  lemma CatCalls(a: seq<Token>, b: seq<Token>)
    requires NoCalls(a) && NoCalls(b) && a != [] && b != [] && !(a[|a| - 1] == TOp(RBrace) && b[0] == TOp(LParen))
    ensures NoCalls(a + b)
  {
  }

  lemma CatNames(a: seq<Token>, b: seq<Token>)
    requires Opened(b) && NoNames(a) && NoNames(b)
    ensures NoNames(a + b)
  {
    hide NameBraces, Opened;
    forall k, m | 0 <= k < m < |a + b| ensures !NameBraces(a + b, k, m) { NoneAcross(a, b, k, m); }
  }

  lemma SliceFront(a: seq<Token>, b: seq<Token>, k: nat, m: nat)
    requires k <= m <= |a|
    ensures (a + b)[k..m] == a[k..m]
  {
  }

  lemma SliceBack(a: seq<Token>, b: seq<Token>, k: nat, m: nat)
    requires |a| <= k <= m <= |a| + |b|
    ensures (a + b)[k..m] == b[k - |a|..m - |a|]
  {
  }

  lemma NoneAcross(a: seq<Token>, b: seq<Token>, k: nat, m: nat)
    requires Opened(b) && NoNames(a) && NoNames(b) && k < m < |a + b|
    ensures !NameBraces(a + b, k, m)
  {
    hide WrapsName;
    var s, n := a + b, |a|;
    if m < n {
      SliceFront(a, b, k + 1, m);
      assert !NameBraces(a, k, m);
    } else if k >= n {
      SliceBack(a, b, k + 1, m);
      assert !NameBraces(b, k - n, m - n);
    } else if s[m] == TOp(RBrace) {
      assert b[m - n] == TOp(RBrace);
      var j :| 0 <= j < m - n && j < |b| && b[j] == TOp(LBrace);
      assert s[k + 1..m][n + j - (k + 1)] == b[j];
      HoldsBrace(s[k + 1..m], n + j - (k + 1));
    }
  }

  lemma One(t: Token)
    requires t != TOp(LBrace) && t != TOp(RBrace)
    ensures Snug([t])
  {
  }

  /** A token between two parts. */
  lemma Between(a: seq<Token>, t: Token, b: seq<Token>)
    requires Snug(a) && Snug(b) && t != TOp(LBrace) && t != TOp(RBrace) && t != TOp(LParen)
    ensures Snug(a + [t] + b)
  {
    hide Snug;
    Ends(a, t, b);
    Cat(a, [t]);
    Cat(a + [t], b);
  }

  lemma Ends(a: seq<Token>, t: Token, b: seq<Token>)
    requires Snug(a) && Snug(b) && t != TOp(LBrace) && t != TOp(RBrace)
    ensures a != [] && b != [] && Snug([t]) && (a + [t])[|a + [t]| - 1] == t && ([t] + b)[|[t] + b| - 1] == b[|b| - 1]
  {
    One(t);
  }

  lemma Behind(a: seq<Token>, t: Token)
    requires Snug(a) && t != TOp(LBrace) && t != TOp(RBrace) && t != TOp(LParen)
    ensures Snug(a + [t])
  {
    One(t);
    Cat(a, [t]);
  }

  lemma Front(t: Token, b: seq<Token>)
    requires Snug(b) && t != TOp(LBrace) && t != TOp(RBrace)
    ensures Snug([t] + b)
  {
    One(t);
    Cat([t], b);
  }

  /** Braces around anything but a name. */
  lemma Enclosed(p: seq<Token>)
    requires Snug(p) && !WrapsName(p)
    ensures Snug([TOp(LBrace)] + p + [TOp(RBrace)])
  {
    var s := [TOp(LBrace)] + p + [TOp(RBrace)];
    hide Opened, Closed, NoNames, NoCalls, NameBraces, WrapsName;
    EnclosedOpened(p, s);
    EnclosedCalls(p, s);
    EnclosedNames(p, s);
  }

  lemma EnclosedOpened(p: seq<Token>, s: seq<Token>)
    requires s == [TOp(LBrace)] + p + [TOp(RBrace)]
    ensures Opened(s) && Closed(s)
  {
    assert s[0] == TOp(LBrace) && s[|s| - 1] == TOp(RBrace);
  }

  lemma EnclosedCalls(p: seq<Token>, s: seq<Token>)
    requires NoCalls(p) && s == [TOp(LBrace)] + p + [TOp(RBrace)]
    ensures NoCalls(s)
  {
    assert forall k :: 0 < k < |s| - 1 ==> s[k] == p[k - 1];
  }

  lemma EnclosedNames(p: seq<Token>, s: seq<Token>)
    requires Opened(p) && Closed(p) && NoNames(p) && !WrapsName(p) && s == [TOp(LBrace)] + p + [TOp(RBrace)]
    ensures NoNames(s)
  {
    hide Opened, Closed, NameBraces, WrapsName;
    forall k, m | 0 <= k < m < |s| ensures !NameBraces(s, k, m) { NoneInside(p, s, k, m); }
  }

  lemma NoneInside(p: seq<Token>, s: seq<Token>, k: nat, m: nat)
    requires Opened(p) && Closed(p) && NoNames(p) && !WrapsName(p) && s == [TOp(LBrace)] + p + [TOp(RBrace)] && k < m < |s|
    ensures !NameBraces(s, k, m)
  {
    hide WrapsName;
    if k == 0 && m == |s| - 1 {
      assert s[1..m] == p;
    } else if k > 0 && m < |s| - 1 {
      assert s[k + 1..m] == p[k..m - 1] && !NameBraces(p, k - 1, m - 1);
    } else if k == 0 {
      NoneToEnd(p, s, m);
    } else {
      NoneFromEnd(p, s, k);
    }
  }

  lemma NoneToEnd(p: seq<Token>, s: seq<Token>, m: nat)
    requires Opened(p) && s == [TOp(LBrace)] + p + [TOp(RBrace)] && 0 < m < |s| - 1
    ensures !NameBraces(s, 0, m)
  {
    hide WrapsName;
    if p[m - 1] == TOp(RBrace) {
      var j :| 0 <= j < m - 1 && j < |p| && p[j] == TOp(LBrace);
      assert s[1..m][j] == p[j];
      HoldsBrace(s[1..m], j);
    }
  }

  lemma NoneFromEnd(p: seq<Token>, s: seq<Token>, k: nat)
    requires Closed(p) && s == [TOp(LBrace)] + p + [TOp(RBrace)] && 0 < k < |s| - 1
    ensures !NameBraces(s, k, |s| - 1)
  {
    hide WrapsName;
    if p[k - 1] == TOp(LBrace) {
      var j :| k - 1 < j < |p| && p[j] == TOp(RBrace);
      assert s[k + 1..|s| - 1][j - k] == p[j];
      HoldsBrace(s[k + 1..|s| - 1], j - k);
    }
  }

  // ---- a printed expression that is a name alone ----

  /** A wrapped name is a run of opening parentheses, the name and as many closing ones. */
  lemma {:induction false} WrapShape(s: seq<Token>) returns (a: nat)
    requires WrapsName(s)
    ensures |s| == 2 * a + 1 && (s[a].TVar? || s[a].TIdent?)
    ensures forall j :: 0 <= j < a ==> s[j] == TOp(LParen)
    ensures forall j :: a < j < |s| ==> s[j] == TOp(RParen)
    decreases |s|
  {
    if |s| == 1 {
      a := 0;
    } else {
      var t := s[1..|s| - 1];
      var b := WrapShape(t);
      a := b + 1;
      assert s[a] == t[b];
      assert forall j :: 0 < j < |s| - 1 ==> s[j] == t[j - 1];
    }
  }

  lemma OpInside(s: seq<Token>, k: nat)
    requires k < |s| && s[k].TOp? && s[k] != TOp(LParen) && s[k] != TOp(RParen)
    ensures !WrapsName(s)
  {
    if WrapsName(s) { var a := WrapShape(s); }
  }

  // A parenthesis or a name behind anything but an opening parenthesis.
  lemma StartInside(s: seq<Token>, k: nat)
    requires k < |s| && |s| > 1 && (s[k] == TOp(LParen) || s[k].TIdent?)
    requires if k == 0 then s[k].TIdent? else s[k - 1] != TOp(LParen)
    ensures !WrapsName(s)
  {
    if WrapsName(s) { var a := WrapShape(s); }
  }

  lemma CastInside(s: seq<Token>)
    requires |s| > 3 && s[1].TIdent?
    ensures !WrapsName(s)
  {
    if WrapsName(s) { var a := WrapShape(s); }
  }

  lemma LastOf(a: seq<Token>, b: seq<Token>)
    requires b != []
    ensures (a + b)[|a + b| - 1] == b[|b| - 1]
  {
  }

  predicate OpenEnded(e: Expr) {
    e.Prefix? || e.Cast? || e.Binary? || e.Coalesce? || e.Ternary? || e.Assign?
  }

  // The operand an expression ends in, and the tokens in front of it.
  lemma LastOperand(e: Expr, level: int) returns (front: seq<Token>, x: Expr, inner: int)
    requires Wf(e, level, false) && OpenEnded(e)
    ensures x < e && Wf(x, inner, false) && Print(e) == front + Print(x)
  {
    hide Wf, Print;
    if e.Binary? {
      front, x, inner := LastOfBinary(e, level);
    } else if e.Prefix? || e.Cast? {
      front, x, inner := LastOfPrefix(e, level);
    } else {
      front, x, inner := LastOfInfix(e, level);
    }
  }

  lemma LastOfBinary(e: Expr, level: int) returns (front: seq<Token>, x: Expr, inner: int)
    requires Wf(e, level, false) && e.Binary?
    ensures x < e && Wf(x, inner, false) && Print(e) == front + Print(x)
  {
    hide Edge, CastHead, IsLValue, Unwrap, Continues;
    front, x := Print(e.left) + [BinToken(e.bop)], e.right;
    inner := if e.bop.Sym? && e.bop.op != StarStar && x.Assign? then 3 else RightLevel(e.bop);
  }

  lemma LastOfPrefix(e: Expr, level: int) returns (front: seq<Token>, x: Expr, inner: int)
    requires Wf(e, level, false) && (e.Prefix? || e.Cast?)
    ensures x < e && Wf(x, inner, false) && Print(e) == front + Print(x)
  {
    hide Edge, CastHead, IsLValue, Unwrap, Continues;
    x := e.x;
    front := if e.Prefix? then [TOp(e.op)] else [TOp(LParen), TIdent(e.typ), TOp(RParen)];
    inner := if e.Prefix? && StepOp(e.op) then 21 else 18;
  }

  lemma LastOfInfix(e: Expr, level: int) returns (front: seq<Token>, x: Expr, inner: int)
    requires Wf(e, level, false) && (e.Coalesce? || e.Ternary? || e.Assign?)
    ensures x < e && Wf(x, inner, false) && Print(e) == front + Print(x)
  {
    hide Edge, CastHead, IsLValue, Unwrap, Continues;
    if e.Coalesce? {
      front, x, inner := Print(e.left) + [TOp(Coal)], e.right, if e.right.Assign? then 3 else 5;
    } else if e.Ternary? {
      front, x, inner := Print(e.cond) + [TOp(Question)] + Print(e.then_) + [TOp(Colon)], e.else_, 0;
    } else {
      var own := ReadsTarget(e.op, e.value);
      front := Print(e.target) + [TOp(if own then CoalEq else e.op)];
      x, inner := if own then e.value.right else e.value, 3;
    }
  }

  /** No expression ends in an opening parenthesis. */
  lemma {:induction false} LastToken(e: Expr, level: int)
    requires Wf(e, level, false)
    ensures Print(e)[|Print(e)| - 1] != TOp(LParen)
    decreases e
  {
    hide Wf, Print;
    if OpenEnded(e) {
      var front, x, inner := LastOperand(e, level);
      LastToken(x, inner);
      LastOf(front, Print(x));
    } else {
      ClosedEnd(e, level);
    }
  }

  lemma ClosedEnd(e: Expr, level: int)
    requires Wf(e, level, false) && !OpenEnded(e)
    ensures Print(e)[|Print(e)| - 1] != TOp(LParen)
  {
    hide Edge, CastHead, IsLValue, AssignOp, Unwrap, Continues, MembersPlain;
    if e.Method? || e.Call? || e.Invoke? { ArgsEnd(e.args); }
  }

  lemma ArgsEnd(args: Args)
    ensures PrintArgs(args)[0] == TOp(LParen) && PrintArgs(args)[|PrintArgs(args)| - 1] == TOp(RParen)
    ensures |PrintArgs(args)| > 1
  {
  }

  /** What an argument list may follow does not end in a brace. */
  lemma NoBraceEnd(e: Expr)
    requires Wf(e, 21, false) && !Edge(e, TOp(LParen))
    ensures Print(e)[|Print(e)| - 1] != TOp(RBrace)
  {
    hide CastHead, IsLValue, AssignOp, Unwrap, Continues;
    if e.Method? || e.Call? || e.Invoke? { ArgsEnd(e.args); }
  }

  /** Only a name, in parentheses or not, prints as one. */
  lemma {:induction false} NameAlone(x: Expr, level: int)
    requires Wf(x, level, false) && !Unwrap(x).Var? && !Unwrap(x).Const?
    ensures !WrapsName(Print(x))
    decreases x
  {
    hide Edge, CastHead, IsLValue, Continues, PrintProp, PrintMethod, PrintArgs, PrintList;
    var p := Print(x);
    match x
    case Lit(_) =>
    case Paren(y) =>
      NameAlone(y, 0);
      assert p[1..|p| - 1] == Print(y);
    case Append(_) => NameAloneChain(x, level);
    case Index(_, _) => NameAloneChain(x, level);
    case Prop(_, _) => NameAloneChain(x, level);
    case Method(_, _, _) => NameAloneChain(x, level);
    case Call(_, _) => NameAloneChain(x, level);
    case Invoke(_, _) => NameAloneChain(x, level);
    case Prefix(op, _) => OpInside(p, 0);
    case Postfix(op, base) => OpInside(p, |Print(base)|);
    case Cast(_, _) => CastInside(p);
    case Binary(op, l, r) => NameAloneBinary(op, l, r, level);
    case Coalesce(l, _, _) => OpInside(p, |Print(l)|);
    case Ternary(c, _, _) => OpInside(p, |Print(c)|);
    case Assign(t, op, _) => OpInside(p, |Print(t)|);
  }

  lemma NameAloneChain(x: Expr, level: int)
    requires Wf(x, level, false) && (x.Append? || x.Index? || x.Prop? || x.Method? || x.Call? || x.Invoke?)
    ensures !WrapsName(Print(x))
  {
    hide Edge, CastHead, IsLValue, Continues, PrintProp, PrintMethod, PrintList, WrapsName;
    var p := Print(x);
    match x
    case Append(base) => OpInside(p, |Print(base)|);
    case Index(base, _) => OpInside(p, |Print(base)|);
    case Prop(base, _) => OpInside(p, |Print(base)|);
    case Method(base, _, _) => OpInside(p, |Print(base)|);
    case Call(_, args) =>
      ArgsEnd(args);
      StartInside(p, 0);
    case Invoke(base, args) =>
      ArgsEnd(args);
      LastToken(base, 21);
      StartInside(p, |Print(base)|);
  }

  lemma NameAloneBinary(op: BinOp, l: Expr, r: Expr, level: int)
    requires Wf(Binary(op, l, r), level, false)
    ensures !WrapsName(Print(Binary(op, l, r)))
  {
    hide Wf, Print, WrapsName;
    BinaryPrint(Binary(op, l, r));
    var p := Print(Binary(op, l, r));
    var k := |Print(l)|;
    assert p[k] == BinToken(op);
    if op.Sym? {
      BinaryOp(op, l, r, level);
      OpInside(p, k);
    } else {
      BinaryLeft(op, l, r, level);
      LastToken(l, if op.InstanceOf? then 19 else level);
      assert p[k - 1] == Print(l)[k - 1];
      StartInside(p, k);
    }
  }

  lemma BinaryPrint(e: Expr)
    requires e.Binary?
    ensures Print(e) == Print(e.left) + [BinToken(e.bop)] + Print(e.right)
  {
  }

  lemma BinaryOp(op: BinOp, l: Expr, r: Expr, level: int)
    requires Wf(Binary(op, l, r), level, false) && op.Sym?
    ensures op.op != LParen && op.op != RParen
  {
    hide Edge, CastHead, IsLValue, Continues;
  }

  lemma BinaryLeft(op: BinOp, l: Expr, r: Expr, level: int)
    requires Wf(Binary(op, l, r), level, false) && !op.Sym?
    ensures Wf(l, if op.InstanceOf? then 19 else level, false)
  {
    hide Edge, CastHead, IsLValue, Continues;
  }

  // ---- every printed tree that lost no braces ----

  lemma {:induction false} PrintSnug(e: Expr, level: int)
    requires Wf(e, level, false) && MembersPlain(e)
    ensures Snug(Print(e))
    decreases e, 1
  {
    hide Edge, CastHead, IsLValue, AssignOp, Snug, Unwrap;
    match e
    case Lit(v) => One(PrintLit(v));
    case Var(name) => One(TVar(name));
    case Const(name) => One(TIdent(name));
    case Paren(x) =>
      PrintSnug(x, 0);
      Front(TOp(LParen), Print(x));
      Behind([TOp(LParen)] + Print(x), TOp(RParen));
    case Append(base) =>
      PrintSnug(base, 21);
      Behind(Print(base), TOp(LBracket));
      Behind(Print(base) + [TOp(LBracket)], TOp(RBracket));
      assert Print(base) + [TOp(LBracket)] + [TOp(RBracket)] == Print(e);
    case Index(base, key) =>
      PrintSnug(base, 21);
      PrintSnug(key, 0);
      Between(Print(base), TOp(LBracket), Print(key));
      Behind(Print(base) + [TOp(LBracket)] + Print(key), TOp(RBracket));
    case Prop(base, m) => PropSnug(e);
    case Method(_, _, _) => CallSnug(e);
    case Call(_, _) => CallSnug(e);
    case Invoke(_, _) => CallSnug(e);
    case Prefix(op, x) =>
      PrintSnug(x, if StepOp(op) then 21 else 18);
      Front(TOp(op), Print(x));
    case Postfix(op, base) =>
      PrintSnug(base, 21);
      Behind(Print(base), TOp(op));
    case Cast(typ, x) => CastSnug(e, level);
    case Binary(_, _, _) => InfixSnug(e, level);
    case Coalesce(_, _, _) => InfixSnug(e, level);
    case Ternary(_, _, _) => TernarySnug(e, level);
    case Assign(_, _, _) => AssignSnug(e, level);
  }

  lemma {:induction false} CastSnug(e: Expr, level: int)
    requires e.Cast? && Wf(e, level, false) && MembersPlain(e)
    ensures Snug(Print(e))
    decreases e, 0
  {
    hide Edge, CastHead, Snug;
    var p := Print(e.x);
    PrintSnug(e.x, 18);
    Front(TOp(RParen), p);
    Front(TIdent(e.typ), [TOp(RParen)] + p);
    Front(TOp(LParen), [TIdent(e.typ)] + ([TOp(RParen)] + p));
    assert [TOp(LParen)] + ([TIdent(e.typ)] + ([TOp(RParen)] + p)) == Print(e);
  }

  lemma InfixParts(e: Expr, level: int) returns (left: int, right: int, t: Token)
    requires (e.Binary? || e.Coalesce?) && Wf(e, level, false) && MembersPlain(e)
    ensures Wf(e.left, left, false) && MembersPlain(e.left) && Wf(e.right, right, false) && MembersPlain(e.right)
    ensures Print(e) == Print(e.left) + [t] + Print(e.right)
    ensures t != TOp(LBrace) && t != TOp(RBrace) && t != TOp(LParen)
  {
    hide Edge, CastHead, IsLValue, AssignOp, Continues;
    match e
    case Binary(op, l, r) =>
      left := match op case Sym(o) => (if o == StarStar then 21 else if level < 6 then 6 else level) case InstanceOf => 19 case Word(_) => level;
      right := if op.Sym? && op.op != StarStar && r.Assign? then 3 else RightLevel(op);
      t := BinToken(op);
    case Coalesce(l, r, _) => left, right, t := 6, if r.Assign? then 3 else 5, TOp(Coal);
  }

  lemma {:induction false} InfixSnug(e: Expr, level: int)
    requires (e.Binary? || e.Coalesce?) && Wf(e, level, false) && MembersPlain(e)
    ensures Snug(Print(e))
    decreases e, 0
  {
    hide Wf, Print, MembersPlain, Snug;
    var left, right, t := InfixParts(e, level);
    PrintSnug(e.left, left);
    PrintSnug(e.right, right);
    Between(Print(e.left), t, Print(e.right));
  }

  lemma {:induction false} TernarySnug(e: Expr, level: int)
    requires e.Ternary? && Wf(e, level, false) && MembersPlain(e)
    ensures Snug(Print(e))
    decreases e, 0
  {
    hide Edge, CastHead, Snug;
    PrintSnug(e.cond, 5);
    PrintSnug(e.then_, 0);
    PrintSnug(e.else_, 0);
    var c, t, f := Print(e.cond), Print(e.then_), Print(e.else_);
    assert Print(e) == c + [TOp(Question)] + t + [TOp(Colon)] + f;
    Between(c, TOp(Question), t);
    Between(c + [TOp(Question)] + t, TOp(Colon), f);
  }

  lemma AssignParts(e: Expr, level: int) returns (value: Expr, t: Token)
    requires e.Assign? && Wf(e, level, false) && MembersPlain(e)
    ensures value < e && Wf(e.target, 18, false) && MembersPlain(e.target) && Wf(value, 3, false) && MembersPlain(value)
    ensures Print(e) == Print(e.target) + [t] + Print(value)
    ensures t != TOp(LBrace) && t != TOp(RBrace) && t != TOp(LParen)
  {
    hide Edge, CastHead, IsLValue, Unwrap, Continues, PrintProp, PrintMethod, PrintArgs, PrintList;
    var own := ReadsTarget(e.op, e.value);
    value, t := if own then e.value.right else e.value, TOp(if own then CoalEq else e.op);
  }

  lemma {:induction false} AssignSnug(e: Expr, level: int)
    requires e.Assign? && Wf(e, level, false) && MembersPlain(e)
    ensures Snug(Print(e))
    decreases e, 0
  {
    hide Wf, Print, MembersPlain, Snug;
    var value, t := AssignParts(e, level);
    PrintSnug(e.target, 18);
    PrintSnug(value, 3);
    Between(Print(e.target), t, Print(value));
  }

  lemma {:induction false} PropSnug(e: Expr)
    requires e.Prop? && Wf(e, 21, false) && MembersPlain(e)
    ensures Snug(Print(e))
    decreases e, 0
  {
    hide Edge, CastHead, IsLValue, Snug, Unwrap, WrapsName;
    PrintSnug(e.base, 21);
    if e.member.Named? {
      One(TIdent(e.member.name));
    } else {
      PrintSnug(e.member.x, 0);
      var u := Unwrap(e.member.x);
      if u.Var? || u.Const? {
        One(TVar(u.name));
      } else {
        NameAlone(e.member.x, 0);
        Enclosed(Print(e.member.x));
      }
    }
    Between(Print(e.base), TOp(Arrow), PrintProp(e.member));
  }

  lemma {:induction false} CallSnug(e: Expr)
    requires (e.Method? || e.Call? || e.Invoke?) && Wf(e, 21, false) && MembersPlain(e)
    ensures Snug(Print(e))
    decreases e, 0
  {
    hide CastHead, IsLValue, Snug, Unwrap, WrapsName;
    ArgsSnug(e.args);
    ArgsEnd(e.args);
    match e
    case Method(base, m, args) =>
      PrintSnug(base, 21);
      var t := MethodToken(m);
      One(t);
      Between(Print(base), TOp(Arrow), [t]);
      LastOf(Print(base) + [TOp(Arrow)], [t]);
      Cat(Print(base) + [TOp(Arrow)] + [t], PrintArgs(args));
    case Call(name, args) =>
      Front(TIdent(name), PrintArgs(args));
    case Invoke(base, args) =>
      PrintSnug(base, 21);
      NoBraceEnd(base);
      Cat(Print(base), PrintArgs(args));
  }

  lemma MethodToken(m: Member) returns (t: Token)
    requires m.Dynamic? ==> m.x.Var?
    ensures PrintMethod(m) == [t] && !t.TOp?
  {
    t := if m.Named? then TIdent(m.name) else TVar(m.x.name);
  }

  lemma {:induction false} ArgsSnug(args: Args)
    requires args.Args? ==> forall k :: 0 <= k < |args.es| ==> Wf(args.es[k], 0, false)
    requires ArgsPlain(args)
    ensures Snug(PrintArgs(args))
    decreases args
  {
    hide Wf, Snug, Print, MembersPlain;
    if args.FirstClass? {
      MarkerSnug();
    } else if args.es == [] {
      EmptySnug();
    } else {
      ListSnug(args.es);
      Front(TOp(LParen), PrintList(args.es));
      Behind([TOp(LParen)] + PrintList(args.es), TOp(RParen));
    }
  }

  lemma MarkerSnug()
    ensures Snug(PrintArgs(FirstClass))
  {
  }

  lemma EmptySnug()
    ensures Snug(PrintArgs(Args([])))
  {
    assert PrintArgs(Args([])) == [TOp(LParen), TOp(RParen)];
  }

  lemma {:induction false} ListSnug(es: seq<Expr>)
    requires es != [] && forall k :: 0 <= k < |es| ==> Wf(es[k], 0, false) && MembersPlain(es[k])
    ensures Snug(PrintList(es))
    decreases es
  {
    hide Wf, Snug, Print, MembersPlain;
    PrintSnug(es[0], 0);
    if |es| > 1 {
      ListSnug(es[1..]);
      Between(Print(es[0]), TOp(Comma), PrintList(es[1..]));
    }
  }
}
