/** How a chain of operands and infix operators groups, told by sets of operators from loose to tight. */
module Grouping {
  import opened Names
  import opened Syntax
  import opened Printer
  import opened Grammar
  import opened Shape
  import opened Spans
  import opened RoundTrip

  /** The infix operators that bind alike, the loosest first. */
  function Tier(g: nat): set<Token> {
    if g == 0 then {TIdent("or")}
    else if g == 1 then {TIdent("xor")}
    else if g == 2 then {TIdent("and")}
    else if g == 3 then {TOp(Coal)}
    else if g == 4 then {TOp(OrOr)}
    else if g == 5 then {TOp(AndAnd)}
    else if g == 6 then {TOp(Pipe)}
    else if g == 7 then {TOp(Caret)}
    else if g == 8 then {TOp(Amp)}
    else if g == 9 then {TOp(EqEq), TOp(NotEq), TOp(Identical), TOp(NotIdentical), TOp(Spaceship)}
    else if g == 10 then {TOp(Less), TOp(LessEq), TOp(Greater), TOp(GreaterEq)}
    else if g == 11 then {TOp(Dot)}
    else if g == 12 then {TOp(Shl), TOp(Shr)}
    else if g == 13 then {TOp(Plus), TOp(Minus)}
    else if g == 14 then {TOp(Star), TOp(Slash), TOp(Percent)}
    else if g == 15 then {TIdent("instanceof")}
    else if g == 16 then {TOp(StarStar)}
    else {}
  }

  function TierFrom(t: Token, g: nat): (r: nat)
    requires g <= 17
    ensures g <= r <= 17 && (r < 17 ==> t in Tier(r))
    ensures forall j :: g <= j < r ==> t !in Tier(j)
    decreases 17 - g
  {
    if g == 17 || t in Tier(g) then g else TierFrom(t, g + 1)
  }

  /** The one tier an infix operator is in. */
  function TierOf(t: Token): nat {
    TierFrom(t, 0)
  }

  /** A variable, a literal, or an expression in parentheses that is not read as a cast. */
  predicate Operand(x: Expr) {
    x.Var? || (x.Lit? && (x.v.IntLit? || x.v.StrLit?)) || (x.Paren? && Plain(x.x, 0) && !CastHead(x))
  }

  predicate Chain(xs: seq<Expr>, ops: seq<Token>) {
    && |xs| == |ops| + 1
    && (forall k :: 0 <= k < |xs| ==> Operand(xs[k]))
    && (forall k :: 0 <= k < |ops| ==> TierOf(ops[k]) < 17)
  }

  /** The tokens of a chain. */
  function Flat(xs: seq<Expr>, ops: seq<Token>): seq<Token>
    requires |xs| == |ops| + 1
    decreases |ops|
  {
    if ops == [] then Print(xs[0]) else Print(xs[0]) + [ops[0]] + Flat(xs[1..], ops[1..])
  }

  function BopOf(t: Token): BinOp {
    if t.TOp? then Sym(t.op)
    else if t == TIdent("or") then Word(0)
    else if t == TIdent("xor") then Word(1)
    else if t == TIdent("and") then Word(2)
    else InstanceOf
  }

  /** The tree of an operator and its two operands. */
  function Node(t: Token, l: Expr, r: Expr): Expr {
    if t == TOp(Coal) then Coalesce(l, r, false) else Binary(BopOf(t), l, r)
  }

  /**
   Operator k is the last one to be applied. Up to `* / %` it is the last of the loosest ones, of
   `??` the first. `**` takes all of `instanceof` and `**` behind it, so among those it is the `**`
   in front of the others or the last `instanceof` in front of the first `**`.
   */
  ghost predicate Splits(ops: seq<Token>, k: nat) {
    && k < |ops|
    && (forall j :: 0 <= j < |ops| ==> TierOf(ops[j]) >= TierOf(ops[k]) || (TierOf(ops[k]) == 16 && TierOf(ops[j]) == 15))
    && match TierOf(ops[k])
       case 3 => forall j :: 0 <= j < k ==> TierOf(ops[j]) != 3
       case 15 => (forall j :: 0 <= j < k ==> TierOf(ops[j]) == 15) && (k + 1 < |ops| ==> TierOf(ops[k + 1]) == 16)
       case 16 => k == 0
       case g => forall j :: k < j < |ops| ==> TierOf(ops[j]) != g
  }

  /** The tree is the chain, split again and again at the operator that is applied last. */
  ghost predicate Grouped(e: Expr, xs: seq<Expr>, ops: seq<Token>)
    requires |xs| == |ops| + 1
    decreases |ops|
  {
    if ops == [] then e == xs[0]
    else exists k: nat, l: Expr, r: Expr ::
      && k < |ops| && Splits(ops, k) && e == Node(ops[k], l, r)
      && Grouped(l, xs[..k + 1], ops[..k]) && Grouped(r, xs[k + 1..], ops[k + 1..])
  }

  // ---- the tiers as the parser's levels ----

  function Level(g: nat): nat {
    if g < 3 then g else if g == 3 then 5 else if g < 15 then g + 2 else if g == 15 then 19 else 20
  }

  lemma Levels(t: Token)
    requires TierOf(t) < 17
    ensures
      var g := TierOf(t);
      && !AssignOp(t)
      && (g < 3 ==> t == TIdent(WordName(g)) && WordLevel(t) == g)
      && (g == 3 ==> t == TOp(Coal) && Prec(t) == 0)
      && (4 <= g < 15 ==> t.TOp? && t.op != StarStar && t.op != Coal && Prec(t) == g - 3)
      && (g == 15 ==> t == TIdent("instanceof") && WordLevel(t) < 0)
      && (g == 16 ==> t == TOp(StarStar) && Prec(t) == 0)
  {
    hide TierOf, AssignOp, WordLevel, Prec, WordName;
    InTier(t);
    TierLevels(t, TierOf(t));
  }

  lemma InTier(t: Token)
    requires TierOf(t) < 17
    ensures t in Tier(TierOf(t))
  {
  }

  lemma TierLevels(t: Token, g: nat)
    requires t in Tier(g)
    ensures g < 17 && !AssignOp(t)
    ensures g < 3 ==> t == TIdent(WordName(g)) && WordLevel(t) == g
    ensures g == 3 ==> t == TOp(Coal) && Prec(t) == 0
    ensures 4 <= g < 15 ==> t.TOp? && t.op != StarStar && t.op != Coal && Prec(t) == g - 3
    ensures g == 15 ==> t == TIdent("instanceof") && WordLevel(t) < 0
    ensures g == 16 ==> t == TOp(StarStar) && Prec(t) == 0
  {
    hide WordLevel;
    if t.TIdent? { WordTiers(); }
  }

  lemma WordTiers()
    ensures WordLevel(TIdent("or")) == 0 && WordLevel(TIdent("xor")) == 1 && WordLevel(TIdent("and")) == 2
    ensures WordLevel(TIdent("instanceof")) < 0
  {
    assert Lower("or") == "or" && Lower("xor") == "xor" && Lower("and") == "and" && |Lower("instanceof")| == 10;
  }

  // The level a chain of these operators has.
  predicate Reaches(ops: seq<Token>, level: int) {
    || ops == []
    || (level <= 19 && forall j :: 0 <= j < |ops| ==> Level(TierOf(ops[j])) >= level)
    || (level <= 20 && TierOf(ops[0]) == 16 && forall j :: 0 <= j < |ops| ==> TierOf(ops[j]) >= 15)
  }

  /** What stands on both sides of the operator applied last reaches the levels the parser asks for there. */
  lemma Sides(ops: seq<Token>, k: nat, level: int)
    requires (forall j :: 0 <= j < |ops| ==> TierOf(ops[j]) < 17) && Splits(ops, k) && Reaches(ops, level)
    ensures
      var g := TierOf(ops[k]);
      && level <= Level(g)
      && Reaches(ops[..k], LeftLevel(g, level))
      && Reaches(ops[k + 1..], RightLevelOf(g))
  {
    hide TierOf;
    var l, r := ops[..k], ops[k + 1..];
    assert forall j :: 0 <= j < |l| ==> l[j] == ops[j];
    assert forall j :: 0 <= j < |r| ==> r[j] == ops[k + 1 + j];
  }

  // ---- the token behind a chain ----

  // The right operand of op is not taken away by t.
  predicate Holds(op: Token, t: Token) {
    if TierOf(t) == 16 then false
    else if TierOf(t) == 15 then TierOf(op) == 15
    else TierOf(op) >= TierOf(t) && (TierOf(t) == 3 ==> TierOf(op) > 3)
  }

  predicate Shields(ops: seq<Token>, t: Token) {
    forall j :: 0 <= j < |ops| ==> Holds(ops[j], t)
  }

  lemma LeftShields(ops: seq<Token>, k: nat)
    requires Splits(ops, k)
    ensures Shields(ops[..k], ops[k])
  {
    hide TierOf;
    forall j | 0 <= j < |ops[..k]| ensures Holds(ops[..k][j], ops[k]) { assert ops[..k][j] == ops[j]; }
  }

  lemma RightShields(ops: seq<Token>, k: nat, t: Token)
    requires Shields(ops, t) && k < |ops|
    ensures Shields(ops[k + 1..], t)
  {
    hide TierOf;
    var r := ops[k + 1..];
    assert forall j :: 0 <= j < |r| ==> r[j] == ops[k + 1 + j];
  }

  // The level the right operand of an operator is read at.
  function RightOf(op: Token): int {
    if op == TOp(Coal) then 5
    else if op == TIdent("or") then 1
    else if op == TIdent("xor") then 2
    else if op == TIdent("and") then 3
    else if op == TOp(StarStar) then 18
    else if op.TOp? then 6 + Prec(op)
    else 20
  }

  // The right operand of op is not continued by t.
  lemma NotContinued(op: Token, t: Token, r: Expr)
    requires TierOf(op) < 17 && TierOf(t) < 17 && Holds(op, t)
    ensures !Continues(RightOf(op), r, t)
  {
    hide TierOf, IsLValue, WordLevel, Prec, WordName;
    Levels(op);
    Levels(t);
    if TierOf(op) < 3 { Words(op); }
  }

  lemma Words(op: Token)
    requires TierOf(op) < 3
    ensures op == TIdent(if TierOf(op) == 0 then "or" else if TierOf(op) == 1 then "xor" else "and")
  {
  }

  lemma EdgeOfBinary(e: Expr, t: Token)
    requires e.Binary? && !AssignOp(t) && !Edge(e.right, t) && !Continues(RightLevel(e.bop), e.right, t)
    ensures !Edge(e, t)
  {
    hide Continues, IsLValue, AssignOp;
  }

  lemma EdgeOfCoalesce(e: Expr, t: Token)
    requires e.Coalesce? && !e.assign && !AssignOp(t) && !Edge(e.right, t) && !Continues(5, e.right, t)
    ensures !Edge(e, t)
  {
    hide Continues, IsLValue, AssignOp;
  }

  lemma NodeKind(op: Token, l: Expr, r: Expr)
    requires TierOf(op) < 17
    ensures TierOf(op) == 3 ==> Node(op, l, r) == Coalesce(l, r, false) && op == TOp(Coal)
    ensures TierOf(op) != 3 ==> Node(op, l, r) == Binary(BopOf(op), l, r) && BinToken(BopOf(op)) == op && op != TOp(Coal)
    ensures TierOf(op) < 3 ==> BopOf(op) == Word(TierOf(op))
    ensures TierOf(op) == 15 ==> BopOf(op) == InstanceOf
    ensures 4 <= TierOf(op) && TierOf(op) != 15 ==> op.TOp? && BopOf(op) == Sym(op.op)
  {
    hide TierOf, Prec, WordLevel, AssignOp, WordName, BopOf, BinToken;
    Levels(op);
    if TierOf(op) < 3 {
      Words(op);
      WordBop();
    } else if TierOf(op) == 15 {
      WordBop();
    } else {
      SymBop(op);
    }
  }

  lemma SymBop(op: Token)
    requires op.TOp?
    ensures BopOf(op) == Sym(op.op) && BinToken(BopOf(op)) == op
  {
  }

  lemma WordBop()
    ensures BopOf(TIdent("or")) == Word(0) && BinToken(Word(0)) == TIdent("or")
    ensures BopOf(TIdent("xor")) == Word(1) && BinToken(Word(1)) == TIdent("xor")
    ensures BopOf(TIdent("and")) == Word(2) && BinToken(Word(2)) == TIdent("and")
    ensures BopOf(TIdent("instanceof")) == InstanceOf && BinToken(InstanceOf) == TIdent("instanceof")
  {
    assert |"or"| == 2 && |"xor"| == 3 && "xor"[0] != "and"[0] && |"instanceof"| == 10;
  }

  lemma RightOfBop(op: Token)
    requires TierOf(op) < 17 && TierOf(op) != 3
    ensures RightLevel(BopOf(op)) == RightOf(op)
  {
    hide TierOf, Prec, AssignOp, BinToken;
    NodeKind(op, Var(""), Var(""));
    if TierOf(op) < 3 { Words(op); WordBop(); } else if TierOf(op) == 15 { Levels(op); WordBop(); }
  }

  lemma RightOfCoal()
    ensures RightOf(TOp(Coal)) == 5
  {
  }

  lemma EdgeOfNode(op: Token, t: Token, l: Expr, r: Expr)
    requires TierOf(op) < 17 && !AssignOp(t)
    requires !Edge(r, t) && !Continues(RightOf(op), r, t)
    ensures !Edge(Node(op, l, r), t)
  {
    hide Edge, Continues, AssignOp, TierOf, Node, RightOf, RightLevel, BopOf, BinToken;
    NodeKind(op, l, r);
    if TierOf(op) == 3 {
      RightOfCoal();
      EdgeOfCoalesce(Coalesce(l, r, false), t);
    } else {
      RightOfBop(op);
      EdgeOfBinary(Binary(BopOf(op), l, r), t);
    }
  }

  // ---- the tree of a chain ----

  /** The operator applied last stands somewhere. */
  lemma SplitExists(ops: seq<Token>) returns (k: nat)
    requires ops != [] && forall j :: 0 <= j < |ops| ==> TierOf(ops[j]) < 17
    ensures Splits(ops, k)
  {
    hide TierOf;
    k := Loosest(ops);
    if TierOf(ops[k]) >= 15 {
      if TierOf(ops[0]) == 16 {
        k := 0;
      } else {
        k := 0;
        while k + 1 < |ops| && TierOf(ops[k + 1]) == 15
          invariant k < |ops| && forall j :: 0 <= j <= k ==> TierOf(ops[j]) == 15
        {
          k := k + 1;
        }
      }
    }
  }

  lemma {:induction false} Loosest(ops: seq<Token>) returns (k: nat)
    requires ops != []
    ensures k < |ops| && forall j :: 0 <= j < |ops| ==> TierOf(ops[j]) >= TierOf(ops[k])
    ensures forall j :: 0 <= j < |ops| && j != k && TierOf(ops[j]) == TierOf(ops[k]) ==> if TierOf(ops[k]) == 3 then j > k else j < k
    decreases |ops|
  {
    hide TierOf;
    var n := |ops| - 1;
    if n == 0 {
      k := 0;
    } else {
      var front := ops[..n];
      k := Loosest(front);
      assert forall j :: 0 <= j < n ==> front[j] == ops[j];
      if TierOf(ops[n]) < TierOf(ops[k]) || (TierOf(ops[n]) == TierOf(ops[k]) && TierOf(ops[n]) != 3) { k := n; }
    }
  }

  lemma Pieces(xs: seq<Expr>, ops: seq<Token>, k: nat)
    requires Chain(xs, ops) && k < |ops|
    ensures Chain(xs[..k + 1], ops[..k]) && Chain(xs[k + 1..], ops[k + 1..])
  {
    hide Operand, TierOf;
  }

  lemma {:induction false} TreeExists(xs: seq<Expr>, ops: seq<Token>) returns (e: Expr)
    requires Chain(xs, ops)
    ensures Grouped(e, xs, ops)
    decreases |ops|
  {
    hide Splits, Node, Operand, TierOf;
    if ops == [] {
      e := xs[0];
    } else {
      var k := SplitExists(ops);
      SplitIn(ops, k);
      Pieces(xs, ops, k);
      var l := TreeExists(xs[..k + 1], ops[..k]);
      var r := TreeExists(xs[k + 1..], ops[k + 1..]);
      e := Node(ops[k], l, r);
    }
  }

  lemma SplitIn(ops: seq<Token>, k: nat)
    requires Splits(ops, k)
    ensures k < |ops|
  {
  }

  /** The token behind takes nothing from the tree of a chain of operators that hold against it. */
  lemma {:induction false} EdgeOfTree(e: Expr, xs: seq<Expr>, ops: seq<Token>, t: Token)
    requires Chain(xs, ops) && Grouped(e, xs, ops) && TierOf(t) < 17 && Shields(ops, t)
    ensures !Edge(e, t)
    decreases |ops|
  {
    hide Splits, Node, Operand, TierOf, Edge, Continues, Holds, AssignOp;
    if ops == [] {
      EdgeOfOperand(e, t);
    } else {
      var k: nat, l: Expr, r: Expr :|
        k < |ops| && Splits(ops, k) && e == Node(ops[k], l, r) && Grouped(r, xs[k + 1..], ops[k + 1..]);
      Pieces(xs, ops, k);
      RightShields(ops, k, t);
      EdgeOfTree(r, xs[k + 1..], ops[k + 1..], t);
      NotContinued(ops[k], t, r);
      Levels(t);
      EdgeOfNode(ops[k], t, l, r);
    }
  }

  lemma EdgeOfOperand(x: Expr, t: Token)
    requires Operand(x)
    ensures !Edge(x, t)
  {
  }

  /** The tree of a chain has the shape of the levels its operators have. */
  lemma {:induction false} TreeShape(e: Expr, xs: seq<Expr>, ops: seq<Token>, level: int)
    requires Chain(xs, ops) && Grouped(e, xs, ops) && Reaches(ops, level) && level <= 21
    ensures Plain(e, level) && !CastHead(e) && !e.Assign?
    decreases |ops|
  {
    hide Splits, Node, Operand, TierOf, Plain, CastHead, Reaches;
    if ops == [] {
      OperandShape(e, level);
    } else {
      var k: nat, l: Expr, r: Expr :|
        k < |ops| && Splits(ops, k) && e == Node(ops[k], l, r) && Grouped(l, xs[..k + 1], ops[..k]) && Grouped(r, xs[k + 1..], ops[k + 1..]);
      Pieces(xs, ops, k);
      Sides(ops, k, level);
      LeftShields(ops, k);
      EdgeOfTree(l, xs[..k + 1], ops[..k], ops[k]);
      TreeShape(l, xs[..k + 1], ops[..k], LeftLevel(TierOf(ops[k]), level));
      TreeShape(r, xs[k + 1..], ops[k + 1..], RightLevelOf(TierOf(ops[k])));
      NodeShape(ops[k], l, r, level);
    }
  }

  function LeftLevel(g: nat, level: int): int {
    if g < 3 then level else if g == 3 then 6 else if g < 15 then (if level < 6 then 6 else level) else if g == 15 then 19 else 21
  }

  function RightLevelOf(g: nat): int {
    if g == 3 then 5 else if g < 15 then Level(g) + 1 else if g == 15 then 20 else 18
  }

  lemma OperandShape(x: Expr, level: int)
    requires Operand(x) && level <= 21
    ensures Plain(x, level) && !CastHead(x) && !x.Assign?
  {
  }

  lemma NodeShape(op: Token, l: Expr, r: Expr, level: int)
    requires TierOf(op) < 17 && level <= Level(TierOf(op))
    requires Plain(l, LeftLevel(TierOf(op), level)) && !CastHead(l) && !Edge(l, op)
    requires Plain(r, RightLevelOf(TierOf(op))) && !r.Assign?
    ensures Plain(Node(op, l, r), level) && !CastHead(Node(op, l, r)) && !Node(op, l, r).Assign?
  {
    hide Plain, Edge, IsLValue, TierOf, Prec, WordLevel, WordName, CastHead, Wf, Node;
    Levels(op);
    NodeKind(op, l, r);
    if TierOf(op) == 3 { CoalesceShape(Coalesce(l, r, false), level); } else { BinaryShape(Binary(BopOf(op), l, r), op, level); }
  }

  lemma CoalesceShape(e: Expr, level: int)
    requires e.Coalesce? && !e.assign && level <= 5
    requires Plain(e.left, 6) && !Edge(e.left, TOp(Coal)) && Plain(e.right, 5) && !e.right.Assign?
    ensures Plain(e, level) && !CastHead(e)
  {
    hide Edge;
  }

  lemma BinaryShape(e: Expr, op: Token, level: int)
    requires e.Binary? && BinToken(e.bop) == op && TierOf(op) < 17 && level <= Level(TierOf(op)) && TierOf(op) != 3
    requires
      var g := TierOf(op);
      (g < 3 ==> e.bop == Word(g)) && (g == 15 ==> e.bop == InstanceOf) && (4 <= g && g != 15 ==> e.bop.Sym?)
    requires Plain(e.left, LeftLevel(TierOf(op), level)) && !CastHead(e.left) && !Edge(e.left, op)
    requires Plain(e.right, RightLevelOf(TierOf(op))) && !e.right.Assign?
    ensures Plain(e, level) && !CastHead(e)
  {
    hide TierOf, Edge, IsLValue, WordName, WordLevel, Prec;
    Levels(op);
    assert Wf(e, level, true);
  }

  // ---- its tokens ----

  lemma {:induction false} FlatSplit(xs: seq<Expr>, ops: seq<Token>, k: nat)
    requires |xs| == |ops| + 1 && k < |ops|
    ensures Flat(xs, ops) == Flat(xs[..k + 1], ops[..k]) + [ops[k]] + Flat(xs[k + 1..], ops[k + 1..])
    decreases k
  {
    hide Print;
    if k == 0 {
      assert xs[..1][0] == xs[0];
    } else {
      FlatSplit(xs[1..], ops[1..], k - 1);
      assert xs[1..][..k] == xs[..k + 1][1..] && ops[1..][..k - 1] == ops[..k][1..];
      assert xs[1..][k..] == xs[k + 1..] && ops[1..][k..] == ops[k + 1..];
      assert xs[..k + 1][0] == xs[0] && ops[..k][0] == ops[0];
    }
  }

  lemma {:induction false} TreePrints(e: Expr, xs: seq<Expr>, ops: seq<Token>)
    requires Chain(xs, ops) && Grouped(e, xs, ops)
    ensures Print(e) == Flat(xs, ops)
    decreases |ops|
  {
    hide Splits, Node, Operand, TierOf, Print, BopOf, BinToken;
    if ops != [] {
      var k: nat, l: Expr, r: Expr :|
        k < |ops| && Splits(ops, k) && e == Node(ops[k], l, r) && Grouped(l, xs[..k + 1], ops[..k]) && Grouped(r, xs[k + 1..], ops[k + 1..]);
      Pieces(xs, ops, k);
      TreePrints(l, xs[..k + 1], ops[..k]);
      TreePrints(r, xs[k + 1..], ops[k + 1..]);
      NodeKind(ops[k], l, r);
      if TierOf(ops[k]) == 3 { CoalescePrints(e); } else { BinaryPrints(e); }
      FlatSplit(xs, ops, k);
    }
  }

  lemma CoalescePrints(e: Expr)
    requires e.Coalesce?
    ensures Print(e) == Print(e.left) + [TOp(Coal)] + Print(e.right)
  {
    hide PrintProp, PrintMethod, PrintArgs, PrintLit;
  }

  lemma BinaryPrints(e: Expr)
    requires e.Binary?
    ensures Print(e) == Print(e.left) + [BinToken(e.bop)] + Print(e.right)
  {
    hide PrintProp, PrintMethod, PrintArgs, PrintLit, BinToken;
  }

  // ---- the theorem ----

  /**
   A chain of operands and infix operators, however long and in front of whatever ends an expression,
   is parsed as the tree that splits it at the operator applied last, and as no other.
   */
  lemma ChainGroups(xs: seq<Expr>, ops: seq<Token>, toks: seq<Token>, i: nat, n: nat)
    requires Chain(xs, ops) && Stream(toks) && Spot(toks, i, Flat(xs, ops), n) && Stop(toks[n])
    ensures forall e :: Grouped(e, xs, ops) <==> ParseExpr(toks, i) == Ok(e, n)
  {
    hide ParseExpr, Plain, Operand, TierOf, Flat, Grouped, Stop, Print, Absorbs;
    forall e | Grouped(e, xs, ops) ensures ParseExpr(toks, i) == Ok(e, n) {
      LooseEnough(xs, ops);
      TreeShape(e, xs, ops, 0);
      TreePrints(e, xs, ops);
      StopEnds(e, 0, toks[n]);
      RtExpr(e, toks, i, n);
    }
    var tree := TreeExists(xs, ops);
  }

  lemma LooseEnough(xs: seq<Expr>, ops: seq<Token>)
    ensures Reaches(ops, 0)
  {
    hide TierOf;
  }

  lemma {:induction false} OneTier(t: Token, g: nat)
    requires t in Tier(g)
    ensures TierOf(t) == g
  {
    hide Tier, AssignOp, WordLevel, Prec, WordName;
    TierLevels(t, g);
    InTier(t);
    TierLevels(t, TierOf(t));
  }

  /**
   Two infix operators: the second is applied first where it is in a tighter tier, except that what
   stands behind `**` all belongs to its exponent; of one tier the first is, of `??` and `**` the second.
   */
  lemma TwoOperators(a: string, b: string, c: string, o1: Token, o2: Token, g: nat, h: nat)
    requires o1 in Tier(g) && o2 in Tier(h)
    ensures
      ParseExpr([TVar(a), o1, TVar(b), o2, TVar(c), TEof], 0) ==
        Ok(if h > g || (g == 3 && h == 3) || (g == 16 && h >= 15)
           then Node(o1, Var(a), Node(o2, Var(b), Var(c)))
           else Node(o2, Node(o1, Var(a), Var(b)), Var(c)), 5)
  {
    OneTier(o1, g);
    OneTier(o2, h);
    TierLevels(o1, g);
    TierLevels(o2, h);
    hide *;
    var toks, xs, ops := [TVar(a), o1, TVar(b), o2, TVar(c), TEof], [Var(a), Var(b), Var(c)], [o1, o2];
    TwoTokens(a, b, c, o1, o2);
    ChainGroups(xs, ops, toks, 0, 5);
    if h > g || (g == 3 && h == 3) || (g == 16 && h >= 15) {
      SplitFirst(a, b, c, o1, o2);
    } else {
      SplitSecond(a, b, c, o1, o2);
    }
  }

  lemma TwoTokens(a: string, b: string, c: string, o1: Token, o2: Token)
    requires TierOf(o1) < 17 && TierOf(o2) < 17
    ensures
      var toks, xs, ops := [TVar(a), o1, TVar(b), o2, TVar(c), TEof], [Var(a), Var(b), Var(c)], [o1, o2];
      Chain(xs, ops) && Stream(toks) && Spot(toks, 0, Flat(xs, ops), 5) && Stop(toks[5])
  {
    hide TierOf;
    var toks, xs, ops := [TVar(a), o1, TVar(b), o2, TVar(c), TEof], [Var(a), Var(b), Var(c)], [o1, o2];
    assert xs[1..] == [Var(b), Var(c)] && xs[1..][1..] == [Var(c)] && ops[1..] == [o2] && ops[1..][1..] == [];
    assert Flat([Var(b), Var(c)], [o2]) == [TVar(b), o2] + Flat([Var(c)], []);
    assert toks[0..5] == [TVar(a), o1, TVar(b), o2, TVar(c)];
  }

  lemma OneOperator(b: string, c: string, o: Token)
    requires TierOf(o) < 17
    ensures Grouped(Node(o, Var(b), Var(c)), [Var(b), Var(c)], [o])
  {
    hide TierOf, Node;
    assert Splits([o], 0);
    assert [Var(b), Var(c)][..1] == [Var(b)] && [Var(b), Var(c)][1..] == [Var(c)] && [o][..0] == [] && [o][1..] == [];
    assert Grouped(Var(b), [Var(b)], []) && Grouped(Var(c), [Var(c)], []);
  }

  lemma SplitFirst(a: string, b: string, c: string, o1: Token, o2: Token)
    requires TierOf(o1) < 17 && TierOf(o2) < 17
    requires TierOf(o2) > TierOf(o1) || (TierOf(o1) == 3 && TierOf(o2) == 3) || (TierOf(o1) == 16 && TierOf(o2) >= 15)
    ensures Grouped(Node(o1, Var(a), Node(o2, Var(b), Var(c))), [Var(a), Var(b), Var(c)], [o1, o2])
  {
    hide TierOf, Node;
    var xs, ops := [Var(a), Var(b), Var(c)], [o1, o2];
    OneOperator(b, c, o2);
    assert Splits(ops, 0);
    assert xs[..1] == [Var(a)] && xs[1..] == [Var(b), Var(c)] && ops[..0] == [] && ops[1..] == [o2];
    assert Grouped(Var(a), [Var(a)], []);
  }

  lemma SplitSecond(a: string, b: string, c: string, o1: Token, o2: Token)
    requires TierOf(o1) < 17 && TierOf(o2) < 17
    requires !(TierOf(o2) > TierOf(o1) || (TierOf(o1) == 3 && TierOf(o2) == 3) || (TierOf(o1) == 16 && TierOf(o2) >= 15))
    ensures Grouped(Node(o2, Node(o1, Var(a), Var(b)), Var(c)), [Var(a), Var(b), Var(c)], [o1, o2])
  {
    hide TierOf, Node;
    var xs, ops := [Var(a), Var(b), Var(c)], [o1, o2];
    OneOperator(a, b, o1);
    assert Splits(ops, 1);
    assert xs[..2] == [Var(a), Var(b)] && xs[2..] == [Var(c)] && ops[..1] == [o1] && ops[2..] == [];
    assert Grouped(Var(c), [Var(c)], []);
  }
}
