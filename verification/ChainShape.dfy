/** Which statements the split of a chained assignment takes apart, and into what, told by their parts. */
module ChainShape {
  import opened OrderedMap
  import opened ChainedAlloc

  /** p is e or stands somewhere inside it. */
  predicate PartOf(p: Expr, e: Expr)
    decreases e
  {
    p == e ||
    match e
    case ArrayLit(items) => exists k :: 0 <= k < |items| && PartOfItem(p, items[k])
    case Index(base, key) => PartOf(p, base) || PartOf(p, key)
    case Paren(x) => PartOf(p, x)
    case Unary(_, x) => PartOf(p, x)
    case Binary(_, l, r) => PartOf(p, l) || PartOf(p, r)
    case Coalesce(l, r) => PartOf(p, l) || PartOf(p, r)
    case Ternary(c, t, f) => PartOf(p, c) || PartOf(p, t) || PartOf(p, f)
    case Assign(target, _, value) => PartOf(p, target) || PartOf(p, value)
    case _ => false
  }

  predicate PartOfItem(p: Expr, item: Item)
    decreases item
  {
    (item.key.Some? && PartOf(p, item.key.value)) || PartOf(p, item.val)
  }

  /** Running it writes something or calls something. */
  predicate Acts(p: Expr) {
    p.Assign? || p.Call? || (p.Unary? && p.uop in {PreInc, PreDec})
  }

  ghost predicate Acting(e: Expr) {
    exists p :: PartOf(p, e) && Acts(p)
  }

  ghost predicate ActingItem(item: Item) {
    (item.key.Some? && Acting(item.key.value)) || Acting(item.val)
  }

  lemma Within(p: Expr, e: Expr)
    requires PartOf(p, e) && Acts(p)
    ensures Acting(e)
  {
  }

  /** An expression acts where it does so itself or one of its operands does. */
  lemma ActingParts(e: Expr)
    ensures e.ArrayLit? ==> (Acting(e) <==> exists k :: 0 <= k < |e.items| && ActingItem(e.items[k]))
    ensures e.Lit? || e.Null? || e.Var? ==> !Acting(e)
    ensures e.Assign? || e.Call? ==> Acting(e)
    ensures e.Index? ==> (Acting(e) <==> Acting(e.base) || Acting(e.key))
    ensures e.Paren? ==> (Acting(e) <==> Acting(e.x))
    ensures e.Unary? ==> (Acting(e) <==> e.uop in {PreInc, PreDec} || Acting(e.x))
    ensures e.Binary? || e.Coalesce? ==> (Acting(e) <==> Acting(e.left) || Acting(e.right))
    ensures e.Ternary? ==> (Acting(e) <==> Acting(e.cond) || Acting(e.then_) || Acting(e.else_))
  {
    assert Acts(e) ==> PartOf(e, e);
    if e.ArrayLit? { ActingLit(e.items); }
  }

  lemma ActingLit(items: seq<Item>)
    ensures Acting(ArrayLit(items)) <==> exists k :: 0 <= k < |items| && ActingItem(items[k])
  {
    var e := ArrayLit(items);
    if Acting(e) {
      var p :| PartOf(p, e) && Acts(p);
      var k :| 0 <= k < |items| && PartOfItem(p, items[k]);
      assert ActingItem(items[k]);
    }
    if k :| 0 <= k < |items| && ActingItem(items[k]) {
      var item := items[k];
      var x := if item.key.Some? && Acting(item.key.value) then item.key.value else item.val;
      var p :| PartOf(p, x) && Acts(p);
      assert PartOfItem(p, item) && PartOf(p, e);
    }
  }

  /** An expression may run a second time exactly where no part of it assigns, steps a variable or calls. */
  lemma {:induction false} RepeatableIs(e: Expr)
    ensures Repeatable(e) <==> forall p :: PartOf(p, e) ==> !Acts(p)
    decreases e
  {
    RepeatableActs(e);
  }

  lemma {:induction false} RepeatableActs(e: Expr)
    ensures Repeatable(e) <==> !Acting(e)
    decreases e
  {
    hide Acting, ActingItem, PartOf;
    ActingParts(e);
    match e
    case ArrayLit(items) =>
      forall k | 0 <= k < |items|
        ensures ActingItem(items[k]) <==> !((items[k].key.Some? ==> Repeatable(items[k].key.value)) && Repeatable(items[k].val))
      {
        RepeatableItem(items[k]);
      }
    case Index(base, key) => RepeatableActs(base); RepeatableActs(key);
    case Paren(x) => RepeatableActs(x);
    case Unary(_, x) => RepeatableActs(x);
    case Binary(_, l, r) => RepeatableActs(l); RepeatableActs(r);
    case Coalesce(l, r) => RepeatableActs(l); RepeatableActs(r);
    case Ternary(c, t, f) => RepeatableActs(c); RepeatableActs(t); RepeatableActs(f);
    case _ =>
  }

  lemma {:induction false} RepeatableItem(item: Item)
    ensures ActingItem(item) <==> !((item.key.Some? ==> Repeatable(item.key.value)) && Repeatable(item.val))
    decreases item
  {
    hide Acting, Repeatable;
    if item.key.Some? { RepeatableActs(item.key.value); }
    RepeatableActs(item.val);
  }

  // ---- the chain ----

  /** e is u in some number of parentheses, none of them u's own. */
  predicate Wraps(e: Expr, u: Expr)
    decreases e
  {
    if e.Paren? then Wraps(e.x, u) else e == u
  }

  /** e assigns with `=` to each of the targets, the first one outermost, and what it assigns is end. */
  ghost predicate Chains(e: Expr, targets: seq<Expr>, end: Expr)
    decreases |targets|
  {
    if targets == [] then Wraps(e, end) && !end.Assign?
    else exists v :: Wraps(e, Assign(targets[0], "=", v)) && Chains(v, targets[1..], end)
  }

  /** The statement assigns one array literal that may run again to at least two targets. */
  ghost predicate ChainedLiteral(s: Stmt, targets: seq<Expr>, lit: Expr) {
    && s.AssignStmt? && s.op == "=" && |targets| > 1 && targets[0] == s.target
    && Chains(s.value, targets[1..], lit)
    && lit.ArrayLit? && forall p :: PartOf(p, lit) ==> !Acts(p)
  }

  lemma {:induction false} WrapsIs(e: Expr, u: Expr)
    ensures Wraps(e, u) <==> u == Unwrap(e)
  {
    if e.Paren? { WrapsIs(e.x, u); }
  }

  lemma {:induction false} ChainIs(e: Expr, targets: seq<Expr>, end: Expr)
    ensures Chains(e, targets, end) <==> ChainOf(e) == Chain(targets, end)
    decreases e
  {
    var v := Unwrap(e);
    forall u ensures Wraps(e, u) <==> u == v { WrapsIs(e, u); }
    if targets == [] {
    } else if v.Assign? && v.op == "=" {
      ChainIs(v.value, targets[1..], end);
      if v.target == targets[0] && Chains(v.value, targets[1..], end) {
        assert v == Assign(targets[0], "=", v.value);
        assert [v.target] + targets[1..] == targets;
      }
    }
  }

  lemma {:induction false} ReversedIs(ts: seq<Expr>, lit: Expr)
    ensures |Reversed(ts, lit)| == |ts|
    ensures forall k :: 0 <= k < |ts| ==> Reversed(ts, lit)[k] == AssignStmt(ts[|ts| - 1 - k], "=", lit)
  {
    if ts != [] {
      ReversedIs(ts[1..], lit);
      forall k | 0 <= k < |ts| ensures Reversed(ts, lit)[k] == AssignStmt(ts[|ts| - 1 - k], "=", lit) {
        if k < |ts| - 1 { assert ts[1..][|ts| - 2 - k] == ts[|ts| - 1 - k]; }
      }
    }
  }

  /** An assignment of lit to each target, the last one first. */
  function Assignments(targets: seq<Expr>, lit: Expr): seq<Stmt> {
    seq(|targets|, k requires 0 <= k < |targets| => AssignStmt(targets[|targets| - 1 - k], "=", lit))
  }

  /**
   The split takes a statement apart exactly where it assigns an array literal that may run again to
   two targets or more, and answers the assignments of that literal to them, the innermost first.
   */
  lemma LoweredIs(s: Stmt)
    ensures Lower(s).Some? <==> exists targets, lit :: ChainedLiteral(s, targets, lit)
    ensures forall targets, lit :: ChainedLiteral(s, targets, lit) ==> Lower(s) == Some(Assignments(targets, lit))
  {
    hide Repeatable, PartOf, Chains, ChainOf, Reversed;
    forall targets, lit | ChainedLiteral(s, targets, lit)
      ensures Lower(s) == Some(Assignments(targets, lit))
    {
      ChainIs(s.value, targets[1..], lit);
      RepeatableIs(lit);
      ReversedIs(targets[1..], lit);
      assert Lower(s).value == Assignments(targets, lit);
    }
    if Lower(s).Some? {
      var c := ChainOf(s.value);
      ChainIs(s.value, c.targets, c.value);
      RepeatableIs(c.value);
      assert ([s.target] + c.targets)[1..] == c.targets;
      assert ChainedLiteral(s, [s.target] + c.targets, c.value);
    }
  }
}
