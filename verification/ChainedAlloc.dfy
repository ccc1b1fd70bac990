/**
 `$a = $b = array(...)` split into one assignment per name: arrays are handles here and values in
 PHP, and the split gives every name what PHP gives it.
 */
module ChainedAlloc {
  import O = OrderedMap
  import opened OrderedMap
  import opened Integers

  datatype BinOp = Plus | Minus | Times | Less

  datatype UnOp = Neg | Not | PreInc | PreDec

  datatype Item = Item(key: Option<Expr>, val: Expr)

  datatype Expr =
    | Lit(n: int)
    | Null
    | Var(name: string)
    | ArrayLit(items: seq<Item>)
    | Index(base: Expr, key: Expr)
    | Paren(x: Expr)
    | Unary(uop: UnOp, x: Expr)
    | Binary(bop: BinOp, left: Expr, right: Expr)
    | Coalesce(left: Expr, right: Expr)
    | Ternary(cond: Expr, then_: Expr, else_: Expr)
    | Assign(target: Expr, op: string, value: Expr)
    | Call // a call with an effect of its own, such as next() on an array

  datatype Stmt = AssignStmt(target: Expr, op: string, value: Expr) | OtherStmt

  // ---- the rewrite ----

  function Unwrap(e: Expr): (r: Expr)
    ensures !r.Paren? && (r == e || r < e)
  {
    if e.Paren? then Unwrap(e.x) else e
  }

  predicate Repeatable(e: Expr)
    decreases e
  {
    match e
    case Lit(_) => true
    case Null => true
    case Var(_) => true
    case ArrayLit(items) =>
      forall k :: 0 <= k < |items| ==> (items[k].key.Some? ==> Repeatable(items[k].key.value)) && Repeatable(items[k].val)
    case Index(base, key) => Repeatable(base) && Repeatable(key)
    case Paren(x) => Repeatable(x)
    case Unary(op, x) => op != PreInc && op != PreDec && Repeatable(x)
    case Binary(_, l, r) => Repeatable(l) && Repeatable(r)
    case Coalesce(l, r) => Repeatable(l) && Repeatable(r)
    case Ternary(c, t, f) => Repeatable(c) && Repeatable(t) && Repeatable(f)
    case Assign(_, _, _) => false
    case Call => false
  }

  // What a chain of plain assignments binds, outermost name first, and the value at its end.
  datatype Chain = Chain(targets: seq<Expr>, value: Expr) | NoChain

  function ChainOf(e: Expr): (c: Chain)
    ensures c.Chain? ==> !c.value.Assign? && !c.value.Paren?
    decreases e
  {
    var v := Unwrap(e);
    if !v.Assign? then Chain([], v)
    else if v.op != "=" then NoChain
    else
      match ChainOf(v.value)
      case NoChain => NoChain
      case Chain(ts, w) => Chain([v.target] + ts, w)
  }

  /** One assignment for each name, the innermost first, or none for any other statement. */
  function Lower(s: Stmt): Option<seq<Stmt>> {
    if s.OtherStmt? || s.op != "=" then None else
    match ChainOf(s.value)
    case NoChain => None
    case Chain(ts, lit) =>
      if ts == [] || !lit.ArrayLit? || !Repeatable(lit) then None
      else Some(Reversed(ts, lit) + [AssignStmt(s.target, "=", lit)])
  }

  function Reversed(ts: seq<Expr>, lit: Expr): seq<Stmt> {
    if ts == [] then [] else Reversed(ts[1..], lit) + [AssignStmt(ts[0], "=", lit)]
  }

  method LowerChainedAlloc(s: Stmt) returns (out: Option<seq<Stmt>>)
    ensures out == Lower(s)
  {
    if s.OtherStmt? || s.op != "=" { return None; }
    var inner: seq<Expr> := [];
    var value := Unwrap(s.value);
    ghost var answer := ChainOf(s.value);
    BehindNone(answer);
    while value.Assign?
      invariant !value.Paren? && Behind(inner, ChainOf(value)) == answer
      decreases value
    {
      if value.op != "=" { return None; }
      BehindOne(inner, value.target, ChainOf(value.value));
      inner := inner + [value.target];
      value := Unwrap(value.value);
    }
    assert inner + [] == inner;
    if |inner| == 0 { return None; }
    if !value.ArrayLit? || !Repeatable(value) { return None; }
    var stmts: seq<Stmt> := [];
    var i := |inner|;
    while i > 0
      invariant 0 <= i <= |inner| && stmts == Reversed(inner[i..], value)
    {
      i := i - 1;
      assert inner[i..][1..] == inner[i + 1..];
      stmts := stmts + [AssignStmt(inner[i], "=", value)];
    }
    assert inner[0..] == inner;
    out := Some(stmts + [AssignStmt(s.target, "=", value)]);
  }

  function Behind(ts: seq<Expr>, c: Chain): Chain {
    match c
    case NoChain => NoChain
    case Chain(us, w) => Chain(ts + us, w)
  }

  lemma BehindNone(c: Chain)
    ensures Behind([], c) == c
  {
    if c.Chain? { assert [] + c.targets == c.targets; }
  }

  lemma BehindOne(ts: seq<Expr>, t: Expr, c: Chain)
    ensures Behind(ts, Behind([t], c)) == Behind(ts + [t], c)
  {
    if c.Chain? { assert ts + ([t] + c.targets) == ts + [t] + c.targets; }
  }

  // ---- values and handles ----

  // PHP's values: an array is one.
  datatype PVal = PInt(n: int) | PNull | PArr(o: Ordered<PVal>)

  type PEnv = map<string, PVal>

  // A state of the runtime: an array is a handle into the heap.
  datatype Val = Int(n: int) | Nil | Handle(id: nat)

  datatype State = State(vars: map<string, Val>, heap: seq<Ordered<Val>>, calls: nat)

  predicate Known(v: Val, n: nat) {
    v.Handle? ==> v.id < n
  }

  /** What an array holds was there before it. */
  ghost predicate Grounded(heap: seq<Ordered<Val>>) {
    forall i :: 0 <= i < |heap| ==> Holds(heap[i], i)
  }

  predicate Holds(o: Ordered<Val>, n: nat) {
    forall k :: 0 <= k < |o.entries| ==> Known(o.entries[k].1, n)
  }

  ghost predicate Valid(s: State) {
    Grounded(s.heap) && forall x :: x in s.vars ==> Known(s.vars[x], |s.heap|)
  }

  /** The value a handle stands for. */
  ghost function Deref(v: Val, heap: seq<Ordered<Val>>): PVal
    requires Grounded(heap) && Known(v, |heap|)
    decreases if v.Handle? then v.id + 1 else 0
  {
    match v
    case Int(n) => PInt(n)
    case Nil => PNull
    case Handle(i) =>
      assert Holds(heap[i], i);
      PArr(Ordered(
        seq(|heap[i].entries|, k requires 0 <= k < |heap[i].entries| => (heap[i].entries[k].0, Deref(heap[i].entries[k].1, heap))),
        heap[i].next))
  }

  ghost function Worth(o: Ordered<Val>, heap: seq<Ordered<Val>>): Ordered<PVal>
    requires Grounded(heap) && Holds(o, |heap|)
  {
    Ordered(seq(|o.entries|, k requires 0 <= k < |o.entries| => (o.entries[k].0, Deref(o.entries[k].1, heap))), o.next)
  }

  ghost function View(s: State): PEnv
    requires Valid(s)
  {
    map x | x in s.vars :: Deref(s.vars[x], s.heap)
  }

  lemma {:induction false} DerefGrows(v: Val, heap: seq<Ordered<Val>>, more: seq<Ordered<Val>>)
    requires Grounded(heap) && Grounded(more) && heap <= more && Known(v, |heap|)
    ensures Deref(v, heap) == Deref(v, more)
    decreases if v.Handle? then v.id + 1 else 0
  {
    if v.Handle? {
      var es := heap[v.id].entries;
      assert Holds(heap[v.id], v.id) && more[v.id] == heap[v.id];
      forall k | 0 <= k < |es| ensures Deref(es[k].1, heap) == Deref(es[k].1, more) {
        DerefGrows(es[k].1, heap, more);
      }
    }
  }

  lemma WorthGrows(o: Ordered<Val>, heap: seq<Ordered<Val>>, more: seq<Ordered<Val>>)
    requires Grounded(heap) && Grounded(more) && heap <= more && Holds(o, |heap|)
    ensures Holds(o, |more|) && Worth(o, heap) == Worth(o, more)
  {
    forall k | 0 <= k < |o.entries| ensures Deref(o.entries[k].1, heap) == Deref(o.entries[k].1, more) {
      DerefGrows(o.entries[k].1, heap, more);
    }
  }

  lemma ViewGrows(s: State, t: State)
    requires Valid(s) && Valid(t) && s.vars == t.vars && s.heap <= t.heap
    ensures View(s) == View(t)
  {
    forall x | x in s.vars ensures Deref(s.vars[x], s.heap) == Deref(s.vars[x], t.heap) {
      DerefGrows(s.vars[x], s.heap, t.heap);
    }
  }

  // ---- evaluation in both semantics ----

  function KeyOf(n: int): Key {
    if Fits(n) then IntKey(n) else StrKey("")
  }

  function Add<V>(o: Ordered<V>, key: Option<Key>, v: V): Ordered<V> {
    if key.None? then O.Append(o, v) else O.Set(o, key.value, v)
  }

  function Number(op: BinOp, a: int, b: int): int {
    match op
    case Plus => a + b
    case Minus => a - b
    case Times => a * b
    case Less => if a < b then 1 else 0
  }

  function Signed(op: UnOp, n: int): int {
    if op == Not then (if n == 0 then 1 else 0) else -n
  }

  function ValKey(v: Val): Key {
    if v.Int? then KeyOf(v.n) else StrKey("")
  }

  function PKey(v: PVal): Key {
    if v.PInt? then KeyOf(v.n) else StrKey("")
  }

  function Truthy(v: Val, heap: seq<Ordered<Val>>): bool {
    match v
    case Int(n) => n != 0
    case Nil => false
    case Handle(i) => i < |heap| && heap[i].entries != []
  }

  function PTruthy(v: PVal): bool {
    match v
    case PInt(n) => n != 0
    case PNull => false
    case PArr(o) => o.entries != []
  }

  function Fetch(v: Val, key: Key, heap: seq<Ordered<Val>>): Val {
    if v.Handle? && v.id < |heap| && O.Get(heap[v.id], key).Some? then O.Get(heap[v.id], key).value else Nil
  }

  function PFetch(v: PVal, key: Key): PVal {
    if v.PArr? && O.Get(v.o, key).Some? then O.Get(v.o, key).value else PNull
  }

  /** The runtime's evaluation. A literal builds a new array every time it runs. */
  function Eval(e: Expr, s: State): (Val, State)
    decreases e
  {
    match e
    case Lit(n) => (Int(n), s)
    case Null => (Nil, s)
    case Var(x) => (if x in s.vars then s.vars[x] else Nil, s)
    case ArrayLit(items) =>
      var r := EvalItems(items, s, Ordered([], None));
      (Handle(|r.1.heap|), r.1.(heap := r.1.heap + [r.0]))
    case Index(base, key) =>
      var b := Eval(base, s);
      var k := Eval(key, b.1);
      (Fetch(b.0, ValKey(k.0), k.1.heap), k.1)
    case Paren(x) => Eval(x, s)
    case Unary(op, x) =>
      var r := Eval(x, s);
      if op == PreInc || op == PreDec then Stepped(x, op, r) else
      (if r.0.Int? then Int(Signed(op, r.0.n)) else Nil, r.1)
    case Binary(op, l, r) =>
      var a := Eval(l, s);
      var b := Eval(r, a.1);
      (if a.0.Int? && b.0.Int? then Int(Number(op, a.0.n, b.0.n)) else Nil, b.1)
    case Coalesce(l, r) =>
      var a := Eval(l, s);
      if a.0 != Nil then a else Eval(r, a.1)
    case Ternary(c, t, f) =>
      var r := Eval(c, s);
      if Truthy(r.0, r.1.heap) then Eval(t, r.1) else Eval(f, r.1)
    case Assign(target, op, value) =>
      var r := Eval(value, s);
      (r.0, Bind(r.1, target, r.0))
    case Call => (Int(s.calls), s.(calls := s.calls + 1))
  }

  function Stepped(x: Expr, op: UnOp, r: (Val, State)): (Val, State) {
    var v := if r.0.Int? then Int(if op == PreInc then r.0.n + 1 else r.0.n - 1) else r.0;
    (v, Bind(r.1, x, v))
  }

  /** Binding a name. Other targets are not modelled and left alone. */
  function Bind(s: State, target: Expr, v: Val): State {
    if target.Var? then s.(vars := s.vars[target.name := v]) else s
  }

  function EvalItems(items: seq<Item>, s: State, o: Ordered<Val>): (Ordered<Val>, State)
    decreases items
  {
    if items == [] then (o, s) else
    var r := EvalItem(items[0], s);
    EvalItems(items[1..], r.2, Add(o, r.0, r.1))
  }

  function EvalItem(item: Item, s: State): (Option<Key>, Val, State)
    decreases item
  {
    var k := if item.key.Some? then Eval(item.key.value, s) else (Nil, s);
    var v := Eval(item.val, k.1);
    (if item.key.Some? then Some(ValKey(k.0)) else None, v.0, v.1)
  }

  /** PHP's values of the expressions that change nothing. */
  function PEval(e: Expr, env: PEnv): PVal
    decreases e
  {
    match e
    case Lit(n) => PInt(n)
    case Null => PNull
    case Var(x) => if x in env then env[x] else PNull
    case ArrayLit(items) => PArr(PItems(items, env, Ordered([], None)))
    case Index(base, key) => PFetch(PEval(base, env), PKey(PEval(key, env)))
    case Paren(x) => PEval(x, env)
    case Unary(op, x) =>
      var v := PEval(x, env);
      if v.PInt? then PInt(Signed(op, v.n)) else PNull
    case Binary(op, l, r) =>
      var a, b := PEval(l, env), PEval(r, env);
      if a.PInt? && b.PInt? then PInt(Number(op, a.n, b.n)) else PNull
    case Coalesce(l, r) => if PEval(l, env) != PNull then PEval(l, env) else PEval(r, env)
    case Ternary(c, t, f) => if PTruthy(PEval(c, env)) then PEval(t, env) else PEval(f, env)
    case Assign(_, _, _) => PNull
    case Call => PNull
  }

  function PItems(items: seq<Item>, env: PEnv, o: Ordered<PVal>): Ordered<PVal>
    decreases items
  {
    if items == [] then o else
    var r := PItem(items[0], env);
    PItems(items[1..], env, Add(o, r.0, r.1))
  }

  function PItem(item: Item, env: PEnv): (Option<Key>, PVal)
    decreases item
  {
    (if item.key.Some? then Some(PKey(PEval(item.key.value, env))) else None, PEval(item.val, env))
  }

  // ---- repeatable expressions change nothing and mean what PHP says ----

  ghost predicate Grows(s: State, t: State) {
    Valid(s) && Valid(t) && s.vars == t.vars && s.calls == t.calls && s.heap <= t.heap
  }

  /** The result of an evaluation: nothing changed, and the value is the one given. */
  ghost predicate Answers(s: State, r: (Val, State), v: PVal) {
    Grows(s, r.1) && Known(r.0, |r.1.heap|) && Deref(r.0, r.1.heap) == v
  }

  lemma FindWorth(o: Ordered<Val>, heap: seq<Ordered<Val>>, key: Key)
    requires Grounded(heap) && Holds(o, |heap|)
    ensures Find(Worth(o, heap).entries, key) == Find(o.entries, key)
  {
    FindKeys(o.entries, Worth(o, heap).entries, key);
  }

  lemma {:induction false} FindKeys<A, B>(a: seq<(Key, A)>, b: seq<(Key, B)>, key: Key)
    requires |a| == |b| && forall k :: 0 <= k < |a| ==> a[k].0 == b[k].0
    ensures Find(a, key) == Find(b, key)
    decreases |a|
  {
    if a != [] { FindKeys(a[..|a| - 1], b[..|b| - 1], key); }
  }

  lemma FetchWorth(v: Val, key: Key, heap: seq<Ordered<Val>>)
    requires Grounded(heap) && Known(v, |heap|)
    ensures Known(Fetch(v, key, heap), |heap|) && Deref(Fetch(v, key, heap), heap) == PFetch(Deref(v, heap), key)
  {
    if v.Handle? {
      assert Holds(heap[v.id], v.id);
      assert Deref(v, heap).o == Worth(heap[v.id], heap);
      FindWorth(heap[v.id], heap, key);
    }
  }

  lemma TruthyWorth(v: Val, heap: seq<Ordered<Val>>)
    requires Grounded(heap) && Known(v, |heap|)
    ensures Truthy(v, heap) == PTruthy(Deref(v, heap))
  {
  }

  lemma AddWorth(o: Ordered<Val>, key: Option<Key>, v: Val, heap: seq<Ordered<Val>>)
    requires Grounded(heap) && Holds(o, |heap|) && Known(v, |heap|)
    ensures Holds(Add(o, key, v), |heap|) && Worth(Add(o, key, v), heap) == Add(Worth(o, heap), key, Deref(v, heap))
  {
    var k := if key.Some? then key.value else if Fits(O.NextIndex(o)) then IntKey(O.NextIndex(o)) else StrKey("");
    FindWorth(o, heap, k);
    assert Worth(O.Set(o, k, v), heap).entries == O.Set(Worth(o, heap), k, Deref(v, heap)).entries;
  }

  lemma AllocWorth(o: Ordered<Val>, s: State)
    requires Valid(s) && Holds(o, |s.heap|)
    ensures Grows(s, s.(heap := s.heap + [o]))
    ensures Deref(Handle(|s.heap|), s.heap + [o]) == PArr(Worth(o, s.heap))
  {
    var more := s.heap + [o];
    assert forall i :: 0 <= i < |more| ==> more[i] == if i < |s.heap| then s.heap[i] else o;
    WorthGrows(o, s.heap, more);
  }

  lemma GrowsOn(s: State, t: State, u: State)
    requires Grows(s, t) && Grows(t, u)
    ensures Grows(s, u) && View(t) == View(s) && View(u) == View(s)
  {
    ViewGrows(s, t);
    ViewGrows(t, u);
  }

  lemma GrowsView(s: State, t: State)
    requires Grows(s, t)
    ensures View(t) == View(s)
  {
    ViewGrows(s, t);
  }

  /** Running a repeatable expression leaves every name and every array as it was and answers PHP's value. */
  lemma {:induction false} RepeatableEval(e: Expr, s: State)
    requires Valid(s) && Repeatable(e)
    ensures Answers(s, Eval(e, s), PEval(e, View(s)))
    decreases e
  {
    hide Deref, Worth, Grounded, View, Truthy, PTruthy, Fetch, PFetch;
    match e
    case Lit(_) => Atom(e, s);
    case Null => Atom(e, s);
    case Var(x) => Atom(e, s);
    case ArrayLit(items) => LitEval(items, s);
    case Index(base, key) => IndexEval(base, key, s);
    case Paren(x) => RepeatableEval(x, s);
    case Unary(op, x) =>
      RepeatableEval(x, s);
      Scalar(Eval(x, s).0, Eval(x, s).1);
    case Binary(op, l, r) => BinaryEval(op, l, r, s);
    case Coalesce(l, r) =>
      RepeatableEval(l, s);
      var a := Eval(l, s);
      Scalar(a.0, a.1);
      GrowsView(s, a.1);
      RepeatableEval(r, a.1);
      GrowsOn(s, a.1, Eval(r, a.1).1);
    case Ternary(c, t, f) => TernaryEval(c, t, f, s);
  }

  lemma Scalar(v: Val, s: State)
    requires Valid(s) && Known(v, |s.heap|)
    ensures v.Int? <==> Deref(v, s.heap).PInt?
    ensures v.Int? ==> Deref(v, s.heap).n == v.n
    ensures v == Nil <==> Deref(v, s.heap) == PNull
    ensures forall n :: Deref(Int(n), s.heap) == PInt(n)
    ensures Deref(Nil, s.heap) == PNull
  {
  }

  lemma Atom(e: Expr, s: State)
    requires Valid(s) && (e.Lit? || e.Null? || e.Var?)
    ensures Answers(s, Eval(e, s), PEval(e, View(s)))
  {
  }

  lemma {:induction false} IndexEval(base: Expr, key: Expr, s: State)
    requires Valid(s) && Repeatable(base) && Repeatable(key)
    ensures Answers(s, Eval(Index(base, key), s), PEval(Index(base, key), View(s)))
    decreases Index(base, key), 0
  {
    hide Deref, Worth, Grounded, View, Fetch, PFetch, Repeatable;
    RepeatableEval(base, s);
    var b := Eval(base, s);
    GrowsView(s, b.1);
    RepeatableEval(key, b.1);
    var k := Eval(key, b.1);
    GrowsOn(s, b.1, k.1);
    Later(b.0, b.1, k.1);
    Scalar(k.0, k.1);
    FetchWorth(b.0, ValKey(k.0), k.1.heap);
  }

  lemma Later(v: Val, s: State, t: State)
    requires Grows(s, t) && Known(v, |s.heap|)
    ensures Known(v, |t.heap|) && Deref(v, t.heap) == Deref(v, s.heap)
  {
    DerefGrows(v, s.heap, t.heap);
  }

  lemma {:induction false} BinaryEval(op: BinOp, l: Expr, r: Expr, s: State)
    requires Valid(s) && Repeatable(l) && Repeatable(r)
    ensures Answers(s, Eval(Binary(op, l, r), s), PEval(Binary(op, l, r), View(s)))
    decreases Binary(op, l, r), 0
  {
    hide Deref, Worth, Grounded, View, Repeatable, Number;
    RepeatableEval(l, s);
    var a := Eval(l, s);
    GrowsView(s, a.1);
    RepeatableEval(r, a.1);
    var b := Eval(r, a.1);
    GrowsOn(s, a.1, b.1);
    Later(a.0, a.1, b.1);
    Scalar(a.0, b.1);
    Scalar(b.0, b.1);
  }

  lemma {:induction false} TernaryEval(c: Expr, t: Expr, f: Expr, s: State)
    requires Valid(s) && Repeatable(c) && Repeatable(t) && Repeatable(f)
    ensures Answers(s, Eval(Ternary(c, t, f), s), PEval(Ternary(c, t, f), View(s)))
    decreases Ternary(c, t, f), 0
  {
    hide Deref, Worth, Grounded, View, Repeatable, Truthy, PTruthy;
    RepeatableEval(c, s);
    var r := Eval(c, s);
    GrowsView(s, r.1);
    TruthyWorth(r.0, r.1.heap);
    var arm := if Truthy(r.0, r.1.heap) then t else f;
    RepeatableEval(arm, r.1);
    GrowsOn(s, r.1, Eval(arm, r.1).1);
  }

  predicate AllRepeatable(items: seq<Item>) {
    forall k :: 0 <= k < |items| ==> (items[k].key.Some? ==> Repeatable(items[k].key.value)) && Repeatable(items[k].val)
  }

  lemma {:induction false} LitEval(items: seq<Item>, s: State)
    requires Valid(s) && AllRepeatable(items)
    ensures Answers(s, Eval(ArrayLit(items), s), PEval(ArrayLit(items), View(s)))
    decreases items, 1
  {
    hide Deref, Worth, Grounded, View, AllRepeatable;
    var none := Ordered([], None);
    assert Holds(none, |s.heap|);
    NoWorth(s.heap);
    ItemsEval(items, s, none);
    var r := EvalItems(items, s, none);
    AllocWorth(r.0, r.1);
    GrowsOn(s, r.1, r.1.(heap := r.1.heap + [r.0]));
  }

  lemma NoWorth(heap: seq<Ordered<Val>>)
    requires Grounded(heap)
    ensures Worth(Ordered([], None), heap) == Ordered([], None)
  {
  }

  lemma {:induction false} ItemsEval(items: seq<Item>, s: State, o: Ordered<Val>)
    requires Valid(s) && AllRepeatable(items) && Holds(o, |s.heap|)
    ensures
      var r := EvalItems(items, s, o);
      Grows(s, r.1) && Holds(r.0, |r.1.heap|) && Worth(r.0, r.1.heap) == PItems(items, View(s), Worth(o, s.heap))
    decreases items, 0
  {
    hide Deref, Worth, Grounded, View, Holds, Add, Repeatable;
    if items == [] {
      Still(s);
    } else {
      var r := EvalItem(items[0], s);
      ItemEval(items[0], s);
      GrowsView(s, r.2);
      GrownWorth(o, s, r.2);
      AddWorth(o, r.0, r.1, r.2.heap);
      ItemsEval(items[1..], r.2, Add(o, r.0, r.1));
      GrowsOn(s, r.2, EvalItems(items[1..], r.2, Add(o, r.0, r.1)).1);
    }
  }

  lemma Still(s: State)
    requires Valid(s)
    ensures Grows(s, s)
  {
  }

  lemma GrownWorth(o: Ordered<Val>, s: State, t: State)
    requires Grows(s, t) && Holds(o, |s.heap|)
    ensures Holds(o, |t.heap|) && Worth(o, t.heap) == Worth(o, s.heap)
  {
    WorthGrows(o, s.heap, t.heap);
  }

  lemma {:induction false} ItemEval(item: Item, s: State)
    requires Valid(s) && (item.key.Some? ==> Repeatable(item.key.value)) && Repeatable(item.val)
    ensures
      var r := EvalItem(item, s);
      var p := PItem(item, View(s));
      Grows(s, r.2) && r.0 == p.0 && Known(r.1, |r.2.heap|) && Deref(r.1, r.2.heap) == p.1
    decreases item, 0
  {
    hide Deref, Worth, Grounded, View, Repeatable;
    var k := if item.key.Some? then Eval(item.key.value, s) else (Nil, s);
    if item.key.Some? {
      RepeatableEval(item.key.value, s);
      Scalar(k.0, k.1);
    } else {
      Still(s);
    }
    GrowsView(s, k.1);
    RepeatableEval(item.val, k.1);
    GrowsOn(s, k.1, Eval(item.val, k.1).1);
  }

  // ---- the split assignments ----

  function Exec(stmts: seq<Stmt>, s: State): State {
    if stmts == [] then s else
    Exec(stmts[1..], match stmts[0]
                     case AssignStmt(target, _, value) => var r := Eval(value, s); Bind(r.1, target, r.0)
                     case OtherStmt => s)
  }

  // The names of a chain are listed as written, the outermost first. They are assigned from the last.
  function Vars(names: seq<string>): (ts: seq<Expr>)
    ensures |ts| == |names| && forall k :: 0 <= k < |ts| ==> ts[k] == Var(names[k])
  {
    seq(|names|, k requires 0 <= k < |names| => Var(names[k]))
  }

  function Split(names: seq<string>, lit: Expr, s: State): State {
    if names == [] then s else
    var r := Eval(lit, Split(names[1..], lit, s));
    Bind(r.1, Var(names[0]), r.0)
  }

  /** PHP binds the one value to every name. */
  function BindAll(names: seq<string>, v: PVal, env: PEnv): PEnv {
    if names == [] then env else BindAll(names[1..], v, env)[names[0] := v]
  }

  lemma {:induction false} ExecConcat(a: seq<Stmt>, b: seq<Stmt>, s: State)
    ensures Exec(a + b, s) == Exec(b, Exec(a, s))
    decreases |a|
  {
    if a == [] {
      assert a + b == b;
    } else {
      assert (a + b)[1..] == a[1..] + b;
      ExecConcat(a[1..], b, match a[0]
                            case AssignStmt(target, _, value) => var r := Eval(value, s); Bind(r.1, target, r.0)
                            case OtherStmt => s);
    }
  }

  lemma ExecOne(target: Expr, lit: Expr, s: State)
    ensures Exec([AssignStmt(target, "=", lit)], s) == var r := Eval(lit, s); Bind(r.1, target, r.0)
  {
    hide Eval, Bind;
    assert [AssignStmt(target, "=", lit)][1..] == [];
  }

  lemma {:induction false} ExecReversed(names: seq<string>, lit: Expr, s: State)
    ensures Exec(Reversed(Vars(names), lit), s) == Split(names, lit, s)
    decreases |names|
  {
    hide Exec, Eval, Bind;
    if names == [] {
      Nothing(s);
    } else {
      assert Vars(names)[1..] == Vars(names[1..]);
      ExecReversed(names[1..], lit, s);
      var one := [AssignStmt(Var(names[0]), "=", lit)];
      ExecConcat(Reversed(Vars(names)[1..], lit), one, s);
      ExecOne(Var(names[0]), lit, Split(names[1..], lit, s));
    }
  }

  lemma Nothing(s: State)
    ensures Exec([], s) == s
  {
  }

  // A chain `$n0 = $n1 = ... = array(...)`, of at least two plain names.
  predicate PlainChain(s: Stmt, names: seq<string>, lit: Expr) {
    |names| >= 2 && s.AssignStmt? && s.op == "=" && s.target == Var(names[0]) &&
    ChainOf(s.value) == Chain(Vars(names[1..]), lit) && lit.ArrayLit? && Repeatable(lit)
  }

  /** A chain of plain names is split into what runs like one assignment for each, the last one first. */
  lemma LoweredRuns(stmt: Stmt, names: seq<string>, lit: Expr, s: State)
    requires PlainChain(stmt, names, lit)
    ensures Lower(stmt).Some? && Exec(Lower(stmt).value, s) == Split(names, lit, s)
  {
    hide Exec, Eval, Bind, Repeatable, ChainOf;
    var ts := Vars(names[1..]);
    assert ts != [];
    ExecReversed(names[1..], lit, s);
    ExecConcat(Reversed(ts, lit), [AssignStmt(stmt.target, "=", lit)], s);
    ExecOne(stmt.target, lit, Split(names[1..], lit, s));
  }

  // The split on PHP's values.
  function ValueSplit(names: seq<string>, lit: Expr, env: PEnv): PEnv {
    if names == [] then env else
    var inner := ValueSplit(names[1..], lit, env);
    inner[names[0] := PEval(lit, inner)]
  }

  // Every name has an array of its own, none of which was there before, and nothing else changed.
  ghost predicate OwnArrays(names: seq<string>, s: State, t: State) {
    && s.calls == t.calls && s.heap <= t.heap
    && (forall x :: x in t.vars <==> x in s.vars || x in names)
    && (forall x :: x in s.vars && x !in names ==> t.vars[x] == s.vars[x])
    && (forall x :: x in names ==> t.vars[x].Handle? && |s.heap| <= t.vars[x].id)
    && (forall x, y :: x in names && y in names && x != y ==> t.vars[x] != t.vars[y])
  }

  lemma {:induction false} SplitWorth(names: seq<string>, lit: Expr, s: State)
    requires Valid(s) && Repeatable(lit) && lit.ArrayLit?
    ensures
      var t := Split(names, lit, s);
      Valid(t) && View(t) == ValueSplit(names, lit, View(s)) && OwnArrays(names, s, t)
    decreases |names|
  {
    hide Deref, Worth, Grounded, View, Repeatable, Eval, PEval, OwnArrays, Bind;
    if names == [] {
      NoNames(s);
    } else {
      SplitWorth(names[1..], lit, s);
      var u := Split(names[1..], lit, s);
      RepeatableEval(lit, u);
      FreshHandle(lit.items, u);
      var r := Eval(lit, u);
      GrowsView(u, r.1);
      BindView(r.1, names[0], r.0);
      OwnMore(names, s, u, r.1, r.0);
    }
  }

  lemma NoNames(s: State)
    ensures OwnArrays([], s, s)
  {
  }

  lemma OwnMore(names: seq<string>, s: State, u: State, t: State, v: Val)
    requires names != [] && OwnArrays(names[1..], s, u)
    requires u.vars == t.vars && u.calls == t.calls && u.heap <= t.heap
    requires v.Handle? && |u.heap| <= v.id && forall x :: x in u.vars ==> u.vars[x] != v
    ensures OwnArrays(names, s, Bind(t, Var(names[0]), v))
  {
    assert forall x :: x in names <==> x == names[0] || x in names[1..];
  }

  lemma BindView(s: State, x: string, v: Val)
    requires Valid(s) && Known(v, |s.heap|)
    ensures Valid(Bind(s, Var(x), v)) && View(Bind(s, Var(x), v)) == View(s)[x := Deref(v, s.heap)]
  {
  }

  lemma FreshHandle(items: seq<Item>, s: State)
    requires Valid(s) && Repeatable(ArrayLit(items))
    ensures
      var v := Eval(ArrayLit(items), s).0;
      v.Handle? && |s.heap| <= v.id && forall x :: x in s.vars ==> s.vars[x] != v
  {
    hide Deref, Worth, Grounded, View;
    var none := Ordered([], None);
    NoEntries(s);
    ItemsEval(items, s, none);
  }

  lemma NoEntries(s: State)
    ensures Holds(Ordered([], None), |s.heap|)
  {
  }

  // ---- what a literal reads ----

  function Reads(e: Expr): set<string>
    decreases e
  {
    match e
    case Lit(_) => {}
    case Null => {}
    case Var(x) => {x}
    case ArrayLit(items) => ReadsItems(items)
    case Index(b, k) => Reads(b) + Reads(k)
    case Paren(x) => Reads(x)
    case Unary(_, x) => Reads(x)
    case Binary(_, l, r) => Reads(l) + Reads(r)
    case Coalesce(l, r) => Reads(l) + Reads(r)
    case Ternary(c, t, f) => Reads(c) + Reads(t) + Reads(f)
    case Assign(_, _, _) => {}
    case Call => {}
  }

  function ReadsItems(items: seq<Item>): set<string>
    decreases items
  {
    if items == [] then {} else ReadsItem(items[0]) + ReadsItems(items[1..])
  }

  function ReadsItem(item: Item): set<string>
    decreases item
  {
    (if item.key.Some? then Reads(item.key.value) else {}) + Reads(item.val)
  }

  ghost predicate AgreeOn(xs: set<string>, a: PEnv, b: PEnv) {
    forall x :: x in xs ==> (x in a <==> x in b) && (x in a ==> a[x] == b[x])
  }

  lemma {:induction false} OnlyReads(e: Expr, a: PEnv, b: PEnv)
    requires AgreeOn(Reads(e), a, b)
    ensures PEval(e, a) == PEval(e, b)
    decreases e
  {
    hide PFetch, PTruthy, PKey;
    match e
    case Lit(_) =>
    case Null =>
    case Var(x) =>
      assert x in Reads(e);
    case ArrayLit(items) => OnlyReadsItems(items, a, b, Ordered([], None));
    case Index(base, k) =>
      OnlyReads(base, a, b);
      OnlyReads(k, a, b);
    case Paren(x) => OnlyReads(x, a, b);
    case Unary(_, x) => OnlyReads(x, a, b);
    case Binary(_, l, r) =>
      OnlyReads(l, a, b);
      OnlyReads(r, a, b);
    case Coalesce(l, r) =>
      OnlyReads(l, a, b);
      OnlyReads(r, a, b);
    case Ternary(c, t, f) =>
      OnlyReads(c, a, b);
      OnlyReads(t, a, b);
      OnlyReads(f, a, b);
    case Assign(_, _, _) =>
    case Call =>
  }

  lemma {:induction false} OnlyReadsItems(items: seq<Item>, a: PEnv, b: PEnv, o: Ordered<PVal>)
    requires AgreeOn(ReadsItems(items), a, b)
    ensures PItems(items, a, o) == PItems(items, b, o)
    decreases items
  {
    hide PEval, Add;
    if items != [] {
      OnlyReadsItem(items[0], a, b);
      var r := PItem(items[0], a);
      OnlyReadsItems(items[1..], a, b, Add(o, r.0, r.1));
    }
  }

  lemma {:induction false} OnlyReadsItem(item: Item, a: PEnv, b: PEnv)
    requires AgreeOn(ReadsItem(item), a, b)
    ensures PItem(item, a) == PItem(item, b)
    decreases item
  {
    hide PEval;
    if item.key.Some? { OnlyReads(item.key.value, a, b); }
    OnlyReads(item.val, a, b);
  }

  lemma {:induction false} BindAllElsewhere(names: seq<string>, v: PVal, env: PEnv)
    ensures forall x :: x !in names ==> (x in env <==> x in BindAll(names, v, env))
    ensures forall x :: x !in names && x in env ==> BindAll(names, v, env)[x] == env[x]
    decreases |names|
  {
    if names != [] {
      BindAllElsewhere(names[1..], v, env);
      assert forall x :: x in names <==> x == names[0] || x in names[1..];
    }
  }

  lemma {:induction false} UnreadSplit(names: seq<string>, lit: Expr, env: PEnv)
    requires names != [] ==> forall x :: x in names[1..] ==> x !in Reads(lit)
    ensures ValueSplit(names, lit, env) == BindAll(names, PEval(lit, env), env)
    decreases |names|
  {
    hide PEval, Reads;
    if names != [] {
      UnreadSplit(names[1..], lit, env);
      BindAllElsewhere(names[1..], PEval(lit, env), env);
      OnlyReads(lit, env, ValueSplit(names[1..], lit, env));
    }
  }

  /**
   The split statement means what PHP means by the chain wherever the literal reads none of the
   inner names, and gives every name an array of its own. The outermost name may be read: it is
   bound last.
   */
  lemma LoweringKeepsMeaning(stmt: Stmt, names: seq<string>, lit: Expr, s: State)
    requires Valid(s) && PlainChain(stmt, names, lit)
    requires forall x :: x in names[1..] ==> x !in Reads(lit)
    ensures Lower(stmt).Some?
    ensures
      var t := Exec(Lower(stmt).value, s);
      && Valid(t)
      && View(t) == BindAll(names, PEval(lit, View(s)), View(s))
      && OwnArrays(names, s, t)
  {
    hide Exec, Eval, PEval, Repeatable, ChainOf, View, Valid, Reads, OwnArrays, Lower, Split, ValueSplit, BindAll;
    LoweredRuns(stmt, names, lit, s);
    SplitWorth(names, lit, s);
    UnreadSplit(names, lit, View(s));
  }

  // ---- where the split fails ----

  function Depth(v: PVal): nat
    decreases v
  {
    if v.PArr? then 1 + Deepest(v.o.entries) else 0
  }

  function Deepest(es: seq<(Key, PVal)>): (d: nat)
    ensures forall k :: 0 <= k < |es| ==> d >= EntryDepth(es[k])
    decreases es
  {
    if es == [] then 0 else
    var a, b := EntryDepth(es[0]), Deepest(es[1..]);
    assert forall k :: 0 < k < |es| ==> es[1..][k - 1] == es[k];
    if a > b then a else b
  }

  function EntryDepth(e: (Key, PVal)): nat
    decreases e
  {
    Depth(e.1)
  }

  function ValueOf(x: string, env: PEnv): PVal {
    if x in env then env[x] else PNull
  }

  // No item has a key, and an item that reads an inner name is that name alone.
  predicate Positional(items: seq<Item>, names: seq<string>)
    requires names != []
  {
    |items| <= MAX_INT64 &&
    forall k :: 0 <= k < |items| ==>
      items[k].key.None? && (items[k].val.Var? || forall x :: x in names[1..] ==> x !in Reads(items[k].val))
  }

  predicate Numbered(o: Ordered<PVal>) {
    (forall k :: 0 <= k < |o.entries| ==> Fits(k) && o.entries[k].0 == IntKey(k)) &&
    o.next == if o.entries == [] then None else Some(|o.entries|)
  }

  lemma AppendNumbered(o: Ordered<PVal>, v: PVal)
    requires Numbered(o) && |o.entries| < MAX_INT64
    ensures Numbered(O.Append(o, v)) && O.Append(o, v).entries == o.entries + [(IntKey(|o.entries|), v)]
  {
  }

  lemma {:induction false} ItemsInPlace(items: seq<Item>, env: PEnv, o: Ordered<PVal>)
    requires forall k :: 0 <= k < |items| ==> items[k].key.None?
    requires Numbered(o) && |o.entries| + |items| <= MAX_INT64
    ensures
      var es := PItems(items, env, o).entries;
      && |es| == |o.entries| + |items|
      && (forall k :: 0 <= k < |o.entries| ==> es[k] == o.entries[k])
      && forall k :: 0 <= k < |items| ==> es[|o.entries| + k].1 == PEval(items[k].val, env)
    decreases |items|
  {
    hide PEval, O.Append;
    if items != [] {
      var v := PEval(items[0].val, env);
      AppendNumbered(o, v);
      var more := O.Append(o, v);
      ItemsInPlace(items[1..], env, more);
      assert PItems(items, env, o) == PItems(items[1..], env, more);
      forall k | 0 < k < |items|
        ensures PItems(items, env, o).entries[|o.entries| + k].1 == PEval(items[k].val, env)
      {
        assert items[1..][k - 1] == items[k];
      }
    }
  }

  /** A literal that reads a name in an item of its own holds that name's value. */
  lemma HoldsRead(items: seq<Item>, k: nat, x: string, env: PEnv)
    requires |items| <= MAX_INT64 && forall i :: 0 <= i < |items| ==> items[i].key.None?
    requires k < |items| && items[k].val == Var(x)
    ensures
      var v := PEval(ArrayLit(items), env);
      v.PArr? && k < |v.o.entries| && v.o.entries[k].1 == ValueOf(x, env) && Depth(v) > Depth(ValueOf(x, env))
  {
    hide Depth, Deepest, PItem, Add;
    ItemsInPlace(items, env, Ordered([], None));
    EntryDeeper(PItems(items, env, Ordered([], None)), k);
  }

  lemma EntryDeeper(o: Ordered<PVal>, k: nat)
    requires k < |o.entries|
    ensures Depth(PArr(o)) > Depth(o.entries[k].1)
  {
    assert Deepest(o.entries) >= EntryDepth(o.entries[k]);
  }

  lemma {:induction false} ReadInItem(items: seq<Item>, x: string)
    requires x in ReadsItems(items) && forall i :: 0 <= i < |items| ==> items[i].key.None?
    ensures exists k :: 0 <= k < |items| && x in Reads(items[k].val)
    decreases |items|
  {
    hide Reads;
    if x in Reads(items[0].val) {
    } else {
      ReadInItem(items[1..], x);
      var k :| 0 <= k < |items[1..]| && x in Reads(items[1..][k].val);
      assert x in Reads(items[k + 1].val);
    }
  }

  /** A name the literal reads ends up nested deeper than it was, however often it was bound. */
  lemma {:induction false} ReadGrowsDeeper(names: seq<string>, items: seq<Item>, k: nat, x: string, env: PEnv)
    requires |items| <= MAX_INT64 && forall i :: 0 <= i < |items| ==> items[i].key.None?
    requires k < |items| && items[k].val == Var(x) && x in names
    ensures Depth(ValueOf(x, ValueSplit(names, ArrayLit(items), env))) > Depth(ValueOf(x, env))
    decreases |names|
  {
    hide PEval, Depth;
    var inner := ValueSplit(names[1..], ArrayLit(items), env);
    if x in names[1..] {
      ReadGrowsDeeper(names[1..], items, k, x, env);
    } else {
      SplitElsewhere(names[1..], ArrayLit(items), env, x);
    }
    HoldsRead(items, k, x, inner);
  }

  lemma {:induction false} SplitElsewhere(names: seq<string>, lit: Expr, env: PEnv, x: string)
    requires x !in names
    ensures ValueOf(x, ValueSplit(names, lit, env)) == ValueOf(x, env)
    decreases |names|
  {
    hide PEval;
    if names != [] { SplitElsewhere(names[1..], lit, env, x); }
  }

  lemma ReadSplit(names: seq<string>, items: seq<Item>, k: nat, x: string, env: PEnv)
    requires names != [] && x in names[1..] && Positional(items, names)
    requires k < |items| && items[k].val == Var(x)
    ensures ValueSplit(names, ArrayLit(items), env) != BindAll(names, PEval(ArrayLit(items), env), env)
  {
    hide PEval, Depth;
    var lit := ArrayLit(items);
    var inner := ValueSplit(names[1..], lit, env);
    ReadGrowsDeeper(names[1..], items, k, x, env);
    HoldsRead(items, k, x, inner);
    HoldsRead(items, k, x, env);
    assert ValueSplit(names, lit, env)[names[0]] != BindAll(names, PEval(lit, env), env)[names[0]];
  }

  /**
   For a literal without keys whose items are names, or read no inner one, the split means what PHP
   means exactly where the literal reads no inner name: in every other state it does not, and the
   repeatable literal of `$a = $b = array($b)` is one of those.
   */
  lemma MeaningKeptExactly(stmt: Stmt, names: seq<string>, items: seq<Item>, s: State)
    requires Valid(s) && PlainChain(stmt, names, ArrayLit(items)) && Positional(items, names)
    ensures Lower(stmt).Some? && Valid(Exec(Lower(stmt).value, s))
    ensures
      View(Exec(Lower(stmt).value, s)) == BindAll(names, PEval(ArrayLit(items), View(s)), View(s))
      <==> forall x :: x in names[1..] ==> x !in Reads(ArrayLit(items))
  {
    hide Exec, Eval, PEval, Repeatable, ChainOf, View, Valid, Reads, OwnArrays, Lower, Split, ValueSplit, BindAll;
    var lit := ArrayLit(items);
    LoweredRuns(stmt, names, lit, s);
    SplitWorth(names, lit, s);
    if forall x :: x in names[1..] ==> x !in Reads(lit) {
      UnreadSplit(names, lit, View(s));
    } else {
      var x :| x in names[1..] && x in Reads(lit);
      ReadsOfLit(items);
      ReadInItem(items, x);
      var k :| 0 <= k < |items| && x in Reads(items[k].val);
      OnlyItself(items[k].val, x);
      ReadSplit(names, items, k, x, View(s));
    }
  }

  lemma ReadsOfLit(items: seq<Item>)
    ensures Reads(ArrayLit(items)) == ReadsItems(items)
  {
  }

  lemma OnlyItself(e: Expr, x: string)
    ensures e.Var? && x in Reads(e) ==> e == Var(x)
  {
  }

  /** `$a = $b = array($b)` is such a chain, and in every state it comes out wrong. */
  lemma SelfReadGoesWrong(s: State)
    requires Valid(s)
    ensures
      var lit := ArrayLit([Item(None, Var("b"))]);
      var stmt := AssignStmt(Var("a"), "=", Assign(Var("b"), "=", lit));
      Repeatable(lit) && Lower(stmt).Some? && Valid(Exec(Lower(stmt).value, s)) &&
      View(Exec(Lower(stmt).value, s)) != BindAll(["a", "b"], PEval(lit, View(s)), View(s))
  {
    var items := [Item(None, Var("b"))];
    var lit := ArrayLit(items);
    var value := Assign(Var("b"), "=", lit);
    var stmt := AssignStmt(Var("a"), "=", value);
    SelfChain(stmt, value, lit);
    MeaningKeptExactly(stmt, ["a", "b"], items, s);
    assert ["a", "b"][1..] == ["b"] && "b" in Reads(lit);
  }

  lemma SelfChain(stmt: Stmt, value: Expr, lit: Expr)
    requires lit == ArrayLit([Item(None, Var("b"))]) && value == Assign(Var("b"), "=", lit)
    requires stmt == AssignStmt(Var("a"), "=", value)
    ensures PlainChain(stmt, ["a", "b"], lit) && Positional(lit.items, ["a", "b"]) && "b" in Reads(lit)
  {
    assert ChainOf(lit) == Chain([], lit);
    assert ChainOf(value) == Chain([Var("b")] + [], lit);
    assert Vars(["b"]) == [Var("b")];
    assert ["a", "b"][1..] == ["b"];
    assert ReadsItem(lit.items[0]) == {"b"};
  }

  /** Unsplit, the chain would bind the one array to every name. */
  lemma UnsplitShares(a: string, b: string, items: seq<Item>, s: State)
    requires Valid(s) && Repeatable(ArrayLit(items))
    ensures
      var t := Exec([AssignStmt(Var(a), "=", Assign(Var(b), "=", ArrayLit(items)))], s);
      a in t.vars && b in t.vars && t.vars[a] == t.vars[b] && t.vars[a].Handle?
  {
    hide Repeatable;
    ExecOne(Var(a), Assign(Var(b), "=", ArrayLit(items)), s);
  }
}
