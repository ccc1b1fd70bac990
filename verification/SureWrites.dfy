/** What a run that comes through has written: every store that stands outside branches and loops. */
module SureWrites {
  import opened CopyElision

  /** Whoever evaluates e to its end stores through the name: the write stands in no operand that may be left out. */
  predicate Sure(e: Expr, x: string)
    decreases e
  {
    match e
    case Index(base, key) => Sure(base, x) || Sure(key, x)
    case Prop(base, n) => Sure(base, x) || Sure(n, x)
    case Paren(y) => Sure(y, x)
    case Unary(step, y) => (step && x in Reach(y)) || Sure(y, x)
    case Binary(l, _) => Sure(l, x)
    case Coalesce(l, _) => Sure(l, x)
    case Ternary(c, t, f) => Sure(c, x) || (Sure(t, x) && Sure(f, x))
    case Parts(xs) => SureAmong(xs, x)
    case Named(how, args) => Sure(how, x) || SureAmong(args, x)
    case MethodCall(base, m, args) => Sure(base, x) || Sure(m, x) || SureAmong(args, x)
    case Call(args) => SureAmong(args, x)
    case Assign(target, op, value) => SureTarget(target, x) || (op != IfNull && (Sure(value, x) || Bound(target, x)))
    case Ref(y) => Sure(y, x)
    case _ => false
  }

  predicate SureAmong(xs: seq<Expr>, x: string)
    decreases xs
  {
    xs != [] && (Sure(xs[0], x) || SureAmong(xs[1..], x))
  }

  // The operands of an element or a property run whatever is assigned.
  predicate SureTarget(target: Expr, x: string)
    decreases target
  {
    match target
    case Paren(y) => SureTarget(y, x)
    case Index(base, key) => Sure(base, x) || Sure(key, x)
    case Prop(base, n) => Sure(base, x) || Sure(n, x)
    case _ => false
  }

  // The names a target binds or stores into, of a list those of its elements.
  predicate Bound(target: Expr, x: string)
    decreases target
  {
    match target
    case Paren(y) => Bound(y, x)
    case ListExpr(elems) => BoundAmong(elems, x)
    case _ => x in Reach(target)
  }

  predicate BoundAmong(elems: seq<Expr>, x: string)
    decreases elems
  {
    elems != [] && ((elems[0] != Absent && (x in Reach(elems[0]) || SureTarget(elems[0], x))) || BoundAmong(elems[1..], x))
  }

  /** No store was lost, and where sure is set and nothing failed one was added. */
  predicate Rose(s: Run, r: Result, x: string, sure: bool) {
    s.stores[x] <= r.s.stores[x] && (r.Done? && sure ==> s.stores[x] < r.s.stores[x])
  }

  lemma DrawRose(w: World, s: Run, x: string)
    ensures Draw(w, s).s.stores == s.stores && s.(tick := s.tick + 1).stores == s.stores
  {
  }

  lemma BindRose(s: Run, y: string, v: int, x: string)
    ensures Bind(s, y, v).stores[x] == s.stores[x] + if y == x then 1 else 0
  {
  }

  lemma PutRose(e: Expr, s: Run, x: string)
    ensures Put(e, s).stores[x] == s.stores[x] + if x in Reach(e) then 1 else 0
  {
    hide Reach;
  }

  lemma CreatedRose(e: Expr, w: World, s: Run, x: string)
    ensures s.stores[x] <= Created(e, w, s).stores[x]
  {
    PutRose(e, s.(tick := s.tick + 1), x);
  }

  lemma {:induction false} BackRose(args: seq<Expr>, w: World, s: Run, x: string)
    ensures s.stores[x] <= WriteBack(args, w, s).stores[x]
    decreases args
  {
    hide Bind, Unwrap;
    if args != [] {
      var next := s.(tick := s.tick + 1);
      var y := Unwrap(args[0]);
      var t := if (y.Var? || y.Const?) && w.value(s.tick) != 0 then Bind(next, y.name, w.value(s.tick)) else next;
      if y.Var? || y.Const? { BindRose(next, y.name, w.value(s.tick), x); }
      BackRose(args[1..], w, t, x);
    }
  }

  lemma {:induction false} EvalRose(e: Expr, x: string, w: World, s: Run)
    ensures Rose(s, Eval(e, w, s), x, Sure(e, x))
    decreases e, 1
  {
    hide Draw, Store, WriteBack, AssignValue, Operands, EvalAll, Bind, Reach, SureAmong, SureTarget, Bound;
    DrawRose(w, s, x);
    match e
    case Absent =>
    case Atom =>
    case Var(_) =>
    case Const(_) =>
    case StaticProp =>
    case Index(_, _) => OperandsRose(e, x, w, s);
    case Prop(_, _) => OperandsRose(e, x, w, s);
    case Paren(y) => EvalRose(y, x, w, s);
    case Unary(_, _) => StepRose(e, x, w, s);
    case Binary(l, r) => EvalRose(l, x, w, s); Again(l, r, x, w, s);
    case Coalesce(l, r) => EvalRose(l, x, w, s); Again(l, r, x, w, s);
    case Ternary(_, _, _) => BranchRose(e, x, w, s);
    case Parts(xs) => AllRose(xs, x, w, s);
    case Named(_, _) => CallRose(e, x, w, s);
    case MethodCall(_, _, _) => CallRose(e, x, w, s);
    case Call(_) => CallRose(e, x, w, s);
    case Assign(_, _, _) => AssignRose(e, x, w, s);
    case ListExpr(_) =>
    case Include => IncludeRose(x, w, s);
    case Closure =>
    case Ref(y) => EvalRose(y, x, w, s);
  }

  lemma IncludeRose(x: string, w: World, s: Run)
    ensures Rose(s, Eval(Include, w, s), x, false)
  {
    hide Draw, Bind;
    BindRose(s, w.name(s.tick), w.value(s.tick), x);
    DrawRose(w, Bind(s, w.name(s.tick), w.value(s.tick)), x);
  }

  lemma {:induction false} StepRose(e: Expr, x: string, w: World, s: Run)
    requires e.Unary?
    ensures Rose(s, Eval(e, w, s), x, Sure(e, x))
    decreases e, 0
  {
    hide Draw, Store, Reach, SureTarget;
    EvalRose(e.x, x, w, s);
    var r := Eval(e.x, w, s);
    DrawRose(w, r.s, x);
    if e.step { StoreRose(e.x, w.value(r.s.tick), x, w, r.s.(tick := r.s.tick + 1)); }
  }

  lemma {:induction false} BranchRose(e: Expr, x: string, w: World, s: Run)
    requires e.Ternary?
    ensures Rose(s, Eval(e, w, s), x, Sure(e, x))
    decreases e, 0
  {
    EvalRose(e.cond, x, w, s);
    var r := Eval(e.cond, w, s);
    EvalRose(e.then_, x, w, r.s);
    EvalRose(e.else_, x, w, r.s);
  }

  lemma {:induction false} CallRose(e: Expr, x: string, w: World, s: Run)
    requires e.Named? || e.MethodCall? || e.Call?
    ensures Rose(s, Eval(e, w, s), x, Sure(e, x))
    decreases e, 0, 1
  {
    hide Draw, WriteBack, SureAmong, EvalAll, Operands;
    match e
    case Named(how, args) =>
      EvalRose(how, x, w, s);
      AllRose(args, x, w, Eval(how, w, s).s);
    case MethodCall(_, _, args) =>
      OperandsRose(e, x, w, s);
      AllRose(args, x, w, Operands(e, w, s).s);
    case Call(args) =>
      AllRose(args, x, w, s);
      var r := EvalAll(args, w, s);
      BackRose(args, w, r.s, x);
      DrawRose(w, WriteBack(args, w, r.s), x);
  }

  // The right operand may follow.
  lemma {:induction false} Again(l: Expr, r: Expr, x: string, w: World, s: Run)
    ensures var a := Eval(l, w, s); Rose(a.s, Eval(r, w, a.s.(tick := a.s.tick + 1)), x, false)
    decreases r, 2
  {
    hide Eval, Sure;
    var a := Eval(l, w, s);
    EvalRose(r, x, w, a.s.(tick := a.s.tick + 1));
  }

  lemma {:induction false} OperandsRose(e: Expr, x: string, w: World, s: Run)
    requires e.Index? || e.Prop? || e.MethodCall?
    ensures Rose(s, Operands(e, w, s), x, Sure(e.base, x) || Sure(Second(e), x))
    decreases e, 0, 0
  {
    hide Draw, Sure, Eval;
    EvalRose(e.base, x, w, s);
    var r := Eval(e.base, w, s);
    EvalRose(Second(e), x, w, r.s);
    DrawRose(w, Eval(Second(e), w, r.s).s, x);
  }

  lemma {:induction false} AllRose(xs: seq<Expr>, x: string, w: World, s: Run)
    ensures Rose(s, EvalAll(xs, w, s), x, SureAmong(xs, x))
    decreases xs
  {
    hide Draw, Sure, Eval;
    if xs == [] {
      DrawRose(w, s, x);
    } else {
      EvalRose(xs[0], x, w, s);
      AllRose(xs[1..], x, w, Eval(xs[0], w, s).s);
    }
  }

  lemma {:induction false} ContainerRose(e: Expr, x: string, w: World, s: Run)
    ensures Rose(s, Container(e, w, s), x, Sure(e, x))
    decreases e, 2
  {
    hide Draw, Eval, Operands, Created, Reach;
    match e
    case Paren(y) => ContainerRose(y, x, w, s);
    case Index(base, key) =>
      if key == Absent {
        EvalRose(e, x, w, s);
      } else {
        ContainerRose(base, x, w, s);
        var b := Container(base, w, s);
        EvalRose(key, x, w, b.s);
        var k := Eval(key, w, b.s);
        CreatedRose(e, w, k.s, x);
        DrawRose(w, Created(e, w, k.s), x);
      }
    case Prop(_, _) =>
      OperandsRose(e, x, w, s);
      var r := Operands(e, w, s);
      CreatedRose(e, w, r.s, x);
      DrawRose(w, Created(e, w, r.s), x);
    case Var(_) =>
      CreatedRose(e, w, s, x);
      DrawRose(w, Created(e, w, s), x);
    case Const(_) =>
      EvalRose(e, x, w, s);
      var r := Eval(e, w, s);
      CreatedRose(e, w, r.s, x);
      DrawRose(w, Created(e, w, r.s), x);
    case _ => EvalRose(e, x, w, s);
  }

  lemma {:induction false} StoreRose(target: Expr, v: int, x: string, w: World, s: Run)
    ensures Rose(s, Store(target, v, w, s), x, x in Reach(target) || SureTarget(target, x))
    decreases target, 3
  {
    hide Draw, Eval, Operands, Container, Bind, Put, Sure;
    match target
    case Paren(y) => StoreRose(y, v, x, w, s);
    case Var(y) => BindRose(s, y, v, x);
    case Const(y) => BindRose(s, y, v, x);
    case StaticProp => DrawRose(w, s, x);
    case Prop(_, _) =>
      OperandsRose(target, x, w, s);
      var r := Operands(target, w, s);
      PutRose(target, r.s, x);
      DrawRose(w, Put(target, r.s), x);
    case Index(base, key) =>
      ContainerRose(base, x, w, s);
      var b := Container(base, w, s);
      EvalRose(key, x, w, b.s);
      var k := Eval(key, w, b.s);
      PutRose(target, k.s, x);
      DrawRose(w, Put(target, k.s), x);
    case _ =>
  }

  lemma {:induction false} EachRose(elems: seq<Expr>, x: string, w: World, s: Run)
    ensures Rose(s, StoreEach(elems, w, s), x, BoundAmong(elems, x))
    decreases elems
  {
    hide Draw, Store, Reach, SureTarget;
    if elems == [] {
      DrawRose(w, s, x);
    } else if elems[0] == Absent {
      EachRose(elems[1..], x, w, s);
    } else {
      StoreRose(elems[0], w.value(s.tick), x, w, s.(tick := s.tick + 1));
      EachRose(elems[1..], x, w, Store(elems[0], w.value(s.tick), w, s.(tick := s.tick + 1)).s);
    }
  }

  lemma {:induction false} UnwrapBound(target: Expr, x: string)
    ensures Bound(Unwrap(target), x) == Bound(target, x) && SureTarget(Unwrap(target), x) == SureTarget(target, x)
    decreases target
  {
    if target.Paren? { UnwrapBound(target.x, x); }
  }

  lemma {:induction false} AssignRose(e: Expr, x: string, w: World, s: Run)
    requires e.Assign?
    ensures Rose(s, AssignValue(e, w, s), x, Sure(e, x))
    decreases e, 0
  {
    hide Draw, Eval, Container, Bind, Put, StoreEach, Unwrap, Bound, SureTarget, BoundAmong;
    UnwrapBound(e.target, x);
    var t := Unwrap(e.target);
    DrawRose(w, s, x);
    if t.Index? || t.Prop? {
      PartRose(e, t, x, w, s);
    } else {
      WholeRose(e, t, x, w, s);
    }
  }

  lemma {:induction false} PartRose(e: Expr, t: Expr, x: string, w: World, s: Run)
    requires e.Assign? && t == Unwrap(e.target) && (t.Index? || t.Prop?)
    ensures Rose(s, AssignValue(e, w, s), x, SureTarget(t, x) || (e.op != IfNull && (Sure(e.value, x) || Bound(t, x))))
    decreases e, 0, 0
  {
    hide Draw, Eval, Container, Put, Unwrap, Sure, Reach;
    if t.Index? { ContainerRose(t.base, x, w, s); } else { EvalRose(t.base, x, w, s); }
    var b := if t.Index? then Container(t.base, w, s) else Eval(t.base, w, s);
    EvalRose(Second(t), x, w, b.s);
    var k := Eval(Second(t), w, b.s);
    EvalRose(e.value, x, w, k.s);
    var r := Eval(e.value, w, k.s);
    PutRose(t, r.s, x);
    DrawRose(w, Put(t, r.s), x);
  }

  lemma {:induction false} WholeRose(e: Expr, t: Expr, x: string, w: World, s: Run)
    requires e.Assign? && t == Unwrap(e.target) && !t.Index? && !t.Prop?
    ensures Rose(s, AssignValue(e, w, s), x, SureTarget(t, x) || (e.op != IfNull && (Sure(e.value, x) || Bound(t, x))))
    decreases e, 0, 0
  {
    hide Draw, Eval, Bind, StoreEach, Unwrap, Sure, BoundAmong;
    DrawRose(w, s, x);
    EvalRose(e.value, x, w, s);
    var r := Eval(e.value, w, s);
    DrawRose(w, r.s, x);
    if t.Var? || t.Const? {
      var d := if e.op == Compound then Draw(w, r.s) else r;
      BindRose(d.s, t.name, if d.Done? then d.v else 0, x);
    } else if t.ListExpr? {
      EachRose(t.elems, x, w, r.s);
    }
  }

  // ---- statements ----

  /** The same of a statement that comes through: neither branch of an `if` is left out, and no body of a loop counts. */
  predicate SureStmt(n: Stmt, x: string)
    decreases n
  {
    match n
    case ExprStmt(e) => Sure(e, x)
    case Echo(args) => SureAmong(args, x)
    case If(c, t, f) => Sure(c, x) || (SureIn(t, x) && SureIn(f, x))
    case For(init, c, _, _) => (init.ExprStmt? && Sure(init.x, x)) || Sure(c, x)
    case Foreach(source, _, _, _, _) => Sure(source, x)
    case Switch(c, _, _) => Sure(c, x)
    case Try(_, _, f) => SureIn(f, x)
    case Unset(targets) => Dropped(targets, x)
    case Declare(body) => SureIn(body, x)
    case StaticVar(y, _) => y == x
    case ConstDecl(v) => Sure(v, x)
    case _ => false
  }

  predicate SureIn(ss: seq<Stmt>, x: string)
    decreases ss
  {
    ss != [] && (SureStmt(ss[0], x) || SureIn(ss[1..], x))
  }

  predicate Dropped(targets: seq<Expr>, x: string) {
    targets != [] && (x in Reach(targets[0]) || SureTarget(targets[0], x) || Dropped(targets[1..], x))
  }

  predicate Came(s: Run, o: Out, x: string, sure: bool) {
    s.stores[x] <= o.s.stores[x] && (o.flow == Normal && sure ==> s.stores[x] < o.s.stores[x])
  }

  lemma EndedCame(s: Run, r: Result, x: string, sure: bool, flow: Flow)
    requires Rose(s, r, x, sure)
    ensures Came(s, Ended(r, flow), x, sure)
  {
  }

  lemma {:induction false} UnwrapReach(e: Expr, x: string)
    ensures Reach(Unwrap(e)) == Reach(e) && SureTarget(Unwrap(e), x) == SureTarget(e, x)
    decreases e
  {
    if e.Paren? { UnwrapReach(e.x, x); }
  }

  lemma UnsetOneRose(target: Expr, x: string, w: World, s: Run)
    ensures Rose(s, UnsetOne(target, w, s), x, x in Reach(target) || SureTarget(target, x))
  {
    hide Draw, Operands, Put, Store, Unwrap, Sure;
    UnwrapReach(target, x);
    var t := Unwrap(target);
    if t.Prop? || t.Index? {
      OperandsRose(t, x, w, s);
      var r := Operands(t, w, s);
      PutRose(t, r.s, x);
      if r.Done? { StoreRose(t.base, r.v, x, w, r.s); }
    } else if t.StaticProp? {
      DrawRose(w, s, x);
    }
  }

  lemma {:induction false} UnsetRose(targets: seq<Expr>, x: string, w: World, s: Run)
    ensures Rose(s, UnsetAll(targets, w, s), x, Dropped(targets, x))
    decreases targets
  {
    hide Draw, UnsetOne, Reach, SureTarget;
    if targets == [] {
      DrawRose(w, s, x);
    } else {
      UnsetOneRose(targets[0], x, w, s);
      UnsetRose(targets[1..], x, w, UnsetOne(targets[0], w, s).s);
    }
  }

  /** A list that comes through where no handler lets failures pass has made every store that stands in it for sure. */
  lemma {:induction false} ExecWrites(ss: seq<Stmt>, x: string, w: World, s: Run, fuel: nat)
    ensures Came(s, Exec(ss, w, s, fuel), x, !w.handled && SureIn(ss, x))
    decreases fuel, ss
  {
    hide ExecOne, SureStmt;
    if ss != [] {
      OneWrites(ss[0], x, w, s, fuel);
      var o := ExecOne(ss[0], w, s, fuel);
      ExecWrites(ss[1..], x, w, o.s, fuel);
    }
  }

  lemma {:induction false} OneWrites(n: Stmt, x: string, w: World, s: Run, fuel: nat)
    ensures Came(s, ExecOne(n, w, s, fuel), x, !w.handled && SureStmt(n, x))
    decreases fuel, n, 1
  {
    hide Eval, EvalAll, Exec, UnsetAll, ForLoop, ForeachLoop, DoLoop, ExecCases, ExecCatches, Bind, Sure, SureAmong, SureIn, Dropped;
    match n
    case NoStmt =>
    case ExprStmt(e) => EvalRose(e, x, w, s);
    case Echo(args) => AllRose(args, x, w, s);
    case If(c, t, f) =>
      EvalRose(c, x, w, s);
      var r := Eval(c, w, s);
      ExecWrites(t, x, w, r.s, fuel);
      ExecWrites(f, x, w, r.s, fuel);
    case For(init, c, _, _) => ForWrites(n, x, w, s, fuel);
    case Foreach(source, _, _, _, _) =>
      EvalRose(source, x, w, s);
      ForeachGrows(n, x, w, Eval(source, w, s).s, fuel);
    case Switch(c, cases, d) => SwitchWrites(n, x, w, s, fuel);
    case Try(body, catches, f) => TryWrites(n, x, w, s, fuel);
    case Return(v) => EvalRose(v, x, w, s);
    case Throw(v) => EvalRose(v, x, w, s);
    case Unset(targets) => UnsetRose(targets, x, w, s);
    case Break =>
    case Continue =>
    case DoWhile(_, _) => DoGrows(n, x, w, s, fuel);
    case Declare(body) => ExecWrites(body, x, w, s, fuel);
    case StaticVar(y, init) =>
      var next := s.(tick := s.tick + 1);
      EvalRose(init, x, w, next);
      var r := if w.value(s.tick) == 0 then Done(0, next) else Eval(init, w, next);
      BindRose(r.s, y, w.value(r.s.tick), x);
    case ConstDecl(v) => EvalRose(v, x, w, s);
  }

  lemma {:induction false} ForWrites(n: Stmt, x: string, w: World, s: Run, fuel: nat)
    requires n.For?
    ensures Came(s, ExecOne(n, w, s, fuel), x, !w.handled && SureStmt(n, x))
    decreases fuel, n, 0
  {
    hide ForLoop, Eval, Sure;
    OneWrites(n.init, x, w, s, fuel);
    var o := ExecOne(n.init, w, s, fuel);
    if n.init.ExprStmt? { EvalRose(n.init.x, x, w, s); }
    ForGrows(n, x, w, o.s, fuel);
  }

  lemma {:induction false} SwitchWrites(n: Stmt, x: string, w: World, s: Run, fuel: nat)
    requires n.Switch?
    ensures Came(s, ExecOne(n, w, s, fuel), x, Sure(n.cond, x))
    decreases fuel, n, 0
  {
    hide Eval, Exec, ExecCases, Sure;
    EvalRose(n.cond, x, w, s);
    var r := Eval(n.cond, w, s);
    CasesGrow(n.cases, false, x, w, r.s, fuel);
    var m := ExecCases(n.cases, false, w, r.s, fuel);
    ExecWrites(n.default_, x, w, m.0.s, fuel);
  }

  lemma {:induction false} TryWrites(n: Stmt, x: string, w: World, s: Run, fuel: nat)
    requires n.Try?
    ensures Came(s, ExecOne(n, w, s, fuel), x, !w.handled && SureIn(n.finally_, x))
    decreases fuel, n, 0
  {
    hide Exec, ExecCatches, SureIn;
    ExecWrites(n.body, x, w, s, fuel);
    var o := Exec(n.body, w, s, fuel);
    CatchesGrow(n.catches, x, w, o.s, fuel);
    var c := if o.flow == Failed then ExecCatches(n.catches, w, o.s, fuel) else o;
    ExecWrites(n.finally_, x, w, c.s, fuel);
  }

  lemma {:induction false} ForGrows(n: Stmt, x: string, w: World, s: Run, fuel: nat)
    requires n.For?
    ensures Came(s, ForLoop(n, w, s, fuel), x, Sure(n.cond, x))
    decreases fuel, n, 0, 0
  {
    hide Eval, Exec, ExecOne, Sure;
    if fuel > 0 {
      EvalRose(n.cond, x, w, s);
      var c := Eval(n.cond, w, s);
      ExecWrites(n.body, x, w, c.s, fuel);
      var o := Exec(n.body, w, c.s, fuel);
      OneWrites(n.post, x, w, o.s, fuel);
      ForGrows(n, x, w, ExecOne(n.post, w, o.s, fuel).s, fuel - 1);
    }
  }

  lemma {:induction false} DoGrows(n: Stmt, x: string, w: World, s: Run, fuel: nat)
    requires n.DoWhile?
    ensures Came(s, DoLoop(n, w, s, fuel), x, false)
    decreases fuel, n, 0
  {
    hide Eval, Exec, Sure;
    if fuel > 0 {
      ExecWrites(n.body, x, w, s, fuel);
      var o := Exec(n.body, w, s, fuel);
      EvalRose(n.cond, x, w, o.s);
      DoGrows(n, x, w, Eval(n.cond, w, o.s).s, fuel - 1);
    }
  }

  lemma {:induction false} ForeachGrows(n: Stmt, x: string, w: World, s: Run, fuel: nat)
    requires n.Foreach?
    ensures Came(s, ForeachLoop(n, w, s, fuel), x, false)
    decreases fuel, n, 0
  {
    hide Store, Exec, WrittenBack;
    if fuel > 0 && w.value(s.tick) != 0 {
      StoreRose(n.key, w.value(s.tick), x, w, s);
      var k := if n.key == Absent then Done(0, s) else Store(n.key, w.value(s.tick), w, s);
      StoreRose(n.val, w.value(k.s.tick), x, w, k.s.(tick := k.s.tick + 1));
      var v := Store(n.val, w.value(k.s.tick), w, k.s.(tick := k.s.tick + 1));
      ExecWrites(n.body, x, w, v.s, fuel);
      var o := Exec(n.body, w, v.s, fuel);
      BackGrows(n, x, w, o.s);
      ForeachGrows(n, x, w, if n.byRef then WrittenBack(n, w, o.s) else o.s, fuel - 1);
    }
  }

  lemma BackGrows(n: Stmt, x: string, w: World, s: Run)
    requires n.Foreach?
    ensures s.stores[x] <= WrittenBack(n, w, s).stores[x]
  {
    hide Eval, Put, Sure;
    EvalRose(n.val, x, w, s);
    PutRose(n.source, Eval(n.val, w, s).s, x);
  }

  lemma {:induction false} CasesGrow(cs: seq<Case>, matched: bool, x: string, w: World, s: Run, fuel: nat)
    ensures s.stores[x] <= ExecCases(cs, matched, w, s, fuel).0.s.stores[x]
    decreases fuel, cs
  {
    hide Eval, ExecCase, Sure;
    if cs != [] {
      EvalRose(cs[0].value, x, w, s);
      var r := if matched then Done(1, s) else CaseTest(cs[0], w, s);
      CaseGrows(cs[0], x, w, r.s, fuel);
      CasesGrow(cs[1..], false, x, w, r.s, fuel);
      CasesGrow(cs[1..], true, x, w, ExecCase(cs[0], w, r.s, fuel).s, fuel);
    }
  }

  lemma {:induction false} CaseGrows(c: Case, x: string, w: World, s: Run, fuel: nat)
    ensures s.stores[x] <= ExecCase(c, w, s, fuel).s.stores[x]
    decreases fuel, c
  {
    hide Exec, SureIn;
    ExecWrites(c.body, x, w, s, fuel);
  }

  lemma {:induction false} CatchesGrow(cs: seq<Catch>, x: string, w: World, s: Run, fuel: nat)
    ensures s.stores[x] <= ExecCatches(cs, w, s, fuel).s.stores[x]
    decreases fuel, cs
  {
    hide ExecCatch;
    if cs != [] {
      var next := s.(tick := s.tick + 1);
      CatchesGrow(cs[1..], x, w, next, fuel);
      CatchGrows(cs[0], x, w, next, fuel);
    }
  }

  lemma {:induction false} CatchGrows(c: Catch, x: string, w: World, s: Run, fuel: nat)
    ensures s.stores[x] <= ExecCatch(c, w, s, fuel).s.stores[x]
    decreases fuel, c
  {
    hide Exec, Bind, SureIn;
    BindRose(s, c.name, w.value(s.tick), x);
    ExecWrites(c.body, x, w, if c.name == "" then s else Bind(s, c.name, w.value(s.tick)), fuel);
  }

  // ---- turns of a loop ----

  /** A for loop whose condition holds keeps what its body does, and behind a body that did not leave it what its step does. */
  lemma ForTurn(n: Stmt, x: string, w: World, s: Run, fuel: nat)
    requires n.For? && fuel > 0 && Eval(n.cond, w, s).Done? && (n.cond == Absent || Eval(n.cond, w, s).v != 0)
    ensures
      var o := Exec(n.body, w, Eval(n.cond, w, s).s, fuel);
      var post, l := ExecOne(n.post, w, o.s, fuel), ForLoop(n, w, s, fuel);
      && o.s.stores[x] <= l.s.stores[x]
      && (!w.handled && SureIn(n.body, x) && o.flow == Normal ==> s.stores[x] < l.s.stores[x])
      && (!w.handled && SureStmt(n.post, x) && o.flow in {Normal, Continued} && post.flow == Normal ==> s.stores[x] < l.s.stores[x])
      && (o.flow == Broke ==> l == Out(Normal, o.s))
      && (o.flow in {Normal, Continued} && post.flow !in {Failed, Exited} ==> l == ForLoop(n, w, post.s, fuel - 1))
  {
    hide Eval, Exec, ExecOne, Sure, SureIn, SureStmt;
    EvalRose(n.cond, x, w, s);
    var c := Eval(n.cond, w, s);
    ExecWrites(n.body, x, w, c.s, fuel);
    var o := Exec(n.body, w, c.s, fuel);
    OneWrites(n.post, x, w, o.s, fuel);
    ForGrows(n, x, w, ExecOne(n.post, w, o.s, fuel).s, fuel - 1);
  }

  /** A do-while loop keeps what its body does before its condition is looked at, and goes on while that holds. */
  lemma DoTurn(n: Stmt, x: string, w: World, s: Run, fuel: nat)
    requires n.DoWhile? && fuel > 0
    ensures
      var o := Exec(n.body, w, s, fuel);
      var c, l := Eval(n.cond, w, o.s), DoLoop(n, w, s, fuel);
      && o.s.stores[x] <= l.s.stores[x]
      && (!w.handled && SureIn(n.body, x) && o.flow == Normal ==> s.stores[x] < l.s.stores[x])
      && (Sure(n.cond, x) && o.flow in {Normal, Continued} && c.Done? ==> s.stores[x] < l.s.stores[x])
      && (o.flow in {Normal, Continued} && c.Done? ==> l == if c.v == 0 then Out(Normal, c.s) else DoLoop(n, w, c.s, fuel - 1))
  {
    hide Eval, Exec, Sure, SureIn;
    ExecWrites(n.body, x, w, s, fuel);
    var o := Exec(n.body, w, s, fuel);
    EvalRose(n.cond, x, w, o.s);
    DoGrows(n, x, w, Eval(n.cond, w, o.s).s, fuel - 1);
  }

  /** A foreach loop that found an element stores it in its targets and keeps what its body does. */
  lemma ForeachTurn(n: Stmt, x: string, w: World, s: Run, fuel: nat)
    requires n.Foreach? && fuel > 0 && w.value(s.tick) != 0
    ensures
      var k := if n.key == Absent then Done(0, s) else Store(n.key, w.value(s.tick), w, s);
      var v := Store(n.val, w.value(k.s.tick), w, k.s.(tick := k.s.tick + 1));
      var o, l := Exec(n.body, w, v.s, fuel), ForeachLoop(n, w, s, fuel);
      && (k.Done? && n.key != Absent && x in Reach(n.key) ==> s.stores[x] < l.s.stores[x])
      && (k.Done? && v.Done? ==> o.s.stores[x] <= l.s.stores[x] && (x in Reach(n.val) ==> s.stores[x] < l.s.stores[x]))
      && (k.Done? && v.Done? && !w.handled && SureIn(n.body, x) && o.flow == Normal ==> s.stores[x] < l.s.stores[x])
      && (k.Done? && v.Done? && !n.byRef && o.flow in {Normal, Continued} ==> l == ForeachLoop(n, w, o.s, fuel - 1))
      && (k.Done? && v.Done? && n.byRef && o.flow !in {Failed, Exited} && Eval(n.val, w, o.s).Done? && x in Reach(n.source) ==> s.stores[x] < l.s.stores[x])
  {
    hide Eval, Exec, Store, Reach, SureIn, SureTarget, Put;
    StoreRose(n.key, w.value(s.tick), x, w, s);
    var k := if n.key == Absent then Done(0, s) else Store(n.key, w.value(s.tick), w, s);
    StoreRose(n.val, w.value(k.s.tick), x, w, k.s.(tick := k.s.tick + 1));
    var v := Store(n.val, w.value(k.s.tick), w, k.s.(tick := k.s.tick + 1));
    ExecWrites(n.body, x, w, v.s, fuel);
    var o := Exec(n.body, w, v.s, fuel);
    EvalRose(n.val, x, w, o.s);
    PutRose(n.source, Eval(n.val, w, o.s).s, x);
    ForeachGrows(n, x, w, if n.byRef then WrittenBack(n, w, o.s) else o.s, fuel - 1);
  }
}
