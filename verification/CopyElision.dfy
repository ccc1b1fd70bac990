/**
 Whether a by-value `foreach` may bind an element without copying it: the analysis that looks for
 writes through the loop variable, what it overlooks, and that nothing else gets past it.
 */
module CopyElision {
  // Absent stands where the tree holds no expression.
  datatype Expr =
    | Absent
    | Atom
    | Var(name: string)
    | Const(name: string) // an identifier, which the parser takes for a target as it does a variable
    | StaticProp
    | Index(base: Expr, key: Expr)
    | Prop(base: Expr, nameOf: Expr)
    | Paren(x: Expr)
    | Unary(step: bool, x: Expr) // `++` and `--` step, a cast and every other operator only reads
    | Binary(left: Expr, right: Expr)
    | Coalesce(left: Expr, right: Expr)
    | Ternary(cond: Expr, then_: Expr, else_: Expr)
    | Parts(xs: seq<Expr>) // an interpolated string, an array literal, a called value and its arguments
    | Named(how: Expr, args: seq<Expr>) // `new` or a static call, by where an expression names the class or the method
    | MethodCall(base: Expr, computed: Expr, args: seq<Expr>) // computed where a variable or an expression names the method
    | Call(args: seq<Expr>)
    | Assign(target: Expr, op: Op, value: Expr)
    | ListExpr(elems: seq<Expr>)
    | Include
    | Closure
    | Ref(x: Expr)

  datatype Op = Plain | Compound | IfNull

  datatype Case = Case(value: Expr, body: seq<Stmt>)

  datatype Catch = Catch(name: string, body: seq<Stmt>)

  datatype Stmt =
    | NoStmt
    | ExprStmt(x: Expr) // an expression or an assignment
    | Echo(args: seq<Expr>)
    | If(cond: Expr, then_: seq<Stmt>, else_: seq<Stmt>)
    | For(init: Stmt, cond: Expr, post: Stmt, body: seq<Stmt>)
    | Foreach(source: Expr, key: Expr, val: Expr, byRef: bool, body: seq<Stmt>)
    | Switch(cond: Expr, cases: seq<Case>, default_: seq<Stmt>)
    | Try(body: seq<Stmt>, catches: seq<Catch>, finally_: seq<Stmt>)
    | Return(value: Expr)
    | Throw(x: Expr)
    | Unset(targets: seq<Expr>)
    | Break
    | Continue
    | DoWhile(body: seq<Stmt>, cond: Expr)
    | Declare(body: seq<Stmt>)
    | StaticVar(name: string, init_: Expr)
    | ConstDecl(value: Expr)

  // ---- the analysis ----

  function Unwrap(e: Expr): (r: Expr)
    ensures !r.Paren? && (r == e || r < e)
  {
    if e.Paren? then Unwrap(e.x) else e
  }

  /** The name at the root of an lvalue, empty for anything else. */
  function Root(e: Expr): string {
    match e
    case Paren(x) => Root(x)
    case Var(x) => x
    case Index(base, _) => Root(base)
    case Prop(base, _) => Root(base)
    case _ => ""
  }

  method RootName(e: Expr) returns (name: string)
    ensures name == Root(e)
  {
    var at := e;
    while true
      invariant Root(at) == Root(e)
      decreases at
    {
      var n := Unwrap(at);
      UnwrapRoot(at);
      match n {
        case Var(x) => return x;
        case Index(base, _) => at := base;
        case Prop(base, _) => at := base;
        case _ => return "";
      }
    }
  }

  lemma {:induction false} UnwrapRoot(e: Expr)
    ensures Root(Unwrap(e)) == Root(e)
  {
    if e.Paren? { UnwrapRoot(e.x); }
  }

  predicate ListAssigns(target: Expr, root: string) {
    var list := Unwrap(target);
    list.ListExpr? && exists k :: 0 <= k < |list.elems| && list.elems[k] != Absent && Root(list.elems[k]) == root
  }

  predicate ExprAssigns(e: Expr, root: string)
    decreases e
  {
    match e
    case Absent => false
    case Atom => false
    case Var(_) => false
    case Const(_) => false
    case StaticProp => false
    case Index(base, key) => ExprAssigns(base, root) || ExprAssigns(key, root)
    case Prop(base, n) => ExprAssigns(base, root) || ExprAssigns(n, root)
    case Paren(x) => ExprAssigns(x, root)
    case Unary(step, x) => (step && Root(x) == root) || ExprAssigns(x, root)
    case Binary(l, r) => ExprAssigns(l, root) || ExprAssigns(r, root)
    case Coalesce(l, r) => ExprAssigns(l, root) || ExprAssigns(r, root)
    case Ternary(c, t, f) => ExprAssigns(c, root) || ExprAssigns(t, root) || ExprAssigns(f, root)
    case Parts(xs) => ExprsAssign(xs, root)
    case Named(_, args) => ExprsAssign(args, root)
    case MethodCall(base, _, args) => ExprAssigns(base, root) || ExprsAssign(args, root)
    case Call(args) => ExprsAssign(args, root) || CallWritesBack(args, root)
    case Assign(target, _, value) => Root(target) == root || ListAssigns(target, root) || ExprAssigns(value, root)
    case ListExpr(elems) => ExprsAssign(elems, root)
    case Include => true
    case Closure => false
    case Ref(_) => false
  }

  predicate ExprsAssign(xs: seq<Expr>, root: string)
    decreases xs
  {
    xs != [] && (ExprAssigns(xs[0], root) || ExprsAssign(xs[1..], root))
  }

  predicate CallWritesBack(args: seq<Expr>, root: string) {
    exists k :: 0 <= k < |args| && Unwrap(args[k]) == Var(root)
  }

  // The name the parser notes beside a loop target that is one, however it is spelled.
  function NoteOf(target: Expr): string {
    if target.Var? || target.Const? then target.name else ""
  }

  predicate StmtAssigns(s: Stmt, root: string)
    decreases s
  {
    match s
    case NoStmt => false
    case ExprStmt(x) => ExprAssigns(x, root)
    case Echo(args) => ExprsAssign(args, root)
    case If(c, t, f) => ExprAssigns(c, root) || StmtsAssign(t, root) || StmtsAssign(f, root)
    case For(init, c, post, body) =>
      StmtAssigns(init, root) || ExprAssigns(c, root) || StmtAssigns(post, root) || StmtsAssign(body, root)
    case Foreach(source, key, val, _, body) =>
      Root(val) == root || Root(key) == root || NoteOf(val) == root || NoteOf(key) == root || ExprAssigns(source, root) || StmtsAssign(body, root)
    case Switch(c, cases, d) => ExprAssigns(c, root) || StmtsAssign(d, root) || CasesAssign(cases, root)
    case Try(body, catches, f) => StmtsAssign(body, root) || StmtsAssign(f, root) || CatchesAssign(catches, root)
    case Return(v) => ExprAssigns(v, root)
    case Throw(x) => ExprAssigns(x, root)
    case Unset(targets) => exists k :: 0 <= k < |targets| && Root(targets[k]) == root
    case Break => false
    case Continue => false
    case DoWhile(_, _) => false
    case Declare(_) => false
    case StaticVar(_, _) => false
    case ConstDecl(_) => false
  }

  predicate StmtsAssign(ss: seq<Stmt>, root: string)
    decreases ss
  {
    ss != [] && (StmtAssigns(ss[0], root) || StmtsAssign(ss[1..], root))
  }

  predicate CasesAssign(cs: seq<Case>, root: string)
    decreases cs
  {
    cs != [] && (CaseAssigns(cs[0], root) || CasesAssign(cs[1..], root))
  }

  predicate CaseAssigns(c: Case, root: string)
    decreases c
  {
    ExprAssigns(c.value, root) || StmtsAssign(c.body, root)
  }

  predicate CatchesAssign(cs: seq<Catch>, root: string)
    decreases cs
  {
    cs != [] && (CatchAssigns(cs[0], root) || CatchesAssign(cs[1..], root))
  }

  predicate CatchAssigns(c: Catch, root: string)
    decreases c
  {
    c.name == root || StmtsAssign(c.body, root)
  }

  /** Whether a loop that binds target has to copy the elements its body sees. */
  predicate AssignsTo(target: Expr, body: seq<Stmt>) {
    Root(target) == "" || StmtsAssign(body, Root(target))
  }

  // ---- what the analysis does not look at ----

  // The names whose value an expression may hand on, or an element of it.
  function Reach(e: Expr): set<string> {
    match e
    case Var(x) => {x}
    case Const(x) => {x}
    case Index(base, _) => Reach(base)
    case Prop(base, _) => Reach(base)
    case Paren(x) => Reach(x)
    case Unary(step, x) => if step then {} else Reach(x)
    case Coalesce(l, r) => Reach(l) + Reach(r)
    case Ternary(_, t, f) => Reach(t) + Reach(f)
    case Assign(_, _, value) => Reach(value)
    case Ref(x) => Reach(x)
    case _ => {}
  }

  // A store to e may land in what root holds, and the root of e is another name or none.
  predicate Slips(e: Expr, root: string) {
    root in Reach(e) && Root(e) != root
  }

  predicate TargetOverlooks(target: Expr, root: string) {
    var t := Unwrap(target);
    Slips(t, root) || (t.ListExpr? && exists k :: 0 <= k < |t.elems| && Slips(t.elems[k], root))
  }

  // An output argument spelled like a constant.
  predicate ConstArgument(args: seq<Expr>, root: string) {
    exists k :: 0 <= k < |args| && Unwrap(args[k]) == Const(root)
  }

  // A store to a target that is spelled like a constant or hands the variable's value on, and a write
  // among the operands of a target, in a computed name of a method or a class, or behind `&`.
  predicate ExprOverlooks(e: Expr, root: string)
    decreases e
  {
    match e
    case Absent => false
    case Atom => false
    case Var(_) => false
    case Const(_) => false
    case StaticProp => false
    case Index(base, key) => ExprOverlooks(base, root) || ExprOverlooks(key, root)
    case Prop(base, n) => ExprOverlooks(base, root) || ExprOverlooks(n, root)
    case Paren(x) => ExprOverlooks(x, root)
    case Unary(step, x) => (step && TargetOverlooks(x, root)) || ExprOverlooks(x, root)
    case Binary(l, r) => ExprOverlooks(l, root) || ExprOverlooks(r, root)
    case Coalesce(l, r) => ExprOverlooks(l, root) || ExprOverlooks(r, root)
    case Ternary(c, t, f) => ExprOverlooks(c, root) || ExprOverlooks(t, root) || ExprOverlooks(f, root)
    case Parts(xs) => ExprsOverlook(xs, root)
    case Named(how, args) => ExprAssigns(how, root) || ExprOverlooks(how, root) || ExprsOverlook(args, root)
    case MethodCall(base, m, args) =>
      ExprAssigns(m, root) || ExprOverlooks(m, root) || ExprOverlooks(base, root) || ExprsOverlook(args, root)
    case Call(args) => ExprsOverlook(args, root) || ConstArgument(args, root)
    case Assign(target, _, value) =>
      TargetOverlooks(target, root) || ExprAssigns(target, root) || ExprOverlooks(target, root) || ExprOverlooks(value, root)
    case ListExpr(elems) => ExprsOverlook(elems, root)
    case Include => false
    case Closure => false
    case Ref(x) => ExprAssigns(x, root) || ExprOverlooks(x, root)
  }

  predicate ExprsOverlook(xs: seq<Expr>, root: string)
    decreases xs
  {
    xs != [] && (ExprOverlooks(xs[0], root) || ExprsOverlook(xs[1..], root))
  }

  // Besides those: do-while, declare blocks, constant declarations, static variables, and a by-reference
  // loop over what the variable holds.
  predicate StmtOverlooks(s: Stmt, root: string)
    decreases s
  {
    match s
    case NoStmt => false
    case ExprStmt(x) => ExprOverlooks(x, root)
    case Echo(args) => ExprsOverlook(args, root)
    case If(c, t, f) => ExprOverlooks(c, root) || StmtsOverlook(t, root) || StmtsOverlook(f, root)
    case For(init, c, post, body) =>
      StmtOverlooks(init, root) || ExprOverlooks(c, root) || StmtOverlooks(post, root) || StmtsOverlook(body, root)
    case Foreach(source, key, val, byRef, body) =>
      TargetOverlooks(key, root) || TargetOverlooks(val, root) || (byRef && root in Reach(source)) ||
      ExprOverlooks(source, root) || StmtsOverlook(body, root) ||
      ExprAssigns(key, root) || ExprOverlooks(key, root) || ExprAssigns(val, root) || ExprOverlooks(val, root)
    case Switch(c, cases, d) => ExprOverlooks(c, root) || StmtsOverlook(d, root) || CasesOverlook(cases, root)
    case Try(body, catches, f) => StmtsOverlook(body, root) || StmtsOverlook(f, root) || CatchesOverlook(catches, root)
    case Return(v) => ExprOverlooks(v, root)
    case Throw(x) => ExprOverlooks(x, root)
    case Unset(targets) =>
      ExprsAssign(targets, root) || ExprsOverlook(targets, root) ||
      exists k :: 0 <= k < |targets| && TargetOverlooks(targets[k], root)
    case Break => false
    case Continue => false
    case DoWhile(body, c) =>
      StmtsAssign(body, root) || StmtsOverlook(body, root) || ExprAssigns(c, root) || ExprOverlooks(c, root)
    case Declare(body) => StmtsAssign(body, root) || StmtsOverlook(body, root)
    case StaticVar(x, init) => x == root || ExprAssigns(init, root) || ExprOverlooks(init, root)
    case ConstDecl(v) => ExprAssigns(v, root) || ExprOverlooks(v, root)
  }

  predicate StmtsOverlook(ss: seq<Stmt>, root: string)
    decreases ss
  {
    ss != [] && (StmtOverlooks(ss[0], root) || StmtsOverlook(ss[1..], root))
  }

  predicate CasesOverlook(cs: seq<Case>, root: string)
    decreases cs
  {
    cs != [] && (CaseOverlooks(cs[0], root) || CasesOverlook(cs[1..], root))
  }

  predicate CaseOverlooks(c: Case, root: string)
    decreases c
  {
    ExprOverlooks(c.value, root) || StmtsOverlook(c.body, root)
  }

  predicate CatchesOverlook(cs: seq<Catch>, root: string)
    decreases cs
  {
    cs != [] && (CatchOverlooks(cs[0], root) || CatchesOverlook(cs[1..], root))
  }

  predicate CatchOverlooks(c: Catch, root: string)
    decreases c
  {
    StmtsOverlook(c.body, root)
  }

  // ---- running a body ----

  datatype Fate = Goes | Fails | Exits

  // Everything the runtime computes and the model does not: values, which operations fail, which of
  // them exit, what an included file writes, and whether an error handler lets the script go on.
  datatype World = World(value: nat -> int, fate: nat -> Fate, name: nat -> string, handled: bool)

  // One frame: what its names are bound to and how often each was stored through.
  datatype Run = Run(vars: map<string, int>, stores: multiset<string>, tick: nat)

  datatype Result = Done(v: int, s: Run) | Stop(exit: bool, s: Run)

  datatype Flow = Normal | Broke | Continued | Returned | Failed | Exited

  datatype Out = Out(flow: Flow, s: Run)

  function Draw(w: World, s: Run): Result {
    var next := s.(tick := s.tick + 1);
    match w.fate(s.tick)
    case Goes => Done(w.value(s.tick), next)
    case Fails => Stop(false, next)
    case Exits => Stop(true, next)
  }

  function Bind(s: Run, x: string, v: int): Run {
    s.(vars := s.vars[x := v], stores := s.stores + multiset{x})
  }

  // A store into what an lvalue leads to, counted for every name it may belong to.
  function Put(e: Expr, s: Run): Run {
    s.(stores := s.stores + multiset(Reach(e)))
  }

  // The array a write creates where it found nothing.
  function Created(e: Expr, w: World, s: Run): Run {
    var next := s.(tick := s.tick + 1);
    if w.value(s.tick) == 0 then next
    else if e.Var? || e.Const? then Bind(next, e.name, w.value(s.tick))
    else Put(e, next)
  }

  function Eval(e: Expr, w: World, s: Run): Result
    decreases e, 1
  {
    match e
    case Absent => Done(0, s)
    case Atom => Draw(w, s)
    case Var(x) => Done(if x in s.vars then s.vars[x] else 0, s)
    case Const(_) => Draw(w, s)
    case StaticProp => Draw(w, s)
    case Index(_, _) => Operands(e, w, s)
    case Prop(_, _) => Operands(e, w, s)
    case Paren(x) => Eval(x, w, s)
    case Unary(step, x) =>
      var r := Eval(x, w, s);
      if r.Stop? then r else if step then Store(x, w.value(r.s.tick), w, r.s.(tick := r.s.tick + 1)) else Draw(w, r.s)
    case Binary(l, r) =>
      var a := Eval(l, w, s);
      if a.Stop? || w.value(a.s.tick) == 0 then a else Eval(r, w, a.s.(tick := a.s.tick + 1))
    case Coalesce(l, r) =>
      var a := Eval(l, w, s);
      if a.Stop? || w.value(a.s.tick) == 0 then a else Eval(r, w, a.s.(tick := a.s.tick + 1))
    case Ternary(c, t, f) =>
      var r := Eval(c, w, s);
      if r.Stop? then r else if r.v != 0 then Eval(t, w, r.s) else Eval(f, w, r.s)
    case Parts(xs) => EvalAll(xs, w, s)
    case Named(how, args) =>
      var r := Eval(how, w, s);
      if r.Stop? then r else EvalAll(args, w, r.s)
    case MethodCall(base, m, args) =>
      var r := Operands(e, w, s);
      if r.Stop? then r else EvalAll(args, w, r.s)
    case Call(args) =>
      var r := EvalAll(args, w, s);
      if r.Stop? then r else Draw(w, WriteBack(args, w, r.s))
    case Assign(_, _, _) => AssignValue(e, w, s)
    case ListExpr(_) => Stop(false, s)
    case Include => Draw(w, Bind(s, w.name(s.tick), w.value(s.tick)))
    case Closure => Draw(w, s)
    case Ref(x) => Eval(x, w, s)
  }

  function Second(e: Expr): (r: Expr)
    requires e.Index? || e.Prop? || e.MethodCall?
    ensures r < e
  {
    match e
    case Index(_, key) => key
    case Prop(_, n) => n
    case MethodCall(_, m, _) => m
  }

  function Operands(e: Expr, w: World, s: Run): Result
    requires e.Index? || e.Prop? || e.MethodCall?
    decreases e, 0
  {
    var r := Eval(e.base, w, s);
    if r.Stop? then r else
    var k := Eval(Second(e), w, r.s);
    if k.Stop? then k else Draw(w, k.s)
  }

  function EvalAll(xs: seq<Expr>, w: World, s: Run): Result
    decreases xs
  {
    if xs == [] then Draw(w, s) else
    var r := Eval(xs[0], w, s);
    if r.Stop? then r else EvalAll(xs[1..], w, r.s)
  }

  // A call may write to any argument that is a name.
  function WriteBack(args: seq<Expr>, w: World, s: Run): Run {
    if args == [] then s else
    var next := s.(tick := s.tick + 1);
    var x := Unwrap(args[0]);
    WriteBack(args[1..], w, if (x.Var? || x.Const?) && w.value(s.tick) != 0 then Bind(next, x.name, w.value(s.tick)) else next)
  }

  // Where an index assignment lands.
  function Container(e: Expr, w: World, s: Run): Result
    decreases e, 2
  {
    match e
    case Paren(x) => Container(x, w, s)
    case Index(base, key) =>
      if key == Absent then Eval(e, w, s) else
      var b := Container(base, w, s);
      if b.Stop? then b else
      var k := Eval(key, w, b.s);
      if k.Stop? then k else Draw(w, Created(e, w, k.s))
    case Prop(_, _) =>
      var r := Operands(e, w, s);
      if r.Stop? then r else Draw(w, Created(e, w, r.s))
    case Var(_) => Draw(w, Created(e, w, s))
    case Const(_) =>
      var r := Eval(e, w, s);
      if r.Stop? then r else Draw(w, Created(e, w, r.s))
    case _ => Eval(e, w, s)
  }

  // Writes a value into an lvalue, running its operands.
  function Store(target: Expr, v: int, w: World, s: Run): Result
    decreases target, 3
  {
    match target
    case Paren(x) => Store(x, v, w, s)
    case Var(x) => Done(v, Bind(s, x, v))
    case Const(x) => Done(v, Bind(s, x, v))
    case StaticProp => Draw(w, s)
    case Prop(_, _) =>
      var r := Operands(target, w, s);
      if r.Stop? then r else Draw(w, Put(target, r.s))
    case Index(base, key) =>
      var b := Container(base, w, s);
      if b.Stop? then b else
      var k := Eval(key, w, b.s);
      if k.Stop? then k else Draw(w, Put(target, k.s))
    case _ => Stop(false, s)
  }

  function StoreEach(elems: seq<Expr>, w: World, s: Run): Result
    decreases elems
  {
    if elems == [] then Draw(w, s)
    else if elems[0] == Absent then StoreEach(elems[1..], w, s)
    else
      var r := Store(elems[0], w.value(s.tick), w, s.(tick := s.tick + 1));
      if r.Stop? then r else StoreEach(elems[1..], w, r.s)
  }

  // The operands of an element or a property run before the value.
  function AssignValue(e: Expr, w: World, s: Run): Result
    requires e.Assign?
    decreases e, 0
  {
    var t := Unwrap(e.target);
    if t.Index? || t.Prop? then
      var b := if t.Index? then Container(t.base, w, s) else Eval(t.base, w, s);
      if b.Stop? then b else
      var k := Eval(Second(t), w, b.s);
      if k.Stop? || (e.op == IfNull && w.value(k.s.tick) == 0) then k else
      var r := Eval(e.value, w, k.s);
      if r.Stop? then r else Draw(w, Put(t, r.s))
    else if t.Var? && e.op == IfNull && t.name in s.vars && s.vars[t.name] != 0 then Done(s.vars[t.name], s)
    else if (t.Const? || t.StaticProp?) && e.op == IfNull && w.value(s.tick) != 0 then Draw(w, s)
    else
      var r := Eval(e.value, w, s);
      if r.Stop? then r
      else if t.Var? || t.Const? then
        var d := if e.op == Compound then Draw(w, r.s) else r;
        if d.Stop? then d else Done(d.v, Bind(d.s, t.name, d.v))
      else if t.ListExpr? then StoreEach(t.elems, w, r.s)
      else if t.StaticProp? then Draw(w, r.s)
      else Stop(false, r.s)
  }

  // The fuel bounds how often loops go round, so a run may stop anywhere inside one.
  function Exec(ss: seq<Stmt>, w: World, s: Run, fuel: nat): Out
    decreases fuel, ss
  {
    if ss == [] then Out(Normal, s) else
    var o := ExecOne(ss[0], w, s, fuel);
    if o.flow == Normal || (o.flow == Failed && w.handled) then Exec(ss[1..], w, o.s, fuel) else o
  }

  function Ended(r: Result, flow: Flow): Out {
    if r.Done? then Out(flow, r.s) else Out(if r.exit then Exited else Failed, r.s)
  }

  function ExecOne(n: Stmt, w: World, s: Run, fuel: nat): Out
    decreases fuel, n, 1
  {
    match n
    case NoStmt => Out(Normal, s)
    case ExprStmt(x) => Ended(Eval(x, w, s), Normal)
    case Echo(args) => Ended(EvalAll(args, w, s), Normal)
    case If(c, t, f) =>
      var r := Eval(c, w, s);
      if r.Stop? then Ended(r, Normal) else Exec(if r.v != 0 then t else f, w, r.s, fuel)
    case For(init, _, _, _) =>
      var o := ExecOne(init, w, s, fuel);
      if o.flow == Failed || o.flow == Exited then o else ForLoop(n, w, o.s, fuel)
    case Foreach(source, _, _, _, _) =>
      var r := Eval(source, w, s);
      if r.Stop? then Ended(r, Normal) else ForeachLoop(n, w, r.s, fuel)
    case Switch(c, cases, d) =>
      var r := Eval(c, w, s);
      if r.Stop? then Ended(r, Normal) else
      var m := ExecCases(cases, false, w, r.s, fuel);
      if m.1 then Switched(m.0) else Switched(Exec(d, w, m.0.s, fuel))
    case Try(body, catches, f) =>
      var o := Exec(body, w, s, fuel);
      if o.flow == Exited then o else
      var c := if o.flow == Failed then ExecCatches(catches, w, o.s, fuel) else o;
      var last := Exec(f, w, c.s, fuel);
      if last.flow == Normal then Out(c.flow, last.s) else last
    case Return(v) => Ended(Eval(v, w, s), Returned)
    case Throw(x) =>
      var r := Eval(x, w, s);
      if r.Stop? then Ended(r, Normal) else Out(Failed, r.s)
    case Unset(targets) => Ended(UnsetAll(targets, w, s), Normal)
    case Break => Out(Broke, s)
    case Continue => Out(Continued, s)
    case DoWhile(_, _) => DoLoop(n, w, s, fuel)
    case Declare(body) => Exec(body, w, s, fuel)
    case StaticVar(x, init) =>
      var next := s.(tick := s.tick + 1);
      var r := if w.value(s.tick) == 0 then Done(0, next) else Eval(init, w, next);
      if r.Stop? then Ended(r, Normal) else Out(Normal, Bind(r.s, x, w.value(r.s.tick)))
    case ConstDecl(v) => Ended(Eval(v, w, s), Normal)
  }

  function ForLoop(n: Stmt, w: World, s: Run, fuel: nat): Out
    requires n.For?
    decreases fuel, n, 0
  {
    if fuel == 0 then Out(Exited, s) else
    var c := Eval(n.cond, w, s);
    if c.Stop? then Ended(c, Normal)
    else if n.cond != Absent && c.v == 0 then Out(Normal, c.s)
    else
      var o := Exec(n.body, w, c.s, fuel);
      if o.flow == Broke then Out(Normal, o.s)
      else if o.flow != Normal && o.flow != Continued then o
      else
        var post := ExecOne(n.post, w, o.s, fuel);
        if post.flow == Failed || post.flow == Exited then post else ForLoop(n, w, post.s, fuel - 1)
  }

  function DoLoop(n: Stmt, w: World, s: Run, fuel: nat): Out
    requires n.DoWhile?
    decreases fuel, n, 0
  {
    if fuel == 0 then Out(Exited, s) else
    var o := Exec(n.body, w, s, fuel);
    if o.flow == Broke then Out(Normal, o.s)
    else if o.flow != Normal && o.flow != Continued then o
    else
      var c := Eval(n.cond, w, o.s);
      if c.Stop? then Ended(c, Normal) else if c.v == 0 then Out(Normal, c.s) else DoLoop(n, w, c.s, fuel - 1)
  }

  // One pass for each element the source turns out to have.
  function ForeachLoop(n: Stmt, w: World, s: Run, fuel: nat): Out
    requires n.Foreach?
    decreases fuel, n, 0
  {
    if fuel == 0 then Out(Exited, s)
    else if w.value(s.tick) == 0 then Out(Normal, s.(tick := s.tick + 1))
    else
      var k := if n.key == Absent then Done(0, s) else Store(n.key, w.value(s.tick), w, s);
      if k.Stop? then Ended(k, Normal) else
      var v := Store(n.val, w.value(k.s.tick), w, k.s.(tick := k.s.tick + 1));
      if v.Stop? then Ended(v, Normal) else
      var o := Exec(n.body, w, v.s, fuel);
      if o.flow == Failed || o.flow == Exited then o else
      var back := if n.byRef then WrittenBack(n, w, o.s) else o.s;
      if o.flow == Broke then Out(Normal, back)
      else if o.flow == Returned then Out(Returned, back)
      else ForeachLoop(n, w, back, fuel - 1)
  }

  // The element a by-reference loop sets in its source.
  function WrittenBack(n: Stmt, w: World, s: Run): Run
    requires n.Foreach?
    decreases n
  {
    var r := Eval(n.val, w, s);
    if r.Stop? then r.s else Put(n.source, r.s)
  }

  // A case that matched falls through to the next. Also whether one matched.
  function ExecCases(cs: seq<Case>, matched: bool, w: World, s: Run, fuel: nat): (Out, bool)
    decreases fuel, cs
  {
    if cs == [] then (Out(Normal, s), matched) else
    var r := if matched then Done(1, s) else CaseTest(cs[0], w, s);
    if r.Stop? then (Ended(r, Normal), true)
    else if r.v == 0 then ExecCases(cs[1..], false, w, r.s, fuel)
    else
      var o := ExecCase(cs[0], w, r.s, fuel);
      if o.flow == Normal then ExecCases(cs[1..], true, w, o.s, fuel) else (o, true)
  }

  function CaseTest(c: Case, w: World, s: Run): Result {
    var r := Eval(c.value, w, s);
    if r.Stop? then r else Done(w.value(r.s.tick), r.s.(tick := r.s.tick + 1))
  }

  function ExecCase(c: Case, w: World, s: Run, fuel: nat): Out
    decreases fuel, c
  {
    Exec(c.body, w, s, fuel)
  }

  function Switched(o: Out): Out {
    if o.flow == Broke then Out(Normal, o.s) else o
  }

  // The first clause that takes the error binds it.
  function ExecCatches(cs: seq<Catch>, w: World, s: Run, fuel: nat): Out
    decreases fuel, cs
  {
    if cs == [] then Out(Failed, s)
    else if w.value(s.tick) == 0 then ExecCatches(cs[1..], w, s.(tick := s.tick + 1), fuel)
    else ExecCatch(cs[0], w, s.(tick := s.tick + 1), fuel)
  }

  function ExecCatch(c: Catch, w: World, s: Run, fuel: nat): Out
    decreases fuel, c
  {
    Exec(c.body, w, if c.name == "" then s else Bind(s, c.name, w.value(s.tick)), fuel)
  }

  function UnsetAll(targets: seq<Expr>, w: World, s: Run): Result {
    if targets == [] then Draw(w, s) else
    var r := UnsetOne(targets[0], w, s);
    if r.Stop? then r else UnsetAll(targets[1..], w, r.s)
  }

  // A native slice that lost an element is stored again where it was read.
  function UnsetOne(target: Expr, w: World, s: Run): Result {
    var t := Unwrap(target);
    if t.Var? || t.Const? then Done(0, s.(vars := s.vars - {t.name}, stores := s.stores + multiset{t.name}))
    else if t.Prop? || t.Index? then
      var r := Operands(t, w, s);
      if r.Stop? || t.Prop? || r.v == 0 then (if r.Stop? then r else Done(0, Put(t, r.s)))
      else Store(t.base, r.v, w, r.s)
    else if t.StaticProp? then Draw(w, s)
    else Stop(false, s)
  }

  // ---- nothing gets past the analysis but what it overlooks ----

  // What a run knows of one name: how often it was stored through, whether it is bound, and to what.
  function Mark(s: Run, root: string): (nat, bool, int) {
    (s.stores[root], root in s.vars, if root in s.vars then s.vars[root] else 0)
  }

  predicate Quiet(e: Expr, root: string) {
    root != "" && !ExprAssigns(e, root) && !ExprOverlooks(e, root)
  }

  predicate AllQuiet(xs: seq<Expr>, root: string) {
    root != "" && !ExprsAssign(xs, root) && !ExprsOverlook(xs, root)
  }

  // A store to the target reaches other names only.
  predicate Elsewhere(e: Expr, root: string) {
    root !in Reach(e)
  }

  lemma BindOther(s: Run, x: string, v: int, root: string)
    requires x != root
    ensures Mark(Bind(s, x, v), root) == Mark(s, root)
  {
  }

  lemma PutOther(e: Expr, s: Run, root: string)
    requires Elsewhere(e, root)
    ensures Mark(Put(e, s), root) == Mark(s, root)
  {
  }

  lemma CreatedOther(e: Expr, w: World, s: Run, root: string)
    requires Elsewhere(e, root)
    ensures Mark(Created(e, w, s), root) == Mark(s, root)
  {
  }

  lemma DrawOther(w: World, s: Run, root: string)
    ensures Mark(Draw(w, s).s, root) == Mark(s, root) && Mark(s.(tick := s.tick + 1), root) == Mark(s, root)
  {
  }

  lemma {:induction false} UnwrapQuiet(e: Expr, root: string)
    ensures ExprAssigns(Unwrap(e), root) == ExprAssigns(e, root) && ExprOverlooks(Unwrap(e), root) == ExprOverlooks(e, root)
    ensures Root(Unwrap(e)) == Root(e) && Reach(Unwrap(e)) == Reach(e)
  {
    if e.Paren? { UnwrapQuiet(e.x, root); }
  }

  lemma TargetClear(e: Expr, root: string)
    requires !TargetOverlooks(e, root) && Root(e) != root
    ensures Elsewhere(e, root)
  {
    UnwrapQuiet(e, root);
  }

  lemma {:induction false} EvalKeeps(e: Expr, root: string, w: World, s: Run)
    requires Quiet(e, root)
    ensures Mark(Eval(e, w, s).s, root) == Mark(s, root)
    decreases e, 1
  {
    hide Mark, Draw, Store, WriteBack, AssignValue, Operands, EvalAll, Bind, Reach, TargetOverlooks;
    DrawOther(w, s, root);
    match e
    case Absent =>
    case Atom =>
    case Var(_) =>
    case Const(_) =>
    case StaticProp =>
    case Index(_, _) => OperandsKeep(e, root, w, s);
    case Prop(_, _) => OperandsKeep(e, root, w, s);
    case Paren(x) => EvalKeeps(x, root, w, s);
    case Unary(step, x) =>
      EvalKeeps(x, root, w, s);
      var r := Eval(x, w, s);
      DrawOther(w, r.s, root);
      if step {
        TargetClear(x, root);
        StoreKeeps(x, w.value(r.s.tick), root, w, r.s.(tick := r.s.tick + 1));
      }
    case Binary(_, _) => BothKeep(e, root, w, s);
    case Coalesce(_, _) => BothKeep(e, root, w, s);
    case Ternary(c, t, f) =>
      EvalKeeps(c, root, w, s);
      var r := Eval(c, w, s);
      EvalKeeps(t, root, w, r.s);
      EvalKeeps(f, root, w, r.s);
    case Parts(xs) => EvalAllKeeps(xs, root, w, s);
    case Named(how, args) =>
      EvalKeeps(how, root, w, s);
      EvalAllKeeps(args, root, w, Eval(how, w, s).s);
    case MethodCall(_, _, args) =>
      OperandsKeep(e, root, w, s);
      EvalAllKeeps(args, root, w, Operands(e, w, s).s);
    case Call(args) =>
      EvalAllKeeps(args, root, w, s);
      var r := EvalAll(args, w, s);
      WriteBackKeeps(args, root, w, r.s);
      DrawOther(w, WriteBack(args, w, r.s), root);
    case Assign(_, _, _) => AssignKeeps(e, root, w, s);
    case ListExpr(_) =>
    case Closure =>
    case Ref(x) => EvalKeeps(x, root, w, s);
  }

  lemma {:induction false} BothKeep(e: Expr, root: string, w: World, s: Run)
    requires (e.Binary? || e.Coalesce?) && Quiet(e.left, root) && Quiet(e.right, root)
    ensures
      var a := Eval(e.left, w, s);
      Mark(a.s, root) == Mark(s, root) && Mark(Eval(e.right, w, a.s.(tick := a.s.tick + 1)).s, root) == Mark(s, root)
    decreases e, 0
  {
    hide Mark, Eval, Quiet;
    var a := Eval(e.left, w, s);
    EvalKeeps(e.left, root, w, s);
    DrawOther(w, a.s, root);
    EvalKeeps(e.right, root, w, a.s.(tick := a.s.tick + 1));
  }

  lemma {:induction false} OperandsKeep(e: Expr, root: string, w: World, s: Run)
    requires e.Index? || e.Prop? || e.MethodCall?
    requires Quiet(e.base, root) && Quiet(Second(e), root)
    ensures Mark(Operands(e, w, s).s, root) == Mark(s, root)
    decreases e, 0
  {
    hide Mark, Draw, Eval, Quiet;
    EvalKeeps(e.base, root, w, s);
    var r := Eval(e.base, w, s);
    EvalKeeps(Second(e), root, w, r.s);
    DrawOther(w, Eval(Second(e), w, r.s).s, root);
  }

  lemma {:induction false} EvalAllKeeps(xs: seq<Expr>, root: string, w: World, s: Run)
    requires AllQuiet(xs, root)
    ensures Mark(EvalAll(xs, w, s).s, root) == Mark(s, root)
    decreases xs
  {
    hide Mark, Draw, Eval, ExprAssigns, ExprOverlooks;
    if xs == [] {
      DrawOther(w, s, root);
    } else {
      EvalKeeps(xs[0], root, w, s);
      EvalAllKeeps(xs[1..], root, w, Eval(xs[0], w, s).s);
    }
  }

  lemma {:induction false} WriteBackKeeps(args: seq<Expr>, root: string, w: World, s: Run)
    requires !CallWritesBack(args, root) && !ConstArgument(args, root)
    ensures Mark(WriteBack(args, w, s), root) == Mark(s, root)
    decreases |args|
  {
    hide Mark;
    if args != [] {
      var next := s.(tick := s.tick + 1);
      DrawOther(w, s, root);
      var x := Unwrap(args[0]);
      if x.Var? || x.Const? { BindOther(next, x.name, w.value(s.tick), root); }
      assert forall k :: 0 <= k < |args[1..]| ==> args[1..][k] == args[k + 1];
      WriteBackKeeps(args[1..], root, w, if (x.Var? || x.Const?) && w.value(s.tick) != 0 then Bind(next, x.name, w.value(s.tick)) else next);
    }
  }

  lemma {:induction false} ContainerKeeps(e: Expr, root: string, w: World, s: Run)
    requires Quiet(e, root) && Elsewhere(e, root)
    ensures Mark(Container(e, w, s).s, root) == Mark(s, root)
    decreases e, 2
  {
    hide Mark, Draw, Eval, Created, Operands;
    match e
    case Paren(x) => ContainerKeeps(x, root, w, s);
    case Index(base, key) =>
      if key == Absent {
        EvalKeeps(e, root, w, s);
      } else {
        ContainerKeeps(base, root, w, s);
        var b := Container(base, w, s);
        EvalKeeps(key, root, w, b.s);
        var k := Eval(key, w, b.s);
        CreatedOther(e, w, k.s, root);
        DrawOther(w, Created(e, w, k.s), root);
      }
    case Prop(_, _) =>
      OperandsKeep(e, root, w, s);
      var r := Operands(e, w, s);
      CreatedOther(e, w, r.s, root);
      DrawOther(w, Created(e, w, r.s), root);
    case Var(_) =>
      CreatedOther(e, w, s, root);
      DrawOther(w, Created(e, w, s), root);
    case Const(_) =>
      EvalKeeps(e, root, w, s);
      var r := Eval(e, w, s);
      CreatedOther(e, w, r.s, root);
      DrawOther(w, Created(e, w, r.s), root);
    case _ => EvalKeeps(e, root, w, s);
  }

  lemma {:induction false} StoreKeeps(target: Expr, v: int, root: string, w: World, s: Run)
    requires Quiet(target, root) && Elsewhere(target, root)
    ensures Mark(Store(target, v, w, s).s, root) == Mark(s, root)
    decreases target, 3
  {
    hide Mark, Draw, Eval, Put, Operands, Container, Bind;
    match target
    case Paren(x) => StoreKeeps(x, v, root, w, s);
    case Var(x) => BindOther(s, x, v, root);
    case Const(x) => BindOther(s, x, v, root);
    case StaticProp => DrawOther(w, s, root);
    case Prop(_, _) =>
      OperandsKeep(target, root, w, s);
      var r := Operands(target, w, s);
      PutOther(target, r.s, root);
      DrawOther(w, Put(target, r.s), root);
    case Index(base, key) =>
      ContainerKeeps(base, root, w, s);
      var b := Container(base, w, s);
      EvalKeeps(key, root, w, b.s);
      var k := Eval(key, w, b.s);
      PutOther(target, k.s, root);
      DrawOther(w, Put(target, k.s), root);
    case _ =>
  }

  lemma {:induction false} StoreEachKeeps(elems: seq<Expr>, root: string, w: World, s: Run)
    requires AllQuiet(elems, root)
    requires forall k :: 0 <= k < |elems| && elems[k] != Absent ==> Elsewhere(elems[k], root)
    ensures Mark(StoreEach(elems, w, s).s, root) == Mark(s, root)
    decreases elems
  {
    hide Mark, Draw, Store, ExprAssigns, ExprOverlooks;
    DrawOther(w, s, root);
    if elems != [] {
      var next := s.(tick := s.tick + 1);
      assert forall k :: 0 <= k < |elems[1..]| ==> elems[1..][k] == elems[k + 1];
      if elems[0] == Absent {
        StoreEachKeeps(elems[1..], root, w, s);
      } else {
        StoreKeeps(elems[0], w.value(s.tick), root, w, next);
        StoreEachKeeps(elems[1..], root, w, Store(elems[0], w.value(s.tick), w, next).s);
      }
    }
  }

  lemma {:induction false} AssignKeeps(e: Expr, root: string, w: World, s: Run)
    requires e.Assign? && Quiet(e, root)
    ensures Mark(AssignValue(e, w, s).s, root) == Mark(s, root)
    decreases e, 0
  {
    hide Mark, Draw, Eval, Put, Container, Bind, StoreEach;
    var t := Unwrap(e.target);
    UnwrapQuiet(e.target, root);
    TargetClear(e.target, root);
    assert Quiet(t, root) && Elsewhere(t, root);
    DrawOther(w, s, root);
    if t.Index? || t.Prop? {
      if t.Index? { ContainerKeeps(t.base, root, w, s); } else { EvalKeeps(t.base, root, w, s); }
      var b := if t.Index? then Container(t.base, w, s) else Eval(t.base, w, s);
      EvalKeeps(Second(t), root, w, b.s);
      var k := Eval(Second(t), w, b.s);
      EvalKeeps(e.value, root, w, k.s);
      var r := Eval(e.value, w, k.s);
      PutOther(t, r.s, root);
      DrawOther(w, Put(t, r.s), root);
    } else {
      EvalKeeps(e.value, root, w, s);
      var r := Eval(e.value, w, s);
      DrawOther(w, r.s, root);
      if (t.Var? || t.Const?) && r.Done? {
        var d := if e.op == Compound then Draw(w, r.s) else r;
        if d.Done? { BindOther(d.s, t.name, d.v, root); }
      } else if t.ListExpr? {
        StoreEachKeeps(t.elems, root, w, r.s);
      }
    }
  }

  predicate StmtQuiet(n: Stmt, root: string) {
    root != "" && !StmtAssigns(n, root) && !StmtOverlooks(n, root)
  }

  predicate StmtsQuiet(ss: seq<Stmt>, root: string) {
    root != "" && !StmtsAssign(ss, root) && !StmtsOverlook(ss, root)
  }

  predicate CasesQuiet(cs: seq<Case>, root: string) {
    root != "" && !CasesAssign(cs, root) && !CasesOverlook(cs, root)
  }

  predicate CatchesQuiet(cs: seq<Catch>, root: string) {
    root != "" && !CatchesAssign(cs, root) && !CatchesOverlook(cs, root)
  }

  lemma {:induction false} ExecKeeps(ss: seq<Stmt>, root: string, w: World, s: Run, fuel: nat)
    requires StmtsQuiet(ss, root)
    ensures Mark(Exec(ss, w, s, fuel).s, root) == Mark(s, root)
    decreases fuel, ss
  {
    hide Mark, ExecOne, StmtAssigns, StmtOverlooks;
    if ss != [] {
      ExecOneKeeps(ss[0], root, w, s, fuel);
      ExecKeeps(ss[1..], root, w, ExecOne(ss[0], w, s, fuel).s, fuel);
    }
  }

  lemma {:induction false} ExecOneKeeps(n: Stmt, root: string, w: World, s: Run, fuel: nat)
    requires StmtQuiet(n, root)
    ensures Mark(ExecOne(n, w, s, fuel).s, root) == Mark(s, root)
    decreases fuel, n, 1
  {
    hide Mark, Eval, EvalAll, Exec, ForLoop, ForeachLoop, DoLoop, ExecCases, ExecCatches, UnsetAll, ExprAssigns, ExprOverlooks, Bind;
    match n
    case NoStmt =>
    case ExprStmt(x) => EvalKeeps(x, root, w, s);
    case Echo(args) => EvalAllKeeps(args, root, w, s);
    case If(c, t, f) =>
      EvalKeeps(c, root, w, s);
      ExecKeeps(t, root, w, Eval(c, w, s).s, fuel);
      ExecKeeps(f, root, w, Eval(c, w, s).s, fuel);
    case For(init, _, _, _) =>
      ExecOneKeeps(init, root, w, s, fuel);
      ForKeeps(n, root, w, ExecOne(init, w, s, fuel).s, fuel);
    case Foreach(source, _, _, _, _) =>
      EvalKeeps(source, root, w, s);
      ForeachKeeps(n, root, w, Eval(source, w, s).s, fuel);
    case Switch(c, cases, d) =>
      EvalKeeps(c, root, w, s);
      var r := Eval(c, w, s);
      CasesKeep(cases, false, root, w, r.s, fuel);
      ExecKeeps(d, root, w, ExecCases(cases, false, w, r.s, fuel).0.s, fuel);
    case Try(body, catches, f) =>
      ExecKeeps(body, root, w, s, fuel);
      var o := Exec(body, w, s, fuel);
      CatchesKeep(catches, root, w, o.s, fuel);
      var c := if o.flow == Failed then ExecCatches(catches, w, o.s, fuel) else o;
      ExecKeeps(f, root, w, c.s, fuel);
    case Return(v) => EvalKeeps(v, root, w, s);
    case Throw(x) => EvalKeeps(x, root, w, s);
    case Unset(targets) =>
      forall k | 0 <= k < |targets| ensures Elsewhere(targets[k], root) { TargetClear(targets[k], root); }
      UnsetAllKeeps(targets, root, w, s);
    case Break =>
    case Continue =>
    case DoWhile(_, _) => DoKeeps(n, root, w, s, fuel);
    case Declare(body) => ExecKeeps(body, root, w, s, fuel);
    case StaticVar(x, init) =>
      var next := s.(tick := s.tick + 1);
      DrawOther(w, s, root);
      EvalKeeps(init, root, w, next);
      var r := if w.value(s.tick) == 0 then Done(0, next) else Eval(init, w, next);
      BindOther(r.s, x, w.value(r.s.tick), root);
    case ConstDecl(v) => EvalKeeps(v, root, w, s);
  }

  lemma {:induction false} ForKeeps(n: Stmt, root: string, w: World, s: Run, fuel: nat)
    requires n.For? && StmtQuiet(n, root)
    ensures Mark(ForLoop(n, w, s, fuel).s, root) == Mark(s, root)
    decreases fuel, n, 0
  {
    hide Mark, Eval, Exec, ExecOne, ExprAssigns, ExprOverlooks, StmtsAssign, StmtsOverlook;
    if fuel > 0 {
      EvalKeeps(n.cond, root, w, s);
      var c := Eval(n.cond, w, s);
      ExecKeeps(n.body, root, w, c.s, fuel);
      var o := Exec(n.body, w, c.s, fuel);
      ExecOneKeeps(n.post, root, w, o.s, fuel);
      ForKeeps(n, root, w, ExecOne(n.post, w, o.s, fuel).s, fuel - 1);
    }
  }

  lemma {:induction false} DoKeeps(n: Stmt, root: string, w: World, s: Run, fuel: nat)
    requires n.DoWhile? && StmtQuiet(n, root)
    ensures Mark(DoLoop(n, w, s, fuel).s, root) == Mark(s, root)
    decreases fuel, n, 0
  {
    hide Mark, Eval, Exec, ExprAssigns, ExprOverlooks, StmtsAssign, StmtsOverlook;
    if fuel > 0 {
      ExecKeeps(n.body, root, w, s, fuel);
      var o := Exec(n.body, w, s, fuel);
      EvalKeeps(n.cond, root, w, o.s);
      DoKeeps(n, root, w, Eval(n.cond, w, o.s).s, fuel - 1);
    }
  }

  lemma {:induction false} ForeachKeeps(n: Stmt, root: string, w: World, s: Run, fuel: nat)
    requires n.Foreach? && StmtQuiet(n, root)
    ensures Mark(ForeachLoop(n, w, s, fuel).s, root) == Mark(s, root)
    decreases fuel, n, 0
  {
    hide Mark, Eval, Exec, Store, WrittenBack, ExprAssigns, ExprOverlooks, StmtsAssign, StmtsOverlook;
    DrawOther(w, s, root);
    if fuel > 0 && w.value(s.tick) != 0 {
      TargetClear(n.key, root);
      TargetClear(n.val, root);
      if n.key != Absent { StoreKeeps(n.key, w.value(s.tick), root, w, s); }
      var k := if n.key == Absent then Done(0, s) else Store(n.key, w.value(s.tick), w, s);
      var next := k.s.(tick := k.s.tick + 1);
      DrawOther(w, k.s, root);
      StoreKeeps(n.val, w.value(k.s.tick), root, w, next);
      var v := Store(n.val, w.value(k.s.tick), w, next);
      ExecKeeps(n.body, root, w, v.s, fuel);
      var o := Exec(n.body, w, v.s, fuel);
      if n.byRef { WrittenBackKeeps(n, root, w, o.s); }
      ForeachKeeps(n, root, w, if n.byRef then WrittenBack(n, w, o.s) else o.s, fuel - 1);
    }
  }

  lemma WrittenBackKeeps(n: Stmt, root: string, w: World, s: Run)
    requires n.Foreach? && n.byRef && StmtQuiet(n, root)
    ensures Mark(WrittenBack(n, w, s), root) == Mark(s, root)
  {
    hide Mark, Eval, ExprAssigns, ExprOverlooks, Put;
    EvalKeeps(n.val, root, w, s);
    PutOther(n.source, Eval(n.val, w, s).s, root);
  }

  lemma {:induction false} CasesKeep(cs: seq<Case>, matched: bool, root: string, w: World, s: Run, fuel: nat)
    requires CasesQuiet(cs, root)
    ensures Mark(ExecCases(cs, matched, w, s, fuel).0.s, root) == Mark(s, root)
    decreases fuel, cs
  {
    hide Mark, CaseTest, ExecCase, CaseAssigns, CaseOverlooks;
    if cs != [] {
      CaseKeeps(cs[0], root, w, s, fuel);
      var r := if matched then Done(1, s) else CaseTest(cs[0], w, s);
      CaseKeeps(cs[0], root, w, r.s, fuel);
      CasesKeep(cs[1..], false, root, w, r.s, fuel);
      CasesKeep(cs[1..], true, root, w, ExecCase(cs[0], w, r.s, fuel).s, fuel);
    }
  }

  lemma {:induction false} CaseKeeps(c: Case, root: string, w: World, s: Run, fuel: nat)
    requires root != "" && !CaseAssigns(c, root) && !CaseOverlooks(c, root)
    ensures Mark(CaseTest(c, w, s).s, root) == Mark(s, root) && Mark(ExecCase(c, w, s, fuel).s, root) == Mark(s, root)
    decreases fuel, c
  {
    hide Mark, Eval, Exec, ExprAssigns, ExprOverlooks, StmtsAssign, StmtsOverlook;
    EvalKeeps(c.value, root, w, s);
    DrawOther(w, Eval(c.value, w, s).s, root);
    ExecKeeps(c.body, root, w, s, fuel);
  }

  lemma {:induction false} CatchesKeep(cs: seq<Catch>, root: string, w: World, s: Run, fuel: nat)
    requires CatchesQuiet(cs, root)
    ensures Mark(ExecCatches(cs, w, s, fuel).s, root) == Mark(s, root)
    decreases fuel, cs
  {
    hide Mark, ExecCatch, CatchAssigns, CatchOverlooks;
    if cs != [] {
      DrawOther(w, s, root);
      CatchKeeps(cs[0], root, w, s.(tick := s.tick + 1), fuel);
      CatchesKeep(cs[1..], root, w, s.(tick := s.tick + 1), fuel);
    }
  }

  lemma {:induction false} CatchKeeps(c: Catch, root: string, w: World, s: Run, fuel: nat)
    requires root != "" && !CatchAssigns(c, root) && !CatchOverlooks(c, root)
    ensures Mark(ExecCatch(c, w, s, fuel).s, root) == Mark(s, root)
    decreases fuel, c
  {
    hide Mark, Exec, StmtsAssign, StmtsOverlook, Bind;
    BindOther(s, c.name, w.value(s.tick), root);
    ExecKeeps(c.body, root, w, if c.name == "" then s else Bind(s, c.name, w.value(s.tick)), fuel);
  }

  lemma {:induction false} UnsetAllKeeps(targets: seq<Expr>, root: string, w: World, s: Run)
    requires AllQuiet(targets, root) && forall k :: 0 <= k < |targets| ==> Elsewhere(targets[k], root)
    ensures Mark(UnsetAll(targets, w, s).s, root) == Mark(s, root)
    decreases |targets|
  {
    hide Mark, Draw, UnsetOne, ExprAssigns, ExprOverlooks;
    if targets == [] {
      DrawOther(w, s, root);
    } else {
      assert forall k :: 0 <= k < |targets[1..]| ==> targets[1..][k] == targets[k + 1];
      UnsetOneKeeps(targets[0], root, w, s);
      UnsetAllKeeps(targets[1..], root, w, UnsetOne(targets[0], w, s).s);
    }
  }

  lemma UnsetOneKeeps(target: Expr, root: string, w: World, s: Run)
    requires Quiet(target, root) && Elsewhere(target, root)
    ensures Mark(UnsetOne(target, w, s).s, root) == Mark(s, root)
  {
    hide Operands, Put, Store;
    UnwrapQuiet(target, root);
    DrawOther(w, s, root);
    var t := Unwrap(target);
    if t.Prop? || t.Index? {
      OperandsKeep(t, root, w, s);
      var r := Operands(t, w, s);
      PutOther(t, r.s, root);
      if t.Index? && r.Done? { StoreKeeps(t.base, r.v, root, w, r.s); }
    }
  }

  /**
   Where AssignsTo says no and the body holds nothing it overlooks, no run of the body, whatever its
   operations answer and wherever it fails or stops, stores through the loop variable or rebinds it.
   Binding the element without a copy is then not seen through the loop variable.
   */
  lemma NoCopyNeeded(target: Expr, body: seq<Stmt>, w: World, s: Run, fuel: nat)
    requires !AssignsTo(target, body) && !StmtsOverlook(body, Root(target))
    ensures Mark(Exec(body, w, s, fuel).s, Root(target)) == Mark(s, Root(target))
  {
    ExecKeeps(body, Root(target), w, s, fuel);
  }

  // ---- each of the things it overlooks stores behind its back ----

  lemma Alone(n: Stmt, x: string, w: World, s: Run, fuel: nat)
    ensures Exec([n], w, s, fuel).s == ExecOne(n, w, s, fuel).s
    ensures StmtsAssign([n], x) == StmtAssigns(n, x)
  {
    hide ExecOne, StmtAssigns;
    assert [n][1..] == [];
    var o := ExecOne(n, w, s, fuel);
    assert Exec([], w, o.s, fuel) == Out(Normal, o.s);
    assert !StmtsAssign([], x);
  }

  /** A declare block does whatever its body does and is never looked into. */
  lemma DeclareHides(x: string, inner: seq<Stmt>, w: World, s: Run, fuel: nat)
    requires x != ""
    ensures !AssignsTo(Var(x), [Declare(inner)]) && Exec([Declare(inner)], w, s, fuel).s == Exec(inner, w, s, fuel).s
  {
    Alone(Declare(inner), x, w, s, fuel);
  }

  /** So does a do-while loop, here one that goes round once. */
  lemma DoWhileHides(x: string, inner: seq<Stmt>, cond: Expr, w: World, s: Run, fuel: nat)
    requires x != "" && fuel > 0
    requires var t := Exec(inner, w, s, fuel).s; Eval(cond, w, t) == Done(0, t)
    ensures !AssignsTo(Var(x), [DoWhile(inner, cond)])
    ensures Exec([DoWhile(inner, cond)], w, s, fuel).s == Exec(inner, w, s, fuel).s
  {
    hide Eval;
    Alone(DoWhile(inner, cond), x, w, s, fuel);
  }

  /** `static $x;` rebinds the name. */
  lemma StaticHides(x: string, w: World, s: Run, fuel: nat)
    requires x != ""
    ensures !AssignsTo(Var(x), [StaticVar(x, Absent)])
    ensures Mark(Exec([StaticVar(x, Absent)], w, s, fuel).s, x) == (s.stores[x] + 1, true, w.value(s.tick + 1))
  {
    Alone(StaticVar(x, Absent), x, w, s, fuel);
    var next := s.(tick := s.tick + 1);
    assert Eval(Absent, w, next) == Done(0, next);
  }

  /** `const X = ...;` does whatever its value does. */
  lemma ConstDeclHides(x: string, value: Expr, w: World, s: Run, fuel: nat)
    requires x != ""
    ensures !AssignsTo(Var(x), [ConstDecl(value)]) && Exec([ConstDecl(value)], w, s, fuel).s == Eval(value, w, s).s
  {
    hide Eval;
    Alone(ConstDecl(value), x, w, s, fuel);
  }

  /** So does the expression that names the class of a `new`. */
  lemma ClassNameHides(x: string, how: Expr, w: World, s: Run, fuel: nat)
    requires x != ""
    ensures
      var body := [ExprStmt(Named(how, []))];
      !AssignsTo(Var(x), body) && Mark(Exec(body, w, s, fuel).s, x) == Mark(Eval(how, w, s).s, x)
  {
    hide Mark, Draw;
    Alone(ExprStmt(Named(how, [])), x, w, s, fuel);
    assert !ExprsAssign([], x);
    var r := Eval(how, w, s);
    assert EvalAll([], w, r.s) == Draw(w, r.s);
    DrawOther(w, r.s, x);
  }

  /** `f(x)`, without the dollar, binds the variable where f has an output parameter there. */
  lemma ArgumentHides(x: string, w: World, s: Run, fuel: nat)
    requires x != "" && (forall i :: w.fate(i) == Goes) && w.value(s.tick + 2) != 0
    ensures
      var body := [ExprStmt(Call([Const(x)]))];
      !AssignsTo(Var(x), body) && Mark(Exec(body, w, s, fuel).s, x) == (s.stores[x] + 1, true, w.value(s.tick + 2))
  {
    hide Eval;
    var args := [Const(x)];
    Alone(ExprStmt(Call(args)), x, w, s, fuel);
    ConstUnseen(x);
    ConstBound(x, w, s);
    var r := Draw(w, Draw(w, s).s);
    DrawOther(w, WriteBack(args, w, r.s), x);
    CallRuns(args, w, s);
  }

  lemma ConstUnseen(x: string)
    ensures !ExprAssigns(Call([Const(x)]), x)
  {
    var args := [Const(x)];
    assert args[1..] == [] && !ExprsAssign([], x) && !ExprAssigns(Const(x), x);
    assert Unwrap(args[0]) == Const(x);
  }

  lemma CallRuns(args: seq<Expr>, w: World, s: Run)
    requires EvalAll(args, w, s).Done?
    ensures Eval(Call(args), w, s) == Draw(w, WriteBack(args, w, EvalAll(args, w, s).s))
  {
  }

  lemma ConstBound(x: string, w: World, s: Run)
    requires (forall i :: w.fate(i) == Goes) && w.value(s.tick + 2) != 0
    ensures EvalAll([Const(x)], w, s) == Draw(w, Draw(w, s).s)
    ensures Mark(WriteBack([Const(x)], w, Draw(w, Draw(w, s).s).s), x) == (s.stores[x] + 1, true, w.value(s.tick + 2))
  {
    var args := [Const(x)];
    assert args[1..] == [] && Unwrap(Const(x)) == Const(x);
    var one := Draw(w, s);
    assert Eval(Const(x), w, s) == one;
    assert EvalAll([], w, one.s) == Draw(w, one.s);
    var r := Draw(w, one.s);
    var bound := Bind(r.s.(tick := r.s.tick + 1), x, w.value(r.s.tick));
    assert WriteBack([], w, bound) == bound;
  }

  /** `($x ?? [])["k"] = ...` stores into what the variable holds. */
  lemma HandedOnHides(x: string, w: World, s: Run, fuel: nat)
    requires x != "" && forall i :: w.fate(i) == Goes
    ensures
      var body := [ExprStmt(Assign(Index(Paren(Coalesce(Var(x), Atom)), Atom), Plain, Atom))];
      !AssignsTo(Var(x), body) && Exec(body, w, s, fuel).s.stores[x] == s.stores[x] + 1
  {
    hide Eval;
    var t := Index(Paren(Coalesce(Var(x), Atom)), Atom);
    var e := Assign(t, Plain, Atom);
    Alone(ExprStmt(e), x, w, s, fuel);
    HandedOn(x);
    HandedOnStores(x, w, s);
    assert Unwrap(t) == t && !ExprAssigns(Atom, x);
  }

  lemma HandedOn(x: string)
    ensures var t := Index(Paren(Coalesce(Var(x), Atom)), Atom); Root(t) == "" && Reach(t) == {x}
  {
    var base := Coalesce(Var(x), Atom);
    assert Reach(Atom) == {} && Reach(Var(x)) == {x} && Reach(base) == {x} && Reach(Paren(base)) == {x};
    assert Root(base) == "" && Root(Paren(base)) == "";
  }

  lemma HandedOnStores(x: string, w: World, s: Run)
    requires forall i :: w.fate(i) == Goes
    ensures Eval(Assign(Index(Paren(Coalesce(Var(x), Atom)), Atom), Plain, Atom), w, s).s.stores[x] == s.stores[x] + 1
  {
    hide Store, Operands, EvalAll, WriteBack, StoreEach, Reach;
    var base := Coalesce(Var(x), Atom);
    var t := Index(Paren(base), Atom);
    var e := Assign(t, Plain, Atom);
    HandedOn(x);
    ReadOnly(x, w, s);
    var b := Eval(base, w, s);
    assert Unwrap(t) == t && Container(Paren(base), w, s) == Container(base, w, s) == b;
    var k := Draw(w, b.s);
    assert Eval(Atom, w, b.s) == k && Eval(Atom, w, k.s) == Draw(w, k.s);
    assert Eval(e, w, s) == AssignValue(e, w, s);
  }

  lemma ReadOnly(x: string, w: World, s: Run)
    requires forall i :: w.fate(i) == Goes
    ensures var r := Eval(Coalesce(Var(x), Atom), w, s); r.Done? && r.s.stores == s.stores
  {
    var a := Eval(Var(x), w, s);
    assert a.Done? && a.s == s;
    assert Eval(Atom, w, s.(tick := s.tick + 1)) == Draw(w, s.(tick := s.tick + 1));
  }

  /** `foreach ($x as &$y) {}` sets the elements of what the loop variable holds. */
  lemma ReferenceHides(x: string, y: string, w: World, s: Run)
    requires x != "" && x != y && w.value(s.tick) != 0
    ensures
      var body := [Foreach(Var(x), Absent, Var(y), true, [])];
      !AssignsTo(Var(x), body) && Exec(body, w, s, 1).s.stores[x] == s.stores[x] + 1
  {
    var n := Foreach(Var(x), Absent, Var(y), true, []);
    Alone(n, x, w, s, 1);
    assert !StmtsAssign([], x);
    assert Eval(Var(x), w, s).Done? && Eval(Var(x), w, s).s == s;
    var v := Bind(s.(tick := s.tick + 1), y, w.value(s.tick));
    assert Store(Var(y), w.value(s.tick), w, s.(tick := s.tick + 1)) == Done(w.value(s.tick), v);
    assert Exec([], w, v, 1) == Out(Normal, v);
    assert Eval(Var(y), w, v).s == v;
    assert ForeachLoop(n, w, Put(Var(x), v), 0).s == Put(Var(x), v);
  }

  /** `x = ...`, without the dollar, binds the loop variable all the same. */
  lemma ConstantHides(x: string, w: World, s: Run, fuel: nat)
    requires x != "" && forall i :: w.fate(i) == Goes
    ensures
      var body := [ExprStmt(Assign(Const(x), Plain, Atom))];
      !AssignsTo(Var(x), body) && Mark(Exec(body, w, s, fuel).s, x) == (s.stores[x] + 1, true, w.value(s.tick))
  {
    var e := Assign(Const(x), Plain, Atom);
    Alone(ExprStmt(e), x, w, s, fuel);
    assert Root(Const(x)) == "" && Unwrap(Const(x)) == Const(x) && !ExprAssigns(Atom, x);
    assert Eval(Atom, w, s) == Draw(w, s);
    assert Eval(e, w, s) == AssignValue(e, w, s);
  }

  lemma StepStores(x: string, w: World, s: Run)
    ensures
      var r := Eval(Unary(true, Var(x)), w, s);
      r.Done? && r.s.stores == s.stores + multiset{x}
  {
    var read := Eval(Var(x), w, s);
    assert read.Done? && read.s == s;
    assert Store(Var(x), w.value(s.tick), w, s.(tick := s.tick + 1)).Done?;
  }

  lemma StepInTarget(x: string, a: string, w: World, s: Run)
    requires x != a && forall i :: w.fate(i) == Goes
    ensures Eval(Assign(Index(Var(a), Unary(true, Var(x))), Plain, Atom), w, s).s.stores[x] == s.stores[x] + 1
  {
    hide Store, Operands, EvalAll, WriteBack, StoreEach;
    var key := Unary(true, Var(x));
    var t := Index(Var(a), key);
    var e := Assign(t, Plain, Atom);
    assert Root(t) == Root(Var(a)) == a && Unwrap(t) == t && Reach(t) == Reach(Var(a)) == {a};
    var b := Draw(w, Created(Var(a), w, s));
    assert Container(Var(a), w, s) == b && b.Done? && b.s.stores[x] == s.stores[x];
    StepStores(x, w, b.s);
    var k := Eval(key, w, b.s);
    assert Eval(Atom, w, k.s) == Draw(w, k.s);
    assert Eval(e, w, s) == AssignValue(e, w, s);
  }

  /** `$a[$x++] = ...` steps the loop variable among the operands of its target. */
  lemma OperandHides(x: string, a: string, w: World, s: Run, fuel: nat)
    requires x != "" && x != a && forall i :: w.fate(i) == Goes
    ensures
      var body := [ExprStmt(Assign(Index(Var(a), Unary(true, Var(x))), Plain, Atom))];
      !AssignsTo(Var(x), body) && Exec(body, w, s, fuel).s.stores[x] == s.stores[x] + 1
  {
    hide Eval;
    var t := Index(Var(a), Unary(true, Var(x)));
    Alone(ExprStmt(Assign(t, Plain, Atom)), x, w, s, fuel);
    StepInTarget(x, a, w, s);
    assert Root(t) == Root(Var(a)) == a && Unwrap(t) == t && !ExprAssigns(Atom, x);
  }
}
