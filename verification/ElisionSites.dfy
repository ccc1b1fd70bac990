/** What makes a by-value loop copy its elements: the places the analysis looks at that write the variable. */
module ElisionSites {
  import opened CopyElision

  // A place in a loop's body.
  datatype Site = AtExpr(e: Expr) | AtStmt(s: Stmt) | AtCatch(c: Catch)

  /** e names the variable, an element or a property of what it holds, or one of those again. */
  predicate Rooted(e: Expr, name: string)
    decreases e
  {
    match e
    case Var(x) => x == name
    case Index(base, _) => Rooted(base, name)
    case Prop(base, _) => Rooted(base, name)
    case Paren(x) => Rooted(x, name)
    case _ => false
  }

  /** e is u in some number of parentheses. */
  predicate Wraps(e: Expr, u: Expr)
    decreases e
  {
    if e.Paren? then Wraps(e.x, u) else e == u
  }

  /** A target that is rooted in the name, or a list of targets one of which is. */
  ghost predicate Targets(target: Expr, name: string) {
    Rooted(target, name) || exists elems, k :: Wraps(target, ListExpr(elems)) && 0 <= k < |elems| && Rooted(elems[k], name)
  }

  predicate Passed(args: seq<Expr>, name: string) {
    exists k :: 0 <= k < |args| && Wraps(args[k], Var(name))
  }

  /** The place itself may write the variable: an include may, whatever it includes. */
  ghost predicate Writes(site: Site, name: string) {
    match site
    case AtExpr(e) =>
      || e.Include?
      || (e.Unary? && e.step && Rooted(e.x, name))
      || (e.Assign? && Targets(e.target, name))
      || (e.Call? && Passed(e.args, name))
    case AtStmt(s) =>
      || (s.Foreach? && (Rooted(s.val, name) || Rooted(s.key, name) || Spelled(s.val, name) || Spelled(s.key, name)))
      || (s.Unset? && exists k :: 0 <= k < |s.targets| && Rooted(s.targets[k], name))
    case AtCatch(c) => c.name == name
  }

  predicate Spelled(e: Expr, name: string) {
    e == Var(name) || e == Const(name)
  }

  /**
   The analysis comes by p on its way through e. It stays out of a closure, of what stands behind `&`,
   of the target of an assignment and of the expression that names a class or a method.
   */
  predicate Seen(p: Expr, e: Expr)
    decreases e
  {
    p == e ||
    match e
    case Index(base, key) => Seen(p, base) || Seen(p, key)
    case Prop(base, n) => Seen(p, base) || Seen(p, n)
    case Paren(x) => Seen(p, x)
    case Unary(_, x) => Seen(p, x)
    case Binary(l, r) => Seen(p, l) || Seen(p, r)
    case Coalesce(l, r) => Seen(p, l) || Seen(p, r)
    case Ternary(c, t, f) => Seen(p, c) || Seen(p, t) || Seen(p, f)
    case Parts(xs) => exists k :: 0 <= k < |xs| && Seen(p, xs[k])
    case Named(_, args) => exists k :: 0 <= k < |args| && Seen(p, args[k])
    case MethodCall(base, _, args) => Seen(p, base) || exists k :: 0 <= k < |args| && Seen(p, args[k])
    case Call(args) => exists k :: 0 <= k < |args| && Seen(p, args[k])
    case Assign(_, _, value) => Seen(p, value)
    case ListExpr(elems) => exists k :: 0 <= k < |elems| && Seen(p, elems[k])
    case _ => false
  }

  predicate InExpr(site: Site, e: Expr) {
    site.AtExpr? && Seen(site.e, e)
  }

  /** The same of a statement. The analysis stays out of do-while loops, declare blocks and declarations. */
  predicate InStmt(site: Site, s: Stmt)
    decreases s
  {
    site == AtStmt(s) ||
    match s
    case ExprStmt(x) => InExpr(site, x)
    case Echo(args) => exists k :: 0 <= k < |args| && InExpr(site, args[k])
    case If(c, t, f) => InExpr(site, c) || InStmts(site, t) || InStmts(site, f)
    case For(init, c, post, body) => InStmt(site, init) || InExpr(site, c) || InStmt(site, post) || InStmts(site, body)
    case Foreach(source, _, _, _, body) => InExpr(site, source) || InStmts(site, body)
    case Switch(c, cases, d) =>
      || InExpr(site, c) || InStmts(site, d)
      || exists k :: 0 <= k < |cases| && (InExpr(site, cases[k].value) || InStmts(site, cases[k].body))
    case Try(body, catches, f) =>
      || InStmts(site, body) || InStmts(site, f)
      || exists k :: 0 <= k < |catches| && (site == AtCatch(catches[k]) || InStmts(site, catches[k].body))
    case Return(v) => InExpr(site, v)
    case Throw(x) => InExpr(site, x)
    case _ => false
  }

  predicate InStmts(site: Site, ss: seq<Stmt>)
    decreases ss
  {
    exists k :: 0 <= k < |ss| && InStmt(site, ss[k])
  }

  // ---- the names ----

  lemma {:induction false} RootIs(e: Expr, name: string)
    requires name != ""
    ensures Root(e) == name <==> Rooted(e, name)
    decreases e
  {
    match e
    case Index(base, _) => RootIs(base, name);
    case Prop(base, _) => RootIs(base, name);
    case Paren(x) => RootIs(x, name);
    case _ =>
  }

  lemma {:induction false} WrapsIs(e: Expr, u: Expr)
    requires !u.Paren?
    ensures Wraps(e, u) <==> u == Unwrap(e)
    decreases e
  {
    if e.Paren? { WrapsIs(e.x, u); }
  }

  lemma TargetsIs(target: Expr, name: string)
    requires name != ""
    ensures Root(target) == name || ListAssigns(target, name) <==> Targets(target, name)
  {
    hide Root, Rooted, Wraps, Unwrap;
    RootIs(target, name);
    forall elems ensures Wraps(target, ListExpr(elems)) <==> ListExpr(elems) == Unwrap(target) { WrapsIs(target, ListExpr(elems)); }
    var list := Unwrap(target);
    if list.ListExpr? {
      assert list == ListExpr(list.elems);
      forall k | 0 <= k < |list.elems| ensures list.elems[k] != Absent && Root(list.elems[k]) == name <==> Rooted(list.elems[k], name) {
        RootIs(list.elems[k], name);
        AbsentRoot(name);
      }
    }
  }

  lemma AbsentRoot(name: string)
    ensures !Rooted(Absent, name)
  {
  }

  lemma PassedIs(args: seq<Expr>, name: string)
    ensures CallWritesBack(args, name) <==> Passed(args, name)
  {
    hide Wraps, Unwrap;
    forall k | 0 <= k < |args| ensures Wraps(args[k], Var(name)) <==> Unwrap(args[k]) == Var(name) { WrapsIs(args[k], Var(name)); }
  }

  // ---- expressions ----

  /** Where the analysis finds a write in an expression there is one it came by. */
  lemma {:induction false} FoundIn(e: Expr, name: string) returns (p: Expr)
    requires name != "" && ExprAssigns(e, name)
    ensures Seen(p, e) && Writes(AtExpr(p), name)
    decreases e
  {
    hide Writes, Root, Rooted, ListAssigns, CallWritesBack, Targets, Passed;
    p := e;
    WritesIs(e, name);
    if !Writes(AtExpr(e), name) {
      match e
      case Index(base, key) => if ExprAssigns(base, name) { p := FoundIn(base, name); } else { p := FoundIn(key, name); }
      case Prop(base, n) => if ExprAssigns(base, name) { p := FoundIn(base, name); } else { p := FoundIn(n, name); }
      case Paren(x) => p := FoundIn(x, name);
      case Unary(_, x) => p := FoundIn(x, name);
      case Binary(l, r) => if ExprAssigns(l, name) { p := FoundIn(l, name); } else { p := FoundIn(r, name); }
      case Coalesce(l, r) => if ExprAssigns(l, name) { p := FoundIn(l, name); } else { p := FoundIn(r, name); }
      case Ternary(c, t, f) =>
        if ExprAssigns(c, name) { p := FoundIn(c, name); }
        else if ExprAssigns(t, name) { p := FoundIn(t, name); }
        else { p := FoundIn(f, name); }
      case Parts(xs) => p := FoundAmong(xs, name);
      case Named(_, args) => p := FoundAmong(args, name);
      case MethodCall(base, _, args) => if ExprAssigns(base, name) { p := FoundIn(base, name); } else { p := FoundAmong(args, name); }
      case Call(args) => p := FoundAmong(args, name);
      case Assign(_, _, value) => p := FoundIn(value, name);
      case ListExpr(elems) => p := FoundAmong(elems, name);
    }
  }

  lemma {:induction false} FoundAmong(xs: seq<Expr>, name: string) returns (p: Expr)
    requires name != "" && ExprsAssign(xs, name)
    ensures Writes(AtExpr(p), name) && exists k :: 0 <= k < |xs| && Seen(p, xs[k])
    decreases xs
  {
    hide Writes, ExprAssigns, Seen;
    if ExprAssigns(xs[0], name) {
      p := FoundIn(xs[0], name);
    } else {
      p := FoundAmong(xs[1..], name);
      var k :| 0 <= k < |xs[1..]| && Seen(p, xs[1..][k]);
      assert xs[k + 1] == xs[1..][k];
    }
  }

  lemma WritesIs(e: Expr, name: string)
    requires name != ""
    ensures
      Writes(AtExpr(e), name) <==>
        || e.Include?
        || (e.Unary? && e.step && Root(e.x) == name)
        || (e.Assign? && (Root(e.target) == name || ListAssigns(e.target, name)))
        || (e.Call? && CallWritesBack(e.args, name))
  {
    hide Root, Rooted, ListAssigns, CallWritesBack, Targets, Passed;
    match e
    case Unary(_, x) => RootIs(x, name);
    case Assign(target, _, _) => TargetsIs(target, name);
    case Call(args) => PassedIs(args, name);
    case _ =>
  }

  /** A write the analysis comes by in an expression is found. */
  lemma {:induction false} Finds(p: Expr, e: Expr, name: string)
    requires name != "" && Seen(p, e) && Writes(AtExpr(p), name)
    ensures ExprAssigns(e, name)
    decreases e
  {
    hide Writes, Root, Rooted, ListAssigns, CallWritesBack, Targets, Passed;
    if p == e {
      WritesIs(e, name);
    } else {
      match e
      case Index(base, key) => if Seen(p, base) { Finds(p, base, name); } else { Finds(p, key, name); }
      case Prop(base, n) => if Seen(p, base) { Finds(p, base, name); } else { Finds(p, n, name); }
      case Paren(x) => Finds(p, x, name);
      case Unary(_, x) => Finds(p, x, name);
      case Binary(l, r) => if Seen(p, l) { Finds(p, l, name); } else { Finds(p, r, name); }
      case Coalesce(l, r) => if Seen(p, l) { Finds(p, l, name); } else { Finds(p, r, name); }
      case Ternary(c, t, f) =>
        if Seen(p, c) { Finds(p, c, name); } else if Seen(p, t) { Finds(p, t, name); } else { Finds(p, f, name); }
      case Parts(xs) => FindsAmong(p, xs, name);
      case Named(_, args) => FindsAmong(p, args, name);
      case MethodCall(base, _, args) => if Seen(p, base) { Finds(p, base, name); } else { FindsAmong(p, args, name); }
      case Call(args) => FindsAmong(p, args, name);
      case Assign(_, _, value) => Finds(p, value, name);
      case ListExpr(elems) => FindsAmong(p, elems, name);
    }
  }

  lemma {:induction false} FindsAmong(p: Expr, xs: seq<Expr>, name: string)
    requires name != "" && Writes(AtExpr(p), name) && exists k :: 0 <= k < |xs| && Seen(p, xs[k])
    ensures ExprsAssign(xs, name)
    decreases xs
  {
    hide Writes, ExprAssigns, Seen;
    var k :| 0 <= k < |xs| && Seen(p, xs[k]);
    if k == 0 {
      Finds(p, xs[0], name);
    } else {
      assert xs[1..][k - 1] == xs[k];
      FindsAmong(p, xs[1..], name);
    }
  }

  // ---- statements ----

  lemma FoundExpr(e: Expr, name: string) returns (site: Site)
    requires name != "" && ExprAssigns(e, name)
    ensures InExpr(site, e) && Writes(site, name)
  {
    hide Writes, ExprAssigns, Seen;
    var p := FoundIn(e, name);
    site := AtExpr(p);
  }

  lemma FindsExpr(site: Site, e: Expr, name: string)
    requires name != "" && InExpr(site, e) && Writes(site, name)
    ensures ExprAssigns(e, name)
  {
    hide Writes, ExprAssigns, Seen;
    Finds(site.e, e, name);
  }

  lemma {:induction false} ExprsAssignIs(xs: seq<Expr>, name: string)
    ensures ExprsAssign(xs, name) <==> exists k :: 0 <= k < |xs| && ExprAssigns(xs[k], name)
    decreases xs
  {
    hide ExprAssigns;
    if xs != [] {
      ExprsAssignIs(xs[1..], name);
      if k :| 0 < k < |xs| && ExprAssigns(xs[k], name) { assert xs[1..][k - 1] == xs[k]; }
    }
  }

  lemma {:induction false} StmtsAssignIs(ss: seq<Stmt>, name: string)
    ensures StmtsAssign(ss, name) <==> exists k :: 0 <= k < |ss| && StmtAssigns(ss[k], name)
    decreases ss
  {
    hide StmtAssigns;
    if ss != [] {
      StmtsAssignIs(ss[1..], name);
      if k :| 0 < k < |ss| && StmtAssigns(ss[k], name) { assert ss[1..][k - 1] == ss[k]; }
    }
  }

  lemma {:induction false} CasesAssignIs(cs: seq<Case>, name: string)
    ensures CasesAssign(cs, name) <==> exists k :: 0 <= k < |cs| && CaseAssigns(cs[k], name)
    decreases cs
  {
    hide CaseAssigns;
    if cs != [] {
      CasesAssignIs(cs[1..], name);
      if k :| 0 < k < |cs| && CaseAssigns(cs[k], name) { assert cs[1..][k - 1] == cs[k]; }
    }
  }

  lemma {:induction false} CatchesAssignIs(cs: seq<Catch>, name: string)
    ensures CatchesAssign(cs, name) <==> exists k :: 0 <= k < |cs| && CatchAssigns(cs[k], name)
    decreases cs
  {
    hide CatchAssigns;
    if cs != [] {
      CatchesAssignIs(cs[1..], name);
      if k :| 0 < k < |cs| && CatchAssigns(cs[k], name) { assert cs[1..][k - 1] == cs[k]; }
    }
  }

  lemma StmtWritesIs(s: Stmt, name: string)
    requires name != ""
    ensures
      Writes(AtStmt(s), name) <==>
        || (s.Foreach? && (Root(s.val) == name || Root(s.key) == name || NoteOf(s.val) == name || NoteOf(s.key) == name))
        || (s.Unset? && exists k :: 0 <= k < |s.targets| && Root(s.targets[k]) == name)
  {
    hide Root, Rooted;
    if s.Foreach? {
      RootIs(s.val, name);
      RootIs(s.key, name);
    } else if s.Unset? {
      forall k | 0 <= k < |s.targets| ensures Root(s.targets[k]) == name <==> Rooted(s.targets[k], name) { RootIs(s.targets[k], name); }
    }
  }

  /** Where the analysis finds a write in a statement there is one it came by. */
  lemma {:induction false} FoundStmt(s: Stmt, name: string) returns (site: Site)
    requires name != "" && StmtAssigns(s, name)
    ensures InStmt(site, s) && Writes(site, name)
    decreases s
  {
    hide Writes, ExprAssigns, ExprsAssign, StmtsAssign, CasesAssign, CatchesAssign, Root, InExpr, InStmts;
    site := AtStmt(s);
    StmtWritesIs(s, name);
    if !Writes(site, name) {
      match s
      case ExprStmt(x) => site := FoundExpr(x, name);
      case Echo(args) =>
        ExprsAssignIs(args, name);
        var k :| 0 <= k < |args| && ExprAssigns(args[k], name);
        site := FoundExpr(args[k], name);
      case If(c, t, f) =>
        if ExprAssigns(c, name) { site := FoundExpr(c, name); }
        else if StmtsAssign(t, name) { site := FoundStmts(t, name); }
        else { site := FoundStmts(f, name); }
      case For(init, c, post, body) =>
        if StmtAssigns(init, name) { site := FoundStmt(init, name); }
        else if ExprAssigns(c, name) { site := FoundExpr(c, name); }
        else if StmtAssigns(post, name) { site := FoundStmt(post, name); }
        else { site := FoundStmts(body, name); }
      case Foreach(source, _, _, _, body) =>
        if ExprAssigns(source, name) { site := FoundExpr(source, name); } else { site := FoundStmts(body, name); }
      case Switch(c, cases, d) =>
        if ExprAssigns(c, name) { site := FoundExpr(c, name); }
        else if StmtsAssign(d, name) { site := FoundStmts(d, name); }
        else { site := FoundCases(cases, name); }
      case Try(body, catches, f) =>
        if StmtsAssign(body, name) { site := FoundStmts(body, name); }
        else if StmtsAssign(f, name) { site := FoundStmts(f, name); }
        else { site := FoundCatches(catches, name); }
      case Return(v) => site := FoundExpr(v, name);
      case Throw(x) => site := FoundExpr(x, name);
    }
  }

  lemma {:induction false} FoundStmts(ss: seq<Stmt>, name: string) returns (site: Site)
    requires name != "" && StmtsAssign(ss, name)
    ensures InStmts(site, ss) && Writes(site, name)
    decreases ss
  {
    hide Writes, StmtAssigns, InStmt;
    StmtsAssignIs(ss, name);
    var k :| 0 <= k < |ss| && StmtAssigns(ss[k], name);
    site := FoundStmt(ss[k], name);
  }

  lemma {:induction false} FoundCases(cs: seq<Case>, name: string) returns (site: Site)
    requires name != "" && CasesAssign(cs, name)
    ensures Writes(site, name) && exists k :: 0 <= k < |cs| && (InExpr(site, cs[k].value) || InStmts(site, cs[k].body))
    decreases cs
  {
    hide Writes, ExprAssigns, StmtsAssign, InExpr, InStmts;
    CasesAssignIs(cs, name);
    var k :| 0 <= k < |cs| && CaseAssigns(cs[k], name);
    if ExprAssigns(cs[k].value, name) { site := FoundExpr(cs[k].value, name); } else { site := FoundStmts(cs[k].body, name); }
  }

  lemma {:induction false} FoundCatches(cs: seq<Catch>, name: string) returns (site: Site)
    requires name != "" && CatchesAssign(cs, name)
    ensures Writes(site, name) && exists k :: 0 <= k < |cs| && (site == AtCatch(cs[k]) || InStmts(site, cs[k].body))
    decreases cs
  {
    hide StmtsAssign, InStmts;
    CatchesAssignIs(cs, name);
    var k :| 0 <= k < |cs| && CatchAssigns(cs[k], name);
    if cs[k].name == name { site := AtCatch(cs[k]); } else { site := FoundStmts(cs[k].body, name); }
  }

  /** A write the analysis comes by in a statement is found. */
  lemma {:induction false} FindsStmt(site: Site, s: Stmt, name: string)
    requires name != "" && InStmt(site, s) && Writes(site, name)
    ensures StmtAssigns(s, name)
    decreases s
  {
    hide Writes, ExprAssigns, ExprsAssign, StmtsAssign, CasesAssign, CatchesAssign, Root, InExpr, InStmts;
    if site == AtStmt(s) {
      StmtWritesIs(s, name);
    } else {
      match s
      case ExprStmt(x) => FindsExpr(site, x, name);
      case Echo(args) =>
        var k :| 0 <= k < |args| && InExpr(site, args[k]);
        FindsExpr(site, args[k], name);
        ExprsAssignIs(args, name);
      case If(c, t, f) =>
        if InExpr(site, c) { FindsExpr(site, c, name); }
        else if InStmts(site, t) { FindsStmts(site, t, name); }
        else { FindsStmts(site, f, name); }
      case For(init, c, post, body) =>
        if InStmt(site, init) { FindsStmt(site, init, name); }
        else if InExpr(site, c) { FindsExpr(site, c, name); }
        else if InStmt(site, post) { FindsStmt(site, post, name); }
        else { FindsStmts(site, body, name); }
      case Foreach(source, _, _, _, body) =>
        if InExpr(site, source) { FindsExpr(site, source, name); } else { FindsStmts(site, body, name); }
      case Switch(c, cases, d) =>
        if InExpr(site, c) { FindsExpr(site, c, name); }
        else if InStmts(site, d) { FindsStmts(site, d, name); }
        else { FindsCases(site, cases, name); }
      case Try(body, catches, f) =>
        if InStmts(site, body) { FindsStmts(site, body, name); }
        else if InStmts(site, f) { FindsStmts(site, f, name); }
        else { FindsCatches(site, catches, name); }
      case Return(v) => FindsExpr(site, v, name);
      case Throw(x) => FindsExpr(site, x, name);
    }
  }

  lemma {:induction false} FindsStmts(site: Site, ss: seq<Stmt>, name: string)
    requires name != "" && InStmts(site, ss) && Writes(site, name)
    ensures StmtsAssign(ss, name)
    decreases ss
  {
    hide Writes, StmtAssigns, InStmt;
    var k :| 0 <= k < |ss| && InStmt(site, ss[k]);
    FindsStmt(site, ss[k], name);
    StmtsAssignIs(ss, name);
  }

  lemma {:induction false} FindsCases(site: Site, cs: seq<Case>, name: string)
    requires name != "" && Writes(site, name) && exists k :: 0 <= k < |cs| && (InExpr(site, cs[k].value) || InStmts(site, cs[k].body))
    ensures CasesAssign(cs, name)
    decreases cs
  {
    hide Writes, ExprAssigns, StmtsAssign, InExpr, InStmts;
    var k :| 0 <= k < |cs| && (InExpr(site, cs[k].value) || InStmts(site, cs[k].body));
    if InExpr(site, cs[k].value) { FindsExpr(site, cs[k].value, name); } else { FindsStmts(site, cs[k].body, name); }
    CasesAssignIs(cs, name);
  }

  lemma {:induction false} FindsCatches(site: Site, cs: seq<Catch>, name: string)
    requires name != "" && Writes(site, name) && exists k :: 0 <= k < |cs| && (site == AtCatch(cs[k]) || InStmts(site, cs[k].body))
    ensures CatchesAssign(cs, name)
    decreases cs
  {
    hide StmtsAssign, InStmts;
    var k :| 0 <= k < |cs| && (site == AtCatch(cs[k]) || InStmts(site, cs[k].body));
    if site != AtCatch(cs[k]) { FindsStmts(site, cs[k].body, name); }
    CatchesAssignIs(cs, name);
  }

  // ---- the theorem ----

  /**
   A loop copies its elements exactly where its target is rooted in no name, or some place of the body
   the analysis comes by writes the name it is rooted in. Nothing else makes it copy.
   */
  lemma CopiesFor(target: Expr, body: seq<Stmt>)
    ensures
      AssignsTo(target, body) <==>
        forall name :: name != "" && Rooted(target, name) ==> exists site :: InStmts(site, body) && Writes(site, name)
  {
    hide Root, Rooted, StmtsAssign, InStmts, Writes;
    var root := Root(target);
    if root == "" {
      forall name | name != "" ensures !Rooted(target, name) { RootIs(target, name); }
    } else {
      RootIs(target, root);
      forall name | name != "" && Rooted(target, name) ensures name == root { RootIs(target, name); }
      if StmtsAssign(body, root) {
        var site := FoundStmts(body, root);
      } else {
        forall site | InStmts(site, body) ensures !Writes(site, root) {
          if Writes(site, root) { FindsStmts(site, body, root); }
        }
      }
    }
  }
}
