/** From the name a host passes to the one function it means, and that function's declaration. */
module Resolve {
  import opened Names
  import opened IncludeCache
  import opened Symbols

  // ---- the name ----

  predicate IsSpace(c: char) {
    c == ' ' || c == '\t' || c == '\n' || c == '\r' || c as int == 11 || c as int == 12
  }

  function TrimLeft(s: string): string {
    if s != "" && IsSpace(s[0]) then TrimLeft(s[1..]) else s
  }

  function TrimRight(s: string): string {
    if s != "" && IsSpace(s[|s| - 1]) then TrimRight(s[..|s| - 1]) else s
  }

  /** Without the space around it and one leading separator. */
  function Trimmed(sym: string): string {
    var t := TrimRight(TrimLeft(sym));
    if t != "" && t[0] == '\\' then t[1..] else t
  }

  predicate Spaces(s: string) {
    forall k :: 0 <= k < |s| ==> s[k] in {' ', '\t', '\n', '\r', 11 as char, 12 as char}
  }

  lemma {:induction false} LeftTrimmed(s: string)
    ensures TrimLeft(s) == "" || TrimLeft(s)[0] !in {' ', '\t', '\n', '\r', 11 as char, 12 as char}
    ensures |TrimLeft(s)| <= |s| && s[|s| - |TrimLeft(s)|..] == TrimLeft(s) && Spaces(s[..|s| - |TrimLeft(s)|])
    decreases |s|
  {
    if s != "" && IsSpace(s[0]) {
      LeftTrimmed(s[1..]);
      var n := |s| - |TrimLeft(s)|;
      assert s[1..][n - 1..] == s[n..] && s[..n] == [s[0]] + s[1..][..n - 1];
    } else {
      assert s[0..] == s && s[..0] == "";
    }
  }

  lemma {:induction false} RightTrimmed(s: string)
    ensures TrimRight(s) <= s && Spaces(s[|TrimRight(s)|..])
    ensures TrimRight(s) == "" || TrimRight(s)[|TrimRight(s)| - 1] !in {' ', '\t', '\n', '\r', 11 as char, 12 as char}
    decreases |s|
  {
    if s != "" && IsSpace(s[|s| - 1]) {
      RightTrimmed(s[..|s| - 1]);
      var n := |TrimRight(s)|;
      assert s[n..] == s[..|s| - 1][n..] + [s[|s| - 1]];
    } else {
      assert s[|s|..] == "";
    }
  }

  /**
   The name is the symbol without all space at both of its ends, and then without one separator in
   front, if there is one.
   */
  lemma TrimmedIs(sym: string)
    ensures
      exists front, core, back ::
        && sym == front + core + back && Spaces(front) && Spaces(back)
        && (core != "" ==> !Spaces(core[..1]) && !Spaces(core[|core| - 1..]))
        && Trimmed(sym) == if "\\" <= core then core[1..] else core
  {
    var t := TrimLeft(sym);
    var core := TrimRight(t);
    LeftTrimmed(sym);
    RightTrimmed(t);
    var front, back := sym[..|sym| - |t|], t[|core|..];
    assert sym == front + core + back;
    if core != "" {
      assert core[0] == t[0] && core[..1][0] == core[0] && core[|core| - 1..][0] == core[|core| - 1];
    }
  }

  // ---- which function it means ----

  /** The names that end in the symbol, one that is nothing but a separator and the symbol included. */
  function Ending(names: set<string>, sym: string): set<string> {
    set n | n in names && (EndsIn(n, sym) || Lower(n) == Lower("\\" + sym))
  }

  function Spelled(names: set<string>, sym: string): set<string> {
    set n | n in names && Exact(n, sym)
  }

  /**
   What a symbol matches in a tree and among the functions a runtime declared: in full in the tree,
   in full among the declared, by its end in the tree, by its end among the declared.
   */
  function Chosen(tree: set<string>, declared: set<string>, sym: string): set<string> {
    if Spelled(tree, sym) != {} then Spelled(tree, sym)
    else if Spelled(declared, sym) != {} then Spelled(declared, sym)
    else if Ending(tree, sym) != {} then Ending(tree, sym)
    else Scan(declared, sym)
  }

  /**
   That is what one scan of all the names answers, exactly where what the runtime declared on top of
   the tree adds no match of the kind the tree answers with, and the tree does not answer with a name
   that is the symbol behind a leading separator.
   */
  lemma ChosenIsScan(tree: set<string>, declared: set<string>, sym: string)
    ensures Chosen(tree, declared, sym) == Scan(tree + declared, sym) <==>
      if Spelled(tree, sym) != {} then
        (forall n :: n in declared && Exact(n, sym) ==> n in tree)
      else if Spelled(declared, sym) != {} || Ending(tree, sym) == {} then
        true
      else
        (forall n :: n in declared && EndsIn(n, sym) ==> n in tree) && (forall n :: n in tree ==> Lower(n) != Lower("\\" + sym))
  {
    hide Exact, EndsIn, Lower;
    var both := Spelled(tree + declared, sym);
    assert both == Spelled(tree, sym) + Spelled(declared, sym);
    var ends := set n | n in tree + declared && EndsIn(n, sym);
    assert Scan(tree + declared, sym) == if both != {} then both else ends;
    if Spelled(tree, sym) != {} {
      assert Spelled(tree, sym) == both <==> forall n :: n in declared && Exact(n, sym) ==> n in tree by {
        if Spelled(tree, sym) == both {
          forall n | n in declared && Exact(n, sym) ensures n in tree { assert n in both; }
        }
      }
    } else if Spelled(declared, sym) != {} {
      assert Spelled(declared, sym) == both;
    } else if Ending(tree, sym) != {} {
      EndingIsScan(tree, declared, sym, ends);
    } else {
      assert Scan(declared, sym) == ends by {
        assert (set n | n in declared && Exact(n, sym)) == Spelled(declared, sym);
        forall n | n in tree ensures !EndsIn(n, sym) { assert n !in Ending(tree, sym); }
      }
    }
  }

  lemma EndingIsScan(tree: set<string>, declared: set<string>, sym: string, ends: set<string>)
    requires ends == set n | n in tree + declared && EndsIn(n, sym)
    ensures Ending(tree, sym) == ends <==>
      (forall n :: n in declared && EndsIn(n, sym) ==> n in tree) && forall n :: n in tree ==> Lower(n) != Lower("\\" + sym)
  {
    hide EndsIn, Lower;
    if Ending(tree, sym) == ends {
      forall n | n in declared && EndsIn(n, sym) ensures n in tree { assert n in ends; }
      forall n | n in tree ensures Lower(n) != Lower("\\" + sym) {
        if Lower(n) == Lower("\\" + sym) {
          assert n in Ending(tree, sym);
          NotBoth(n, sym);
        }
      }
    }
  }

  // ---- its declaration ----

  /** The name is taken, in any spelling. */
  predicate Taken(names: set<string>, name: string) {
    exists n :: n in names && Exact(n, name)
  }

  /** No two names differ in case alone. */
  ghost predicate OneSpelling(names: set<string>) {
    forall m, n :: m in names && n in names && Exact(m, n) ==> m == n
  }

  function Free(p: Program): set<string> {
    set f | f in p && f.class_ == "" :: f.name
  }

  /** The functions of the program can be declared beside those there are. */
  ghost predicate Hoistable(p: Program, names: set<string>) {
    && (forall i :: 0 <= i < |p| && p[i].class_ == "" ==> !Taken(names, p[i].name))
    && (forall i, j :: 0 <= i < j < |p| && p[i].class_ == "" && p[j].class_ == "" ==> !Exact(p[i].name, p[j].name))
  }

  datatype Answer =
    | NoName
    | NotDeclared
    | TooMany(names: seq<string>)
    | TwoFiles(name: string, paths: seq<string>)
    | Refused(name: string)
    | Resolved(name: string)

  class Resolver {
    const rt: Runtime
    const bindings: set<string>
    var userFns: set<string>
    var included: set<string>

    constructor (rt: Runtime, bindings: set<string>)
      requires OneSpelling(bindings)
      ensures this.rt == rt && this.bindings == bindings && userFns == {} && included == {} && Declares()
    {
      this.rt, this.bindings, userFns, included := rt, bindings, {}, {};
    }

    /** Every function goes by one spelling. */
    ghost predicate Declares()
      reads this
    {
      OneSpelling(bindings + userFns)
    }

    /** Declares the functions of a program one after the other, up to the first whose name is taken. */
    method Hoist(p: Program, lawful: bool) returns (ok: bool)
      requires Declares()
      modifies this`userFns
      ensures Declares() && old(userFns) <= userFns <= old(userFns) + Free(p)
      ensures ok <==> lawful && Hoistable(p, bindings + old(userFns))
      ensures ok ==> userFns == old(userFns) + Free(p)
    {
      hide Exact, Taken, OneSpelling, Free, Hoistable;
      if !lawful { return false; }
      var i := 0;
      HoistableNone(p, bindings + userFns);
      while i < |p|
        invariant 0 <= i <= |p| && OneSpelling(bindings + userFns)
        invariant userFns == old(userFns) + Free(p[..i]) && Hoistable(p[..i], bindings + old(userFns))
      {
        FreeNext(p, i);
        if p[i].class_ == "" {
          HoistableNext(p, i, bindings + old(userFns));
          assert bindings + old(userFns) + Free(p[..i]) == bindings + userFns;
          if Taken(bindings + userFns, p[i].name) {
            NotHoistable(p, i + 1, bindings + old(userFns));
            FreePart(p, i);
            return false;
          }
          OneMore(bindings + userFns, p[i].name);
          assert bindings + (userFns + {p[i].name}) == bindings + userFns + {p[i].name};
          userFns := userFns + {p[i].name};
        } else {
          HoistableSkips(p, i, bindings + old(userFns));
        }
        i := i + 1;
      }
      assert p[..|p|] == p;
      ok := true;
    }

    /** The spelling a function of that name is declared under here. */
    method DeclaredUserFunc(name: string) returns (r: seq<string>)
      ensures |r| <= 1 && (r != [] ==> r[0] in Spelled(userFns, name))
      ensures r == [] <==> Spelled(userFns, name) == {}
    {
      if name in userFns {
        assert name in Spelled(userFns, name);
        return [name];
      }
      var todo := userFns;
      while todo != {}
        invariant todo <= userFns && forall n :: n in userFns - todo ==> !Exact(n, name)
        decreases |todo|
      {
        var n :| n in todo;
        if Lower(n) == Lower(name) {
          assert n in Spelled(userFns, name);
          return [n];
        }
        todo := todo - {n};
      }
      r := [];
    }

    /** Declares what the one file says that declares the function; with more than one it says which. */
    method Install(found: string, sources: map<string, seq<string>>, lawful: Program -> bool) returns (a: Answer)
      requires Declares() && Describes(sources, rt.cache.programs) && found in sources && found !in userFns
      modifies this`userFns, this`included
      ensures Declares() && old(userFns) <= userFns
      ensures (a.TwoFiles? || a.Refused? || a.Resolved?) && a.name == found
      ensures
        a.TwoFiles? ==>
          && userFns == old(userFns) && included == old(included)
          && |a.paths| > 1 && forall path :: path in a.paths <==> path in rt.cache.programs && DeclaredIn(rt.cache.programs[path], found)
      ensures
        !a.TwoFiles? ==>
          exists path ::
            && Sole(rt.cache.programs, found, path)
            && var p := rt.cache.programs[path];
            && (a.Resolved? <==> lawful(p) && Hoistable(p, bindings + old(userFns)))
            && userFns <= old(userFns) + Free(p)
            && (a.Resolved? ==> found in userFns && userFns == old(userFns) + Free(p))
            && included == old(included) + if a.Resolved? then {path} else {}
    {
      hide OneSpelling, Hoistable, Free, DeclaredIn, Describes, Exact;
      var paths := sources[found];
      SourcesThere(sources, rt.cache.programs, found);
      if |paths| > 1 { return TwoFiles(found, paths); }
      var path := paths[0];
      assert Sole(rt.cache.programs, found, path);
      FreeHas(rt.cache.programs[path], found);
      var ok := Hoist(rt.cache.programs[path], lawful(rt.cache.programs[path]));
      if !ok { return Refused(found); }
      included := included + {path};
      a := Resolved(found);
    }

    /**
     What a symbol resolves to. A function it answers is the only one the symbol matches, and is
     declared from then on; an error leaves open which function or which file is meant, or names the
     one that stands in the way.
     */
    method ResolveSymbol(sym: string, lawful: Program -> bool) returns (a: Answer, ghost tree: set<string>)
      requires Declares() && rt.Valid() && rt.Kept() && rt.cache.Valid()
      requires rt.symbols != null ==> |rt.cache.writes| - rt.seen < VERSIONS
      modifies this, rt
      ensures Declares() && rt.Valid() && rt.Kept() && old(userFns) <= userFns
      ensures a.NoName? <==> Trimmed(sym) == ""
      ensures !a.NoName? ==> forall n :: n in tree <==> DeclaredSomewhere(rt.cache.programs, n)
      ensures
        !a.NoName? ==>
          var chosen := Chosen(tree, old(userFns), Trimmed(sym));
          && (a.NotDeclared? <==> chosen == {})
          && (a.TooMany? <==> |chosen| > 1) && (a.TooMany? ==> Unique(a.names) && Members(a.names) == chosen)
          && (a.TwoFiles? || a.Refused? || a.Resolved? ==> chosen == {a.name})
          && (a.TwoFiles? || a.Refused? ==> a.name !in old(userFns)) && (a.Resolved? ==> a.name in userFns)
      ensures
        (a.TwoFiles? || a.Refused? || a.Resolved?) && a.name !in old(userFns) ==>
          if a.TwoFiles? then
            (forall path :: path in a.paths <==> path in rt.cache.programs && DeclaredIn(rt.cache.programs[path], a.name))
          else
            exists path :: Sole(rt.cache.programs, a.name, path) &&
              (a.Resolved? <==> lawful(rt.cache.programs[path]) && Hoistable(rt.cache.programs[path], bindings + old(userFns)))
      ensures !a.Refused? && (a.Resolved? ==> a.name in old(userFns)) ==> userFns == old(userFns) && included == old(included)
    {
      var name := Trimmed(sym);
      tree := {};
      if name == "" { return NoName, tree; }
      var table := rt.SymbolIndex();
      tree := table.sources.Keys;
      hide Exact, EndsIn, Lower, OneSpelling, Hoistable, Chosen, Unique, Free, Trimmed, Members, Describes, ExactFor, SuffixFor;
      TreeNames(table.sources, rt.cache.programs);
      var matches, declared := Candidates(table, name);
      MemberCount(matches);
      OneMember(matches);
      if declared { return Resolved(matches[0]), tree; }
      if |matches| == 0 { return NotDeclared, tree; }
      if |matches| > 1 { return TooMany(matches), tree; }
      var found := matches[0];
      if found in userFns { return Resolved(found), tree; }
      FromTree(tree, userFns, name, found);
      a := Install(found, table.sources, lawful);
    }

    /** The names a symbol matches, each once, and whether the answer is a function declared already. */
    method Candidates(table: SymbolTable, name: string) returns (matches: seq<string>, declared: bool)
      requires Declares() && table.Indexes(table.sources.Keys)
      ensures Unique(matches) && Members(matches) == Chosen(table.sources.Keys, userFns, name)
      ensures declared ==> |matches| == 1 && matches[0] in userFns
    {
      var folded := Lower(name);
      ghost var tree := table.sources.Keys;
      ListsMatch(table.exact, table.suffix, tree, name);
      hide Exact, EndsIn, Lower, ExactFor, SuffixFor;
      declared := false;
      matches := Listed(table.exact, folded);
      if |matches| == 0 {
        assert Spelled(tree, name) == {};
        var known := DeclaredUserFunc(name);
        if |known| > 0 {
          OnlySpelling(bindings, userFns, name, known[0]);
          return known, true;
        }
        matches := Listed(table.suffix, folded);
        if |matches| == 0 {
          assert Ending(tree, name) == {};
          var names := Listing(userFns);
          matches := MatchSymbols(names, name);
        } else {
          assert matches[0] in Ending(tree, name);
        }
      } else {
        assert matches[0] in Spelled(tree, name);
      }
    }
  }

  /** The elements of a set in some order. */
  method Listing(names: set<string>) returns (s: seq<string>)
    ensures Unique(s) && Members(s) == names
  {
    s := [];
    var todo := names;
    while todo != {}
      invariant todo <= names && Unique(s) && forall n :: n in s <==> n in names - todo
      decreases |todo|
    {
      var n :| n in todo;
      UniqueMore(s, n);
      s := s + [n];
      todo := todo - {n};
    }
  }

  lemma OneMember(s: seq<string>)
    ensures s == [] ==> Members(s) == {}
    ensures |s| == 1 ==> Members(s) == {s[0]}
  {
  }

  lemma {:induction false} MemberCount(s: seq<string>)
    requires Unique(s)
    ensures |Members(s)| == |s|
    decreases |s|
  {
    if s == [] {
      assert Members(s) == {};
    } else {
      MemberCount(s[1..]);
      assert s == [s[0]] + s[1..] && s[0] !in s[1..];
      assert Members(s) == {s[0]} + Members(s[1..]);
    }
  }

  lemma TreeNames(sources: map<string, seq<string>>, ps: Programs)
    requires Describes(sources, ps)
    ensures forall n :: n in sources.Keys <==> DeclaredSomewhere(ps, n)
  {
  }

  /** The one file that declares the name. */
  ghost predicate Sole(ps: Programs, name: string, path: string) {
    path in ps && DeclaredIn(ps[path], name) && forall other :: other in ps && DeclaredIn(ps[other], name) ==> other == path
  }

  lemma ListsMatch(exact: map<string, seq<string>>, suffix: map<string, seq<string>>, names: set<string>, sym: string)
    requires ExactFor(exact, names) && SuffixFor(suffix, names)
    ensures Unique(Listed(exact, Lower(sym))) && Members(Listed(exact, Lower(sym))) == Spelled(names, sym)
    ensures Unique(Listed(suffix, Lower(sym))) && Members(Listed(suffix, Lower(sym))) == Ending(names, sym)
  {
    ExactFound(exact, names, sym);
    SuffixFound(suffix, names, sym);
    hide EndsIn, Tail, Exact, Lower;
  }

  // Of the names a runtime declares a symbol spells one at most.
  lemma OnlySpelling(bindings: set<string>, names: set<string>, sym: string, n: string)
    requires OneSpelling(bindings + names) && n in Spelled(names, sym)
    ensures Spelled(names, sym) == {n}
  {
    forall m | m in Spelled(names, sym) ensures m == n { assert Exact(m, n); }
  }

  // What is not declared was found in the tree.
  lemma FromTree(tree: set<string>, declared: set<string>, sym: string, n: string)
    requires n in Chosen(tree, declared, sym) && n !in declared
    ensures n in tree
  {
    hide Exact, EndsIn, Lower;
  }

  lemma SourcesThere(sources: map<string, seq<string>>, ps: Programs, n: string)
    requires n in sources && Describes(sources, ps)
    ensures sources[n] != [] && forall path :: path in sources[n] <==> path in ps && DeclaredIn(ps[path], n)
  {
    var path :| path in ps && DeclaredIn(ps[path], n);
    assert path in sources[n];
  }

  lemma FreeHas(p: Program, n: string)
    requires DeclaredIn(p, n)
    ensures n in Free(p)
  {
  }

  lemma FreeNext(p: Program, i: nat)
    requires i < |p|
    ensures Free(p[..i + 1]) == Free(p[..i]) + if p[i].class_ == "" then {p[i].name} else {}
  {
    assert p[..i + 1] == p[..i] + [p[i]];
  }

  lemma FreePart(p: Program, i: nat)
    requires i <= |p|
    ensures Free(p[..i]) <= Free(p)
  {
  }

  // A program can be hoisted one function further where that function's name is free.
  lemma HoistableNext(p: Program, i: nat, names: set<string>)
    requires i < |p| && Hoistable(p[..i], names) && p[i].class_ == ""
    ensures Hoistable(p[..i + 1], names) <==> !Taken(names + Free(p[..i]), p[i].name)
  {
    hide Exact;
    var q := p[..i + 1];
    assert q == p[..i] + [p[i]];
    if Taken(names + Free(p[..i]), p[i].name) {
      var n :| n in names + Free(p[..i]) && Exact(n, p[i].name);
      if n !in names {
        var f :| f in p[..i] && f.class_ == "" && f.name == n;
        var j :| 0 <= j < i && p[..i][j] == f;
        assert Exact(q[j].name, q[i].name);
      } else {
        assert Taken(names, q[i].name);
      }
    } else {
      assert !Taken(names, q[i].name);
      forall j | 0 <= j < i && q[j].class_ == "" ensures !Exact(q[j].name, q[i].name) {
        assert q[j] in p[..i] && q[j].name in Free(p[..i]);
      }
    }
  }

  lemma HoistableNone(p: Program, names: set<string>)
    ensures Hoistable(p[..0], names) && Free(p[..0]) == {}
  {
  }

  lemma HoistableSkips(p: Program, i: nat, names: set<string>)
    requires i < |p| && Hoistable(p[..i], names) && p[i].class_ != ""
    ensures Hoistable(p[..i + 1], names)
  {
    assert p[..i + 1] == p[..i] + [p[i]];
  }

  lemma NotHoistable(p: Program, i: nat, names: set<string>)
    requires i <= |p| && !Hoistable(p[..i], names)
    ensures !Hoistable(p, names)
  {
    hide Exact, Taken;
    var q := p[..i];
    assert forall k :: 0 <= k < i ==> q[k] == p[k];
  }

  lemma OneMore(names: set<string>, n: string)
    requires OneSpelling(names) && !Taken(names, n)
    ensures OneSpelling(names + {n})
  {
    forall m | m in names ensures !Exact(m, n) && !Exact(n, m) {}
  }
}
