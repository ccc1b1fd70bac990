/** What a class that declares interfaces has to declare itself, over declarations that may extend each other in a circle. */
module Interfaces {
  import opened Names

  datatype Interface = Interface(name: string, extends_: seq<string>, methods: seq<string>)

  datatype Class = Class(name: string, implements: seq<string>, methods: seq<string>)

  // Top-level statements. A function may carry the name of a class it is a method of.
  datatype Stmt = InterfaceDecl(i: Interface) | ClassDecl(c: Class) | FuncDecl(class_: string, name: string) | OtherStmt

  datatype Required = Required(interface: string, method_: string)

  datatype Violation = Violation(class_: Class, interface: string, method_: string)

  type Index = map<string, Interface>

  // ---- what the walks are to find ----

  /** The names b stands next to a: it is one of those a's declaration extends. */
  predicate Extends(index: Index, a: string, b: string) {
    a in index && exists k :: 0 <= k < |index[a].extends_| && Lower(index[a].extends_[k]) == b
  }

  predicate Path(index: Index, p: seq<string>) {
    p != [] && forall k :: 0 <= k < |p| - 1 ==> Extends(index, p[k], p[k + 1])
  }

  /** There is a chain of declarations from a to b. */
  ghost predicate Reaches(index: Index, a: string, b: string) {
    exists p :: Path(index, p) && p[0] == a && p[|p| - 1] == b
  }

  predicate HasMethod(index: Index, k: string, f: string) {
    k in index && exists m :: 0 <= m < |index[k].methods| && Lower(index[k].methods[m]) == f
  }

  /** Some interface in reach of key declares a method of that folded name. */
  ghost predicate Demands(index: Index, key: string, f: string) {
    exists k :: Reaches(index, key, k) && HasMethod(index, k, f)
  }

  lemma ReachesItself(index: Index, a: string)
    ensures Reaches(index, a, a)
  {
    assert Path(index, [a]);
  }

  lemma ReachesThrough(index: Index, a: string, b: string, c: string)
    requires Extends(index, a, b) && Reaches(index, b, c)
    ensures Reaches(index, a, c)
  {
    var p :| Path(index, p) && p[0] == b && p[|p| - 1] == c;
    assert Path(index, [a] + p);
  }

  /** Every name a declaration in done extends is in all. */
  ghost predicate Closed(index: Index, done: set<string>, all: set<string>) {
    forall a, b :: a in done && Extends(index, a, b) ==> b in all
  }

  /** A closed set holds everything in reach of what it holds. */
  lemma ClosedHolds(index: Index, all: set<string>, a: string, b: string)
    requires Closed(index, all, all) && a in all && Reaches(index, a, b)
    ensures b in all
  {
    var p :| Path(index, p) && p[0] == a && p[|p| - 1] == b;
    ChainInside(index, all, p, |p| - 1);
  }

  lemma {:induction false} ChainInside(index: Index, all: set<string>, p: seq<string>, k: nat)
    requires Closed(index, all, all) && Path(index, p) && p[0] in all && k < |p|
    ensures p[k] in all
    decreases k
  {
    if k > 0 {
      ChainInside(index, all, p, k - 1);
      assert Extends(index, p[k - 1], p[k]);
    }
  }

  // ---- the walk of one contract ----

  /** The methods of the given declarations, folded. */
  ghost predicate Collected(index: Index, from: set<string>, f: string) {
    exists k :: k in from && HasMethod(index, k, f)
  }

  predicate Folded(out: seq<Required>, f: string) {
    exists i :: 0 <= i < |out| && Lower(out[i].method_) == f
  }

  predicate NoTwice(out: seq<Required>) {
    forall i, j :: 0 <= i < j < |out| ==> Lower(out[i].method_) != Lower(out[j].method_)
  }

  predicate Declares(d: Interface, r: Required) {
    r.interface == d.name && r.method_ in d.methods
  }

  /** Each entry is a method of one of the given declarations, under that declaration's name. */
  ghost predicate Sourced(index: Index, from: set<string>, out: seq<Required>) {
    forall i :: 0 <= i < |out| ==> From(index, from, out[i])
  }

  predicate From(index: Index, from: set<string>, r: Required) {
    exists k :: k in from && k in index && Declares(index[k], r)
  }

  class Collector {
    const index: Index
    var visited: set<string>
    var seen: set<string>
    var out: seq<Required>

    constructor (index: Index)
      ensures this.index == index && visited == {} && Valid()
    {
      this.index := index;
      visited, seen, out := {}, {}, [];
    }

    /** What stands in out is what the visited declarations name, once each. */
    ghost predicate Valid()
      reads this
    {
      && NoTwice(out) && Sourced(index, visited, out)
      && (forall f :: f in seen <==> Folded(out, f))
      && (forall f :: f in seen <==> Collected(index, visited, f))
    }

    /** Visits everything in reach of a name that was not visited before. */
    method Collect(name: string)
      requires Valid()
      modifies this
      ensures Valid() && Lower(name) in visited && Explored(index, Lower(name), old(visited), visited)
      decreases |index.Keys - visited|
    {
      hide NoTwice, Sourced, Folded, Collected, Explored, Halfway;
      var key := Lower(name);
      if key in visited {
        NothingNew(index, key, visited);
        return;
      }
      ghost var before := visited;
      if key !in index {
        visited := visited + {key};
        Leaf(index, before, key);
        Absent(index, before, key);
        SameOut(index, before, visited, out);
        return;
      }
      var decl := index[key];
      AddMethods(key);
      Start(index, key, before);
      var i := 0;
      while i < |decl.extends_|
        invariant 0 <= i <= |decl.extends_| && Valid() && Halfway(index, key, before, visited)
        invariant forall j :: 0 <= j < i ==> Lower(decl.extends_[j]) in visited
      {
        ghost var mid := visited;
        Fewer(index, before, key, mid);
        Collect(decl.extends_[i]);
        Parent(index, key, before, mid, i, visited);
        i := i + 1;
      }
      Through(index, key, before, visited);
    }

    /** Marks a declaration visited and takes the methods it names that are not yet taken. */
    method AddMethods(key: string)
      requires Valid() && key in index && key !in visited
      modifies this
      ensures Valid() && visited == old(visited) + {key}
    {
      ghost var before := visited;
      var decl := index[key];
      visited := visited + {key};
      var i := 0;
      while i < |decl.methods|
        invariant 0 <= i <= |decl.methods| && visited == before + {key}
        invariant NoTwice(out) && Sourced(index, visited, out)
        invariant forall f :: f in seen <==> Folded(out, f)
        invariant forall f :: f in seen <==> Collected(index, before, f) || exists j :: 0 <= j < i && Lower(decl.methods[j]) == f
      {
        var m := Lower(decl.methods[i]);
        if m !in seen {
          Taken(index, visited, out, key, decl.methods[i]);
          seen := seen + {m};
          out := out + [Required(decl.name, decl.methods[i])];
        }
        i := i + 1;
      }
      assert forall f :: Collected(index, visited, f) <==> Collected(index, before, f) || HasMethod(index, key, f);
    }
  }

  lemma Taken(index: Index, from: set<string>, out: seq<Required>, key: string, m: string)
    requires key in from && key in index && m in index[key].methods && NoTwice(out) && Sourced(index, from, out)
    ensures
      var more := out + [Required(index[key].name, m)];
      && Sourced(index, from, more) && (!Folded(out, Lower(m)) ==> NoTwice(more))
      && forall f :: Folded(more, f) <==> Folded(out, f) || f == Lower(m)
  {
    var r := Required(index[key].name, m);
    var more := out + [r];
    assert Declares(index[key], r);
    assert From(index, from, r);
    assert forall i :: 0 <= i < |more| ==> more[i] == if i < |out| then out[i] else r;
    assert more[|out|] == r;
    forall f | Folded(out, f) ensures Folded(more, f) {
      var i :| 0 <= i < |out| && Lower(out[i].method_) == f;
      assert more[i] == out[i];
    }
  }

  /** What was visited since before is what is in reach of root, and nothing it extends was left out. */
  ghost predicate Explored(index: Index, root: string, before: set<string>, all: set<string>) {
    before <= all && Closed(index, all - before, all) && forall k :: k in all - before ==> Reaches(index, root, k)
  }

  /** The same while some of what root itself extends is still to be visited. */
  ghost predicate Halfway(index: Index, root: string, before: set<string>, all: set<string>) {
    && before + {root} <= all && Closed(index, all - before - {root}, all)
    && forall k :: k in all - before ==> Reaches(index, root, k)
  }

  lemma NothingNew(index: Index, root: string, all: set<string>)
    ensures Explored(index, root, all, all)
  {
  }

  lemma Leaf(index: Index, before: set<string>, key: string)
    requires key !in index && key !in before
    ensures Explored(index, key, before, before + {key})
  {
    ReachesItself(index, key);
    hide Reaches;
  }

  lemma Absent(index: Index, before: set<string>, key: string)
    requires key !in index && key !in before
    ensures forall f :: Collected(index, before + {key}, f) <==> Collected(index, before, f)
  {
  }

  lemma SameOut(index: Index, before: set<string>, all: set<string>, out: seq<Required>)
    requires before <= all && Sourced(index, before, out)
    ensures Sourced(index, all, out)
  {
  }

  lemma Start(index: Index, key: string, before: set<string>)
    requires key !in before
    ensures Halfway(index, key, before, before + {key})
  {
    ReachesItself(index, key);
  }

  lemma Fewer(index: Index, before: set<string>, key: string, mid: set<string>)
    requires key in index && key !in before && Halfway(index, key, before, mid)
    ensures |index.Keys - mid| < |index.Keys - before|
  {
    hide Closed, Reaches;
    var keys := index.Keys;
    assert keys - before == (keys - mid) + ((keys - before) * mid);
    assert key in (keys - before) * mid;
  }

  lemma Parent(index: Index, key: string, before: set<string>, mid: set<string>, i: nat, all: set<string>)
    requires key in index && i < |index[key].extends_| && Halfway(index, key, before, mid)
    requires Explored(index, Lower(index[key].extends_[i]), mid, all)
    ensures Halfway(index, key, before, all) && mid <= all
  {
    hide Reaches;
    var b := Lower(index[key].extends_[i]);
    assert Extends(index, key, b);
    forall k | k in all - before ensures Reaches(index, key, k) {
      if k !in mid { ReachesThrough(index, key, b, k); }
    }
  }

  lemma Through(index: Index, key: string, before: set<string>, all: set<string>)
    requires key in index && key !in before && Halfway(index, key, before, all)
    requires forall j :: 0 <= j < |index[key].extends_| ==> Lower(index[key].extends_[j]) in all
    ensures Explored(index, key, before, all) && key in all
  {
    hide Reaches;
  }

  /** A method of a declaration in reach of key, under the name of that declaration. */
  ghost predicate InContract(index: Index, key: string, r: Required) {
    exists k :: Reaches(index, key, k) && k in index && Declares(index[k], r)
  }

  /** The methods of an interface and of everything in its reach, each once. The walk ends on circles. */
  method ContractOf(name: string, index: Index) returns (out: seq<Required>)
    ensures NoTwice(out)
    ensures forall f :: Folded(out, f) <==> Demands(index, Lower(name), f)
    ensures forall i :: 0 <= i < |out| ==> InContract(index, Lower(name), out[i])
  {
    hide NoTwice, Reaches, Closed, HasMethod, Folded, InContract;
    var c := new Collector(index);
    c.Collect(name);
    out := c.out;
    InReach(index, Lower(name), c.visited, out);
  }

  lemma InReach(index: Index, key: string, all: set<string>, out: seq<Required>)
    requires Explored(index, key, {}, all) && key in all && Sourced(index, all, out)
    ensures forall f :: Collected(index, all, f) <==> Demands(index, key, f)
    ensures forall i :: 0 <= i < |out| ==> InContract(index, key, out[i])
  {
    hide Reaches, HasMethod, Declares;
    assert all - {} == all;
    forall k | Reaches(index, key, k) ensures k in all { ClosedHolds(index, all, key, k); }
    forall i | 0 <= i < |out| ensures InContract(index, key, out[i]) {
      assert From(index, all, out[i]);
      var k :| k in all && k in index && Declares(index[k], out[i]);
      assert Reaches(index, key, k);
    }
  }

  // ---- the check of a program ----

  method InterfaceIndex(stmts: seq<Stmt>) returns (index: Index)
    ensures index == Indexed(stmts)
  {
    index := map[];
    var i := 0;
    while i < |stmts|
      invariant 0 <= i <= |stmts| && index == Indexed(stmts[..i])
    {
      assert stmts[..i + 1][..i] == stmts[..i];
      if stmts[i].InterfaceDecl? { index := index[Lower(stmts[i].i.name) := stmts[i].i]; }
      i := i + 1;
    }
    assert stmts[..i] == stmts;
  }

  /** The declaration of each name, the last one where there are several. */
  function Indexed(stmts: seq<Stmt>): Index {
    if stmts == [] then map[] else
    var last := stmts[|stmts| - 1];
    var rest := Indexed(stmts[..|stmts| - 1]);
    if last.InterfaceDecl? then rest[Lower(last.i.name) := last.i] else rest
  }

  /** The index holds a declaration for every folded name that is declared, and of several the last. */
  lemma {:induction false} IndexedIs(stmts: seq<Stmt>, key: string)
    ensures key in Indexed(stmts) <==> exists j :: 0 <= j < |stmts| && stmts[j].InterfaceDecl? && Lower(stmts[j].i.name) == key
    ensures
      key in Indexed(stmts) ==>
        exists j ::
          && 0 <= j < |stmts| && stmts[j] == InterfaceDecl(Indexed(stmts)[key]) && Lower(stmts[j].i.name) == key
          && forall k :: j < k < |stmts| && stmts[k].InterfaceDecl? ==> Lower(stmts[k].i.name) != key
    decreases |stmts|
  {
    hide Lower;
    if stmts != [] {
      var n := |stmts| - 1;
      var front := stmts[..n];
      IndexedIs(front, key);
      assert forall j :: 0 <= j < n ==> front[j] == stmts[j];
      if key in Indexed(stmts) {
        if stmts[n].InterfaceDecl? && Lower(stmts[n].i.name) == key {
          assert stmts[n] == InterfaceDecl(Indexed(stmts)[key]);
        } else {
          var j :| 0 <= j < |front| && front[j] == InterfaceDecl(Indexed(front)[key]) && Lower(front[j].i.name) == key
            && forall k :: j < k < |front| && front[k].InterfaceDecl? ==> Lower(front[k].i.name) != key;
          assert stmts[j] == InterfaceDecl(Indexed(stmts)[key]);
        }
      }
    }
  }

  /** A method of the class of that folded name, written in its body or at the top level. */
  predicate HasDeclared(c: Class, stmts: seq<Stmt>, f: string) {
    || (exists k :: 0 <= k < |c.methods| && Lower(c.methods[k]) == f)
    || (exists k :: 0 <= k < |stmts| && MethodOf(stmts[k], c) && Lower(stmts[k].name) == f)
  }

  predicate MethodOf(s: Stmt, c: Class) {
    s.FuncDecl? && s.class_ != "" && Lower(s.class_) == Lower(c.name)
  }

  method DeclaredMethods(c: Class, stmts: seq<Stmt>) returns (declared: set<string>)
    ensures forall f :: f in declared <==> HasDeclared(c, stmts, f)
  {
    declared := {};
    var i := 0;
    while i < |c.methods|
      invariant 0 <= i <= |c.methods|
      invariant forall f :: f in declared <==> exists k :: 0 <= k < i && Lower(c.methods[k]) == f
    {
      declared := declared + {Lower(c.methods[i])};
      i := i + 1;
    }
    ghost var own := declared;
    i := 0;
    while i < |stmts|
      invariant 0 <= i <= |stmts|
      invariant forall f :: f in declared <==> f in own || exists k :: 0 <= k < i && MethodOf(stmts[k], c) && Lower(stmts[k].name) == f
    {
      if stmts[i].FuncDecl? && stmts[i].class_ != "" && Lower(stmts[i].class_) == Lower(c.name) {
        declared := declared + {Lower(stmts[i].name)};
      }
      i := i + 1;
    }
  }

  /** The class misses a method some interface it names demands. */
  ghost predicate Misses(index: Index, stmts: seq<Stmt>, c: Class, f: string) {
    exists n :: 0 <= n < |c.implements| && Demands(index, Lower(c.implements[n]), f) && !HasDeclared(c, stmts, f)
  }

  predicate Reported(out: seq<Violation>, c: Class, f: string) {
    exists i :: 0 <= i < |out| && out[i].class_ == c && Lower(out[i].method_) == f
  }

  /** The interface a report names declares the method, and the class names it or one it is in reach of. */
  ghost predicate Justified(index: Index, v: Violation) {
    exists n :: 0 <= n < |v.class_.implements| &&
      InContract(index, Lower(v.class_.implements[n]), Required(v.interface, v.method_))
  }

  ghost predicate AllJustified(index: Index, out: seq<Violation>) {
    forall i :: 0 <= i < |out| ==> Justified(index, out[i])
  }

  /** What one class misses of the contracts it names. */
  method CheckClass(c: Class, stmts: seq<Stmt>, index: Index) returns (out: seq<Violation>)
    ensures forall f :: Reported(out, c, f) <==> Misses(index, stmts, c, f)
    ensures forall i :: 0 <= i < |out| ==> out[i].class_ == c
    ensures AllJustified(index, out)
  {
    hide Demands, Reported, Folded, HasDeclared, NoTwice, InContract;
    out := [];
    var declared := DeclaredMethods(c, stmts);
    NoneReported(c);
    var n := 0;
    while n < |c.implements|
      invariant 0 <= n <= |c.implements| && forall i :: 0 <= i < |out| ==> out[i].class_ == c
      invariant forall f :: Reported(out, c, f) <==> MissesOf(index, stmts, c, f, n)
      invariant AllJustified(index, out)
    {
      var reqs := ContractOf(c.implements[n], index);
      ghost var had := out;
      out := AddMissing(c, reqs, declared, out);
      MoreJustified(index, c, n, reqs, had, out);
      n := n + 1;
    }
  }

  lemma MoreJustified(index: Index, c: Class, n: nat, reqs: seq<Required>, before: seq<Violation>, out: seq<Violation>)
    requires n < |c.implements| && AllJustified(index, before) && |before| <= |out| && out[..|before|] == before
    requires forall i :: 0 <= i < |reqs| ==> InContract(index, Lower(c.implements[n]), reqs[i])
    requires forall i :: |before| <= i < |out| ==> Required(out[i].interface, out[i].method_) in reqs
    requires forall i :: 0 <= i < |out| ==> out[i].class_ == c
    ensures AllJustified(index, out)
  {
    hide InContract;
    forall i | 0 <= i < |out| ensures Justified(index, out[i]) {
      if i < |before| {
        assert out[i] == before[i];
      } else {
        assert InContract(index, Lower(c.implements[n]), Required(out[i].interface, out[i].method_));
      }
    }
  }

  lemma NoneReported(c: Class)
    ensures forall f :: !Reported([], c, f)
  {
  }

  /** Reports the required methods that are not declared. */
  method AddMissing(c: Class, reqs: seq<Required>, declared: set<string>, before: seq<Violation>) returns (out: seq<Violation>)
    requires forall i :: 0 <= i < |before| ==> before[i].class_ == c
    ensures forall f :: Reported(out, c, f) <==> Reported(before, c, f) || (Folded(reqs, f) && f !in declared)
    ensures forall i :: 0 <= i < |out| ==> out[i].class_ == c
    ensures |before| <= |out| && out[..|before|] == before
    ensures forall i :: |before| <= i < |out| ==> Required(out[i].interface, out[i].method_) in reqs
  {
    hide Reported, Folded;
    out := before;
    var i := 0;
    NothingFolded(reqs);
    while i < |reqs|
      invariant 0 <= i <= |reqs| && forall j :: 0 <= j < |out| ==> out[j].class_ == c
      invariant forall f :: Reported(out, c, f) <==> Reported(before, c, f) || (Folded(reqs[..i], f) && f !in declared)
      invariant |before| <= |out| && out[..|before|] == before
      invariant forall j :: |before| <= j < |out| ==> Required(out[j].interface, out[j].method_) in reqs
    {
      FoldedNext(reqs, i);
      if Lower(reqs[i].method_) !in declared {
        ReportedNext(out, c, Violation(c, reqs[i].interface, reqs[i].method_));
        out := out + [Violation(c, reqs[i].interface, reqs[i].method_)];
      }
      i := i + 1;
    }
    assert reqs[..i] == reqs;
  }

  lemma NothingFolded(reqs: seq<Required>)
    ensures forall f :: !Folded(reqs[..0], f)
  {
  }

  ghost predicate MissesOf(index: Index, stmts: seq<Stmt>, c: Class, f: string, n: nat)
    requires n <= |c.implements|
  {
    exists k :: 0 <= k < n && Demands(index, Lower(c.implements[k]), f) && !HasDeclared(c, stmts, f)
  }

  lemma FoldedNext(reqs: seq<Required>, i: nat)
    requires i < |reqs|
    ensures forall f :: Folded(reqs[..i + 1], f) <==> Folded(reqs[..i], f) || Lower(reqs[i].method_) == f
  {
    forall f | Folded(reqs[..i], f) ensures Folded(reqs[..i + 1], f) {
      var k :| 0 <= k < i && Lower(reqs[..i][k].method_) == f;
      assert reqs[..i + 1][k] == reqs[..i][k];
    }
    assert reqs[..i + 1][i] == reqs[i];
    forall f | Folded(reqs[..i + 1], f) && Lower(reqs[i].method_) != f ensures Folded(reqs[..i], f) {
      var k :| 0 <= k < i + 1 && Lower(reqs[..i + 1][k].method_) == f;
      assert reqs[..i][k] == reqs[..i + 1][k];
    }
  }

  lemma ReportedNext(out: seq<Violation>, c: Class, v: Violation)
    ensures forall d, f :: Reported(out + [v], d, f) <==> Reported(out, d, f) || (d == v.class_ && f == Lower(v.method_))
  {
    forall d, f ensures Reported(out + [v], d, f) <==> Reported(out, d, f) || (d == v.class_ && f == Lower(v.method_)) {
      if Reported(out, d, f) {
        var i :| 0 <= i < |out| && out[i].class_ == d && Lower(out[i].method_) == f;
        assert (out + [v])[i] == out[i];
      }
      assert (out + [v])[|out|] == v;
    }
  }

  lemma ReportedCat(a: seq<Violation>, b: seq<Violation>, c: Class, f: string)
    ensures Reported(a + b, c, f) <==> Reported(a, c, f) || Reported(b, c, f)
  {
    if Reported(a, c, f) {
      var i :| 0 <= i < |a| && a[i].class_ == c && Lower(a[i].method_) == f;
      assert (a + b)[i] == a[i];
    }
    if Reported(b, c, f) {
      var i :| 0 <= i < |b| && b[i].class_ == c && Lower(b[i].method_) == f;
      assert (a + b)[|a| + i] == b[i];
    }
  }

  /** The classes of a program in order, the anonymous ones last. */
  function Classes(stmts: seq<Stmt>): seq<Class> {
    if stmts == [] then []
    else Classes(stmts[..|stmts| - 1]) + if stmts[|stmts| - 1].ClassDecl? then [stmts[|stmts| - 1].c] else []
  }

  /** They are the class declarations at its top level, each as often as it is declared and in that order. */
  lemma {:induction false} ClassesAre(stmts: seq<Stmt>, before: nat)
    requires before <= |stmts|
    ensures forall c :: c in Classes(stmts) <==> ClassDecl(c) in stmts
    ensures Classes(stmts[..before]) <= Classes(stmts)
    ensures before < |stmts| && stmts[before].ClassDecl? ==> Classes(stmts[..before + 1]) == Classes(stmts[..before]) + [stmts[before].c]
    ensures before < |stmts| && !stmts[before].ClassDecl? ==> Classes(stmts[..before + 1]) == Classes(stmts[..before])
    decreases |stmts|
  {
    if before < |stmts| { assert stmts[..before + 1][..before] == stmts[..before]; }
    if stmts == [] {
      assert stmts[..before] == [];
    } else {
      var n := |stmts| - 1;
      assert stmts == stmts[..n] + [stmts[n]];
      ClassesAre(stmts[..n], if before <= n then before else n);
      if before <= n { assert stmts[..n][..before] == stmts[..before]; } else { assert stmts[..before] == stmts; }
    }
  }

  /**
   Reports exactly the methods that a class of the program lacks and an interface it names, or one
   in reach of it, declares, each under the name of one that does.
   */
  method CheckInterfaces(stmts: seq<Stmt>, extra: seq<Class>) returns (out: seq<Violation>)
    ensures
      forall c, f :: Reported(out, c, f) <==> c in Classes(stmts) + extra && Misses(Indexed(stmts), stmts, c, f)
    ensures out == [] <==> forall c, f :: c in Classes(stmts) + extra ==> !Misses(Indexed(stmts), stmts, c, f)
    ensures AllJustified(Indexed(stmts), out)
  {
    hide Misses, Indexed, Justified;
    var index := InterfaceIndex(stmts);
    ghost var all := Classes(stmts) + extra;
    if |index| == 0 {
      forall c, f ensures !Misses(index, stmts, c, f) { NoInterfaces(index, stmts, c, f); }
      return [];
    }
    var decls := Gather(stmts);
    decls := decls + extra;
    out := [];
    var i := 0;
    while i < |decls|
      invariant 0 <= i <= |decls|
      invariant forall c, f :: Reported(out, c, f) <==> c in decls[..i] && Misses(index, stmts, c, f)
      invariant forall k :: 0 <= k < |out| ==> Reported(out, out[k].class_, Lower(out[k].method_))
      invariant AllJustified(index, out)
    {
      var more := CheckClass(decls[i], stmts, index);
      forall c, f ensures Reported(out + more, c, f) <==> c in decls[..i + 1] && Misses(index, stmts, c, f) {
        ReportedCat(out, more, c, f);
        OneMoreClass(decls, i, c);
        if Reported(more, c, f) { assert c == decls[i]; }
      }
      out := out + more;
      i := i + 1;
    }
    assert decls[..i] == decls;
    if out != [] { assert Reported(out, out[0].class_, Lower(out[0].method_)); }
  }

  lemma OneMoreClass(decls: seq<Class>, i: nat, c: Class)
    requires i < |decls|
    ensures c in decls[..i + 1] <==> c in decls[..i] || c == decls[i]
  {
    assert decls[..i + 1] == decls[..i] + [decls[i]];
  }

  lemma NoInterfaces(index: Index, stmts: seq<Stmt>, c: Class, f: string)
    requires |index| == 0
    ensures !Misses(index, stmts, c, f)
  {
    assert index.Keys == {};
  }

  method Gather(stmts: seq<Stmt>) returns (decls: seq<Class>)
    ensures decls == Classes(stmts)
  {
    decls := [];
    var i := 0;
    while i < |stmts|
      invariant 0 <= i <= |stmts| && decls == Classes(stmts[..i])
    {
      assert stmts[..i + 1][..i] == stmts[..i];
      if stmts[i].ClassDecl? { decls := decls + [stmts[i].c]; }
      i := i + 1;
    }
    assert stmts[..i] == stmts;
  }

  // ---- the interfaces of a class ----

  /** The names a class implements and everything in reach of them. */
  ghost predicate Named(index: Index, c: Class, n: nat, k: string)
    requires n <= |c.implements|
  {
    exists i :: 0 <= i < n && Reaches(index, Lower(c.implements[i]), k)
  }

  /** The elements of the set, each once. */
  ghost predicate Lists(out: seq<string>, seen: set<string>) {
    (forall i, j :: 0 <= i < j < |out| ==> out[i] != out[j]) && forall k :: k in out <==> k in seen
  }

  class Walker {
    const index: Index
    var seen: set<string>
    var out: seq<string>

    constructor (index: Index)
      ensures this.index == index && seen == {} && Valid()
    {
      this.index := index;
      seen, out := {}, [];
    }

    ghost predicate Valid()
      reads this
    {
      Lists(out, seen)
    }

    method Mark(key: string)
      requires Valid() && key !in seen
      modifies this
      ensures Valid() && seen == old(seen) + {key}
    {
      hide Lists;
      Joined(out, seen, key);
      seen, out := seen + {key}, out + [key];
    }

    method Walk(name: string)
      requires Valid()
      modifies this
      ensures Valid() && Lower(name) in seen && Explored(index, Lower(name), old(seen), seen)
      decreases |index.Keys - seen|
    {
      hide Explored, Halfway, Lists;
      var key := Lower(name);
      if key in seen {
        NothingNew(index, key, seen);
        return;
      }
      ghost var before := seen;
      Mark(key);
      Start(index, key, before);
      if key !in index {
        Leaf(index, before, key);
        return;
      }
      var decl := index[key];
      var i := 0;
      while i < |decl.extends_|
        invariant 0 <= i <= |decl.extends_| && Valid() && Halfway(index, key, before, seen)
        invariant forall j :: 0 <= j < i ==> Lower(decl.extends_[j]) in seen
      {
        ghost var mid := seen;
        Fewer(index, before, key, mid);
        Walk(decl.extends_[i]);
        Parent(index, key, before, mid, i, seen);
        i := i + 1;
      }
      Through(index, key, before, seen);
    }
  }

  lemma Joined(out: seq<string>, seen: set<string>, key: string)
    requires Lists(out, seen) && key !in seen
    ensures Lists(out + [key], seen + {key})
  {
  }

  /** The names a class answers to: what it implements and everything in reach, each once. */
  method InterfaceNames(c: Class, stmts: seq<Stmt>) returns (out: seq<string>)
    ensures forall i, j :: 0 <= i < j < |out| ==> out[i] != out[j]
    ensures forall k :: k in out <==> Named(Indexed(stmts), c, |c.implements|, k)
  {
    hide Indexed, Reaches, Explored;
    if |c.implements| == 0 { return []; }
    var index := InterfaceIndex(stmts);
    var w := new Walker(index);
    var i := 0;
    ClosedNothing(index);
    while i < |c.implements|
      invariant 0 <= i <= |c.implements| && w.Valid() && Closed(index, w.seen, w.seen) && w.index == index
      invariant forall k :: k in w.seen <==> Named(index, c, i, k)
      invariant fresh(w)
    {
      ghost var before := w.seen;
      w.Walk(c.implements[i]);
      Added(index, c, i, before, w.seen);
      i := i + 1;
    }
    out := w.out;
  }

  lemma ClosedNothing(index: Index)
    ensures Closed(index, {}, {})
  {
  }

  lemma Added(index: Index, c: Class, i: nat, before: set<string>, all: set<string>)
    requires i < |c.implements| && Closed(index, before, before) && Lower(c.implements[i]) in all
    requires Explored(index, Lower(c.implements[i]), before, all)
    requires forall k :: k in before <==> Named(index, c, i, k)
    ensures Closed(index, all, all) && forall k :: k in all <==> Named(index, c, i + 1, k)
  {
    hide Reaches;
    var root := Lower(c.implements[i]);
    assert Closed(index, all, all);
    forall k | Reaches(index, root, k) ensures k in all { ClosedHolds(index, all, root, k); }
    assert forall k :: Named(index, c, i + 1, k) <==> Named(index, c, i, k) || Reaches(index, root, k);
  }

  /** What a class has to declare is what the interfaces it answers to declare. */
  lemma NamesAreContracts(index: Index, c: Class, f: string)
    ensures
      (exists n :: 0 <= n < |c.implements| && Demands(index, Lower(c.implements[n]), f)) <==>
      exists k :: Named(index, c, |c.implements|, k) && HasMethod(index, k, f)
  {
    hide Reaches, HasMethod;
  }
}
