/** The index of the free functions of a tree, against a scan of their names. */
module Symbols {
  import opened Names
  import opened IncludeCache

  // ---- what a scan of the names answers ----

  predicate Exact(name: string, sym: string) {
    Lower(name) == Lower(sym)
  }

  /** The name ends in the symbol behind a separator, and something stands in front of that. */
  predicate EndsIn(name: string, sym: string) {
    |name| > |sym| + 1 && Lower(name[|name| - |sym| - 1..]) == Lower("\\" + sym)
  }

  /** The names spelled like the symbol, and where there is none those that end in it. */
  function Scan(names: set<string>, sym: string): set<string> {
    var exact := set n | n in names && Exact(n, sym);
    if exact != {} then exact else set n | n in names && EndsIn(n, sym)
  }

  function Members(names: seq<string>): set<string> {
    set n | n in names
  }

  method MatchSymbols(names: seq<string>, sym: string) returns (out: seq<string>)
    ensures Members(out) == Scan(Members(names), sym)
    ensures |out| <= |names| && (Unique(names) ==> Unique(out))
  {
    var exact: seq<string> := [];
    var i := 0;
    while i < |names|
      invariant 0 <= i <= |names| && |exact| <= i
      invariant forall n :: n in exact <==> n in names[..i] && Exact(n, sym)
      invariant Unique(names) ==> Unique(exact)
    {
      Upto(names, i);
      StillUnique(names, i, exact);
      if Lower(names[i]) == Lower(sym) { exact := exact + [names[i]]; }
      i := i + 1;
    }
    assert names[..i] == names;
    ghost var es := set n | n in Members(names) && Exact(n, sym);
    assert es == Members(exact);
    if |exact| > 0 {
      assert exact[0] in es;
      return exact;
    }
    assert (set n | n in Members(names) && Exact(n, sym)) == {};
    out := [];
    var tail := "\\" + sym;
    i := 0;
    while i < |names|
      invariant 0 <= i <= |names| && |out| <= i
      invariant forall n :: n in out <==> n in names[..i] && EndsIn(n, sym)
      invariant Unique(names) ==> Unique(out)
    {
      Upto(names, i);
      StillUnique(names, i, out);
      var name := names[i];
      if |name| > |tail| && Lower(name[|name| - |tail|..]) == Lower(tail) { out := out + [name]; }
      i := i + 1;
    }
  }

  lemma Upto(names: seq<string>, i: nat)
    requires i < |names|
    ensures forall n :: n in names[..i + 1] <==> n in names[..i] || n == names[i]
  {
    assert names[..i + 1] == names[..i] + [names[i]];
  }

  lemma StillUnique(names: seq<string>, i: nat, s: seq<string>)
    requires i < |names| && (forall n :: n in s ==> n in names[..i]) && (Unique(names) ==> Unique(s))
    ensures Unique(names) ==> Unique(s + [names[i]])
  {
    if Unique(names) {
      forall n | n in s ensures n != names[i] {
        var j :| 0 <= j < i && names[..i][j] == n;
        assert names[j] != names[i];
      }
      UniqueMore(s, names[i]);
    }
  }

  lemma UniqueMore(s: seq<string>, n: string)
    requires Unique(s) && n !in s
    ensures Unique(s + [n])
  {
  }

  // ---- the index ----

  /** What stands behind a separator of a folded name, up to its end. */
  predicate Tail(folded: string, k: string) {
    |k| < |folded| && folded[|folded| - |k| - 1] == '\\' && folded[|folded| - |k|..] == k
  }

  function Listed(m: map<string, seq<string>>, k: string): seq<string> {
    if k in m then m[k] else []
  }

  function Filed(m: map<string, seq<string>>, k: string, v: string): map<string, seq<string>> {
    m[k := Listed(m, k) + [v]]
  }

  predicate Unique(s: seq<string>) {
    forall i, j :: 0 <= i < j < |s| ==> s[i] != s[j]
  }

  ghost predicate ExactFor(m: map<string, seq<string>>, names: set<string>) {
    forall k :: Unique(Listed(m, k)) && forall n :: n in Listed(m, k) <==> n in names && Lower(n) == k
  }

  ghost predicate SuffixFor(m: map<string, seq<string>>, names: set<string>) {
    forall k :: Unique(Listed(m, k)) && forall n :: n in Listed(m, k) <==> n in names && Tail(Lower(n), k)
  }

  class SymbolTable {
    var sources: map<string, seq<string>>
    var exact: map<string, seq<string>>
    var suffix: map<string, seq<string>>

    constructor ()
      ensures sources == map[] && Indexes({})
    {
      sources, exact, suffix := map[], map[], map[];
    }

    ghost predicate Indexes(names: set<string>)
      reads this`exact, this`suffix
    {
      ExactFor(exact, names) && SuffixFor(suffix, names)
    }

    /** Files a name under its full spelling and under every chain of segments at its end. */
    method Index(name: string, ghost names: set<string>)
      requires Indexes(names) && name !in names
      modifies this`exact, this`suffix
      ensures Indexes(names + {name})
    {
      hide ExactFor, SuffixFor;
      var folded := Lower(name);
      FiledExact(exact, names, name);
      exact := Filed(exact, folded, name);
      ghost var before := suffix;
      var at := 0;
      TailsFrom(before, names, name);
      while true
        invariant 0 <= at <= |folded| && SuffixUpto(suffix, names, name, at)
        invariant ExactFor(exact, names + {name})
        decreases |folded| - at
      {
        var cut := Separator(folded, at);
        if cut == |folded| {
          NoTailLeft(suffix, names, name, at);
          return;
        }
        FiledTail(suffix, names, name, at, cut);
        at := cut + 1;
        suffix := Filed(suffix, folded[at..], name);
      }
    }
  }

  method Separator(s: string, from: nat) returns (cut: nat)
    requires from <= |s|
    ensures from <= cut <= |s| && (cut < |s| ==> s[cut] == '\\') && forall k :: from <= k < cut ==> s[k] != '\\'
  {
    cut := from;
    while cut < |s| && s[cut] != '\\'
      invariant from <= cut <= |s| && forall k :: from <= k < cut ==> s[k] != '\\'
    {
      cut := cut + 1;
    }
  }

  /** The name is filed under the tails that start at at or before it. */
  ghost predicate SuffixUpto(m: map<string, seq<string>>, names: set<string>, name: string, at: nat) {
    forall k ::
      && Unique(Listed(m, k))
      && forall n :: n in Listed(m, k) <==>
        if n == name then Tail(Lower(name), k) && |Lower(name)| - |k| <= at else n in names && Tail(Lower(n), k)
  }

  lemma FiledExact(m: map<string, seq<string>>, names: set<string>, name: string)
    requires ExactFor(m, names) && name !in names
    ensures ExactFor(Filed(m, Lower(name), name), names + {name})
  {
    var r := Filed(m, Lower(name), name);
    forall k ensures Unique(Listed(r, k)) && forall n :: n in Listed(r, k) <==> n in names + {name} && Lower(n) == k {
      assert Unique(Listed(m, k));
    }
  }

  lemma TailsFrom(m: map<string, seq<string>>, names: set<string>, name: string)
    requires SuffixFor(m, names) && name !in names
    ensures SuffixUpto(m, names, name, 0)
  {
  }

  lemma FiledTail(m: map<string, seq<string>>, names: set<string>, name: string, at: nat, cut: nat)
    requires SuffixUpto(m, names, name, at) && at <= cut < |Lower(name)| && Lower(name)[cut] == '\\'
    requires forall k :: at <= k < cut ==> Lower(name)[k] != '\\'
    ensures SuffixUpto(Filed(m, Lower(name)[cut + 1..], name), names, name, cut + 1)
  {
    var folded := Lower(name);
    var key := folded[cut + 1..];
    var r := Filed(m, key, name);
    hide Tail, Lower, Unique, Filed;
    forall k ensures
      && Unique(Listed(r, k))
      && forall n :: n in Listed(r, k) <==> if n == name then Tail(folded, k) && |folded| - |k| <= cut + 1 else n in names && Tail(Lower(n), k)
    {
      assert Unique(Listed(m, k));
      NextTail(folded, at, cut, k);
      Adds(m, key, name, k);
    }
  }

  /** Behind a separator stands one more tail. */
  lemma NextTail(folded: string, at: nat, cut: nat, k: string)
    requires at <= cut < |folded| && folded[cut] == '\\' && forall i :: at <= i < cut ==> folded[i] != '\\'
    ensures Tail(folded, k) && |folded| - |k| <= cut + 1 <==> (Tail(folded, k) && |folded| - |k| <= at) || k == folded[cut + 1..]
    ensures k == folded[cut + 1..] ==> !(Tail(folded, k) && |folded| - |k| <= at)
  {
    if Tail(folded, k) && at < |folded| - |k| <= cut + 1 {
      assert folded[|folded| - |k| - 1] == '\\';
      assert |folded| - |k| == cut + 1;
    }
  }

  lemma Adds(m: map<string, seq<string>>, key: string, v: string, k: string)
    requires Unique(Listed(m, k)) && (k == key ==> v !in Listed(m, k))
    ensures Unique(Listed(Filed(m, key, v), k))
    ensures forall n :: n in Listed(Filed(m, key, v), k) <==> n in Listed(m, k) || (n == v && k == key)
  {
  }

  /** No tail of a folded name starts behind its last separator. */
  lemma NoTailBehind(folded: string, at: nat, k: string)
    requires at <= |folded| && forall i :: at <= i < |folded| ==> folded[i] != '\\'
    ensures Tail(folded, k) ==> |folded| - |k| <= at
  {
    if Tail(folded, k) { assert folded[|folded| - |k| - 1] == '\\'; }
  }

  lemma NoTailLeft(m: map<string, seq<string>>, names: set<string>, name: string, at: nat)
    requires SuffixUpto(m, names, name, at) && at <= |Lower(name)|
    requires forall k :: at <= k < |Lower(name)| ==> Lower(name)[k] != '\\'
    ensures SuffixFor(m, names + {name})
  {
    hide Tail, Lower, Listed, Unique;
    forall k ensures Unique(Listed(m, k)) && forall n :: n in Listed(m, k) <==> n in names + {name} && Tail(Lower(n), k) {
      assert Unique(Listed(m, k));
      NoTailBehind(Lower(name), at, k);
    }
  }

  // ---- the index answers what the scan does ----

  /** What a lookup takes from the index: the full spelling, and only where there is none the suffix. */
  function Found(exact: map<string, seq<string>>, suffix: map<string, seq<string>>, sym: string): set<string> {
    var es := Listed(exact, Lower(sym));
    if es != [] then Members(es) else Members(Listed(suffix, Lower(sym)))
  }

  lemma LowerAt(s: string, i: nat)
    requires i <= |s|
    ensures Lower(s)[i..] == Lower(s[i..])
  {
  }

  /** A name has the symbol for a tail if it ends in it, or is nothing but a separator and it. */
  lemma TailOrEnd(name: string, sym: string)
    ensures Tail(Lower(name), Lower(sym)) <==> EndsIn(name, sym) || Lower(name) == Lower("\\" + sym)
  {
    var tail := "\\" + sym;
    assert Lower(tail)[0] == '\\' && Lower(tail)[1..] == Lower(sym) by { LowerAt(tail, 1); }
    if |name| > |sym| {
      var i := |name| - |sym|;
      LowerAt(name, i);
      LowerAt(name, i - 1);
      assert Lower(name)[i - 1..] == [Lower(name)[i - 1]] + Lower(name)[i..];
      assert Lower(tail) == ['\\'] + Lower(sym);
    }
  }

  /**
   A lookup in the index answers the names a scan of them would, unless no name is spelled like
   the symbol and some name is the symbol behind a leading separator.
   */
  lemma IndexIsScan(exact: map<string, seq<string>>, suffix: map<string, seq<string>>, names: set<string>, sym: string)
    requires ExactFor(exact, names) && SuffixFor(suffix, names)
    ensures Found(exact, suffix, sym) == Scan(names, sym) <==>
      (exists n :: n in names && Exact(n, sym)) || (forall n :: n in names ==> Lower(n) != Lower("\\" + sym))
  {
    hide EndsIn, Tail, Exact, ExactFor, SuffixFor;
    var es, ss := Listed(exact, Lower(sym)), Listed(suffix, Lower(sym));
    var scanned := set n | n in names && Exact(n, sym);
    ExactFound(exact, names, sym);
    SuffixFound(suffix, names, sym);
    assert Members(es) == scanned;
    if es == [] {
      var ends := set n | n in names && EndsIn(n, sym);
      forall n | n in names && Lower(n) == Lower("\\" + sym) ensures n in ss && n !in ends { NotBoth(n, sym); }
      assert Scan(names, sym) == ends && Found(exact, suffix, sym) == Members(ss);
    } else {
      assert es[0] in scanned;
    }
  }

  lemma ExactFound(exact: map<string, seq<string>>, names: set<string>, sym: string)
    requires ExactFor(exact, names)
    ensures forall n :: n in Listed(exact, Lower(sym)) <==> n in names && Exact(n, sym)
  {
  }

  lemma SuffixFound(suffix: map<string, seq<string>>, names: set<string>, sym: string)
    requires SuffixFor(suffix, names)
    ensures forall n :: n in Listed(suffix, Lower(sym)) <==> n in names && (EndsIn(n, sym) || Lower(n) == Lower("\\" + sym))
  {
    hide EndsIn, Tail;
    forall n ensures Tail(Lower(n), Lower(sym)) <==> EndsIn(n, sym) || Lower(n) == Lower("\\" + sym) { TailOrEnd(n, sym); }
  }

  lemma NotBoth(name: string, sym: string)
    requires Lower(name) == Lower("\\" + sym)
    ensures !EndsIn(name, sym)
  {
    assert |Lower(name)| == |sym| + 1;
  }

  // ---- the table kept for a cache ----

  predicate DeclaredIn(p: Program, n: string) {
    Func("", n) in p
  }

  ghost predicate DeclaredSomewhere(ps: Programs, n: string) {
    exists path :: path in ps && DeclaredIn(ps[path], n)
  }

  /** The table files every free function of the programs, and the files that declare it. */
  ghost predicate Describes(sources: map<string, seq<string>>, ps: Programs) {
    && (forall n :: n in sources <==> DeclaredSomewhere(ps, n))
    && (forall n, path :: n in sources ==> (path in sources[n] <==> path in ps && DeclaredIn(ps[path], n)))
  }

  class Runtime {
    const cache: Cache
    var symbols: SymbolTable?
    var symbolsVersion: nat
    ghost var seen: nat // the writes the kept table was built behind

    constructor (cache: Cache)
      ensures this.cache == cache && symbols == null && Valid()
    {
      this.cache := cache;
      symbols, symbolsVersion, seen := null, 0, 0;
    }

    /** A kept table describes the programs at the version it was built at. */
    ghost predicate Valid()
      reads this, symbols
    {
      symbols != null ==>
        && symbolsVersion == VersionOf(seen)
        && symbols.Indexes(symbols.sources.Keys)
    }

    /** The kept table is the one for the programs of the first writes of the cache. */
    ghost predicate Kept()
      reads this, symbols, cache
    {
      symbols != null ==> seen <= |cache.writes| && Describes(symbols.sources, AllWritten(map[], cache.writes[..seen]))
    }

    /** The index for the programs in the cache now: the kept one while nothing was written, or a new one. */
    method SymbolIndex() returns (table: SymbolTable)
      requires Valid() && Kept() && cache.Valid()
      requires symbols != null ==> |cache.writes| - seen < VERSIONS
      modifies this
      ensures Valid() && Kept() && table == symbols
      ensures Describes(table.sources, cache.programs) && table.Indexes(table.sources.Keys)
      ensures old(symbols) != null && old(seen) == |cache.writes| ==> table == old(symbols)
      ensures old(symbols) != null && old(seen) < |cache.writes| ==> fresh(table)
    {
      hide Describes, AllWritten, VersionOf;
      if symbols != null {
        SameVersion(seen, |cache.writes|);
        var changed := cache.ChangedSince(symbolsVersion);
        if !changed {
          assert cache.writes[..seen] == cache.writes;
          return symbols;
        }
      }
      var programs, at := cache.Snapshot();
      table := BuildTable(programs);
      symbols, symbolsVersion, seen := table, at, |cache.writes|;
      assert cache.writes[..seen] == cache.writes;
    }
  }

  // A write somebody makes to the cache between two lookups.
  datatype Request = PutFile(path: string, program: Program) | ClearAll

  predicate Carried(w: Write, op: Request) {
    match op
    case PutFile(path, program) => w.Put? && w.path == path && w.program == program
    case ClearAll => w == Empty
  }

  /** Behind the first writes stand those that were asked for. */
  predicate CarriedOut(writes: seq<Write>, from: nat, ops: seq<Request>) {
    |writes| == from + |ops| && forall k :: 0 <= k < |ops| ==> Carried(writes[from + k], ops[k])
  }

  lemma OneCarried(before: seq<Write>, after: seq<Write>, from: nat, ops: seq<Request>, i: nat)
    requires i < |ops| && CarriedOut(before, from, ops[..i])
    requires |after| == |before| + 1 && after[..|before|] == before && Carried(after[|before|], ops[i])
    ensures CarriedOut(after, from, ops[..i + 1])
  {
    var done := ops[..i + 1];
    forall k | 0 <= k < |done| ensures Carried(after[from + k], done[k]) {
      if k < i { assert after[from + k] == before[from + k] && ops[..i][k] == done[k]; }
    }
  }

  /** Through any writes, evictions and clears in between, a lookup works on an index of the programs cached then. */
  method LookupAfter(rt: Runtime, ops: seq<Request>) returns (table: SymbolTable)
    requires rt.Valid() && rt.Kept() && rt.cache.Valid()
    requires rt.symbols != null ==> |rt.cache.writes| + |ops| - rt.seen < VERSIONS
    modifies rt, rt.cache
    ensures rt.Valid() && rt.Kept() && rt.cache.Valid()
    ensures Describes(table.sources, rt.cache.programs) && table.Indexes(table.sources.Keys)
    ensures old(rt.cache.writes) <= rt.cache.writes && CarriedOut(rt.cache.writes, |old(rt.cache.writes)|, ops)
    ensures |ops| > 0 || old(rt.symbols) == null || old(rt.seen) < |old(rt.cache.writes)| || table == old(rt.symbols)
  {
    hide Describes, AllWritten, ExactFor, SuffixFor;
    ghost var before := rt.cache.writes;
    var i := 0;
    while i < |ops|
      invariant 0 <= i <= |ops| && rt.cache.Valid() && |rt.cache.writes| == |before| + i
      invariant rt.cache.writes[..|before|] == before
      invariant CarriedOut(rt.cache.writes, |before|, ops[..i])
      invariant rt.symbols == old(rt.symbols) && rt.seen == old(rt.seen) && rt.Valid() && rt.Kept()
    {
      ghost var mid := rt.cache.writes;
      match ops[i] {
        case PutFile(path, program) => rt.cache.Set(path, program);
        case ClearAll => rt.cache.Clear();
      }
      assert rt.cache.writes[..|mid|] == mid;
      OneCarried(mid, rt.cache.writes, |before|, ops, i);
      assert rt.cache.writes[..|before|] == mid[..|before|];
      if rt.symbols != null { assert rt.cache.writes[..rt.seen] == mid[..rt.seen]; }
      i := i + 1;
    }
    assert ops[..|ops|] == ops;
    table := rt.SymbolIndex();
  }

  /** The table so far files what the given paths declare. */
  ghost predicate Covers(sources: map<string, seq<string>>, ps: Programs, done: set<string>) {
    && (forall n :: n in sources <==> exists path :: path in done && path in ps && DeclaredIn(ps[path], n))
    && (forall n, path :: n in sources ==> (path in sources[n] <==> path in done && path in ps && DeclaredIn(ps[path], n)))
  }

  method BuildTable(programs: Programs) returns (table: SymbolTable)
    ensures fresh(table) && Describes(table.sources, programs) && table.Indexes(table.sources.Keys)
  {
    hide ExactFor, SuffixFor, Covers;
    table := new SymbolTable();
    CoversNone(programs);
    var todo := programs.Keys;
    ghost var done: set<string> := {};
    assert table.sources.Keys == {};
    while todo != {}
      invariant fresh(table) && table.Indexes(table.sources.Keys) && Covers(table.sources, programs, done)
      invariant done + todo == programs.Keys && done !! todo
      decreases |todo|
    {
      var path :| path in todo;
      todo := todo - {path};
      AddProgram(table, programs, path, done);
      done := done + {path};
    }
    assert done == programs.Keys;
    CoversAll(table.sources, programs);
  }

  lemma CoversNone(ps: Programs)
    ensures Covers(map[], ps, {})
  {
  }

  lemma CoversAll(sources: map<string, seq<string>>, ps: Programs)
    requires Covers(sources, ps, ps.Keys)
    ensures Describes(sources, ps)
  {
  }

  /** The table files what the done paths declare and the first functions of one more. */
  ghost predicate Partly(sources: map<string, seq<string>>, ps: Programs, done: set<string>, path: string, i: nat)
    requires path in ps && i <= |ps[path]|
  {
    && (forall n :: n in sources <==> (exists p :: p in done && p in ps && DeclaredIn(ps[p], n)) || DeclaredIn(ps[path][..i], n))
    && (forall n, p :: n in sources ==>
          (p in sources[n] <==> (p in done && p in ps && DeclaredIn(ps[p], n)) || (p == path && DeclaredIn(ps[path][..i], n))))
  }

  method AddProgram(table: SymbolTable, programs: Programs, path: string, ghost done: set<string>)
    requires path in programs && path !in done
    requires table.Indexes(table.sources.Keys) && Covers(table.sources, programs, done)
    modifies table
    ensures table.Indexes(table.sources.Keys) && Covers(table.sources, programs, done + {path})
  {
    hide Partly, Covers, ExactFor, SuffixFor;
    var stmts := programs[path];
    PartlyNone(table.sources, programs, done, path);
    var i := 0;
    while i < |stmts|
      invariant 0 <= i <= |stmts| && table.Indexes(table.sources.Keys) && Partly(table.sources, programs, done, path, i)
    {
      var decl := stmts[i];
      PartlyNext(table.sources, programs, done, path, i);
      if decl.class_ == "" {
        ghost var keys := table.sources.Keys;
        if decl.name !in table.sources {
          table.Index(decl.name, keys);
        } else {
          assert keys + {decl.name} == keys;
        }
        assert table.Indexes(keys + {decl.name});
        table.sources := Filed(table.sources, decl.name, path);
        assert table.sources.Keys == keys + {decl.name};
      }
      i := i + 1;
    }
    PartlyAll(table.sources, programs, done, path);
  }

  lemma PartlyNone(sources: map<string, seq<string>>, ps: Programs, done: set<string>, path: string)
    requires path in ps && Covers(sources, ps, done)
    ensures Partly(sources, ps, done, path, 0)
  {
  }

  lemma PartlyNext(sources: map<string, seq<string>>, ps: Programs, done: set<string>, path: string, i: nat)
    requires path in ps && i < |ps[path]| && Partly(sources, ps, done, path, i)
    ensures
      var f := ps[path][i];
      Partly(if f.class_ == "" then Filed(sources, f.name, path) else sources, ps, done, path, i + 1)
  {
    assert ps[path][..i + 1] == ps[path][..i] + [ps[path][i]];
  }

  lemma PartlyAll(sources: map<string, seq<string>>, ps: Programs, done: set<string>, path: string)
    requires path in ps && Partly(sources, ps, done, path, |ps[path]|)
    ensures Covers(sources, ps, done + {path})
  {
    assert ps[path][..|ps[path]|] == ps[path];
  }
}
