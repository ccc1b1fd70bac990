/** Route paths as sequences of groups: which paths those are, what they declare and how they are rendered. */
module RouteGroups {
  import opened Route

  // One byte outside of braces, `{$}`, or a parameter in one of its three forms.
  datatype Group = Byte(c: char) | Last | Plain(name: string) | Wild(name: string) | Limited(name: string, limit: string)

  function Spell(g: Group): string {
    match g
    case Byte(c) => [c]
    case Last => "{$}"
    case Plain(name) => "{" + name + "}"
    case Wild(name) => "{" + name + "..." + "}"
    case Limited(name, limit) => "{" + name + ":" + limit + "}"
  }

  /** chi spells a rest parameter `*`, ServeMux has no patterns. */
  function SpellFor(g: Group, d: Dialect): string {
    if d == Chi && g.Wild? then "*"
    else if d == ServeMux && g.Limited? then "{" + g.name + "}"
    else Spell(g)
  }

  function Spelled(gs: seq<Group>): string {
    if gs == [] then "" else Spell(gs[0]) + Spelled(gs[1..])
  }

  function SpelledFor(gs: seq<Group>, d: Dialect): string {
    if gs == [] then "" else SpellFor(gs[0], d) + SpelledFor(gs[1..], d)
  }

  predicate Named(g: Group) {
    g.Plain? || g.Wild? || g.Limited?
  }

  function Declared(gs: seq<Group>): seq<RouteParam> {
    if gs == [] then []
    else (if Named(gs[0]) then [RouteParam(gs[0].name, gs[0].Wild?, if gs[0].Limited? then gs[0].limit else "")] else []) + Declared(gs[1..])
  }

  // ---- braces, counted ----

  function Height(s: string): int {
    if s == "" then 0 else (if s[0] == '{' then 1 else if s[0] == '}' then -1 else 0) + Height(s[1..])
  }

  /** No brace closes what is not open, and in the end all are closed. */
  predicate Balanced(s: string) {
    Height(s) == 0 && forall k :: 0 <= k <= |s| ==> Height(s[..k]) >= 0
  }

  predicate Letter(c: char) {
    'A' <= c <= 'Z' || 'a' <= c <= 'z' || c == '_'
  }

  /** Letters, digits and underscores, and no digit first. */
  predicate Identifier(name: string) {
    name != "" && Letter(name[0]) && forall i :: 0 <= i < |name| ==> Letter(name[i]) || '0' <= name[i] <= '9'
  }

  predicate WellFormed(g: Group) {
    match g
    case Byte(c) => c != '{'
    case Last => true
    case Limited(name, limit) => Identifier(name) && limit != "" && Balanced(limit)
    case _ => Identifier(g.name)
  }

  /** Groups of a path that can be registered: well formed, and no name twice or among those seen. */
  predicate Fine(gs: seq<Group>, seen: set<string>) {
    && (forall i :: 0 <= i < |gs| ==> WellFormed(gs[i]) && (Named(gs[i]) ==> gs[i].name !in seen))
    && (forall i, j :: 0 <= i < j < |gs| && Named(gs[i]) && Named(gs[j]) ==> gs[i].name != gs[j].name)
  }

  lemma SameName(name: string)
    ensures Identifier(name) <==> ValidName(name)
  {
    if name != "" {
      assert Letter(name[0]) <==> NameChar(name[0], true);
      forall i | 0 < i < |name| ensures Letter(name[i]) || '0' <= name[i] <= '9' <==> NameChar(name[i], false) {}
    }
  }

  /** The closing brace is where the count first comes back. */
  lemma {:induction false} CloseCounts(s: string, depth: int, n: nat)
    requires depth >= 1
    ensures
      Close(s, depth) == n <==>
        n < |s| && depth + Height(s[..n + 1]) == 0 && forall k :: 0 <= k <= n ==> depth + Height(s[..k]) > 0
    decreases |s|
  {
    if s != "" {
      var step := if s[0] == '{' then 1 else if s[0] == '}' then -1 else 0;
      forall k | 0 < k <= |s| ensures Height(s[..k]) == step + Height(s[1..][..k - 1]) {
        assert s[..k][1..] == s[1..][..k - 1];
      }
      assert Height(s[..1]) == step + Height(s[1..][..1 - 1]) == step;
      if depth + step > 0 && n > 0 {
        CloseCounts(s[1..], depth + step, n - 1);
        CountsShift(s, depth, step, n);
        if n < |s| { assert Height(s[..n + 1]) == step + Height(s[1..][..n + 1 - 1]); }
      }
    }
  }

  lemma CountsShift(s: string, depth: int, step: int, n: nat)
    requires s != "" && depth >= 1 && depth + step > 0
    requires forall k :: 0 < k <= |s| ==> Height(s[..k]) == step + Height(s[1..][..k - 1])
    ensures
      n > 0 && n < |s| ==>
        ((forall k :: 0 <= k <= n ==> depth + Height(s[..k]) > 0) <==>
         (forall k :: 0 <= k <= n - 1 ==> depth + step + Height(s[1..][..k]) > 0))
  {
    if 0 < n < |s| {
      if forall k :: 0 <= k <= n ==> depth + Height(s[..k]) > 0 {
        forall k | 0 <= k <= n - 1 ensures depth + step + Height(s[1..][..k]) > 0 { assert Height(s[..k + 1]) == step + Height(s[1..][..k + 1 - 1]); }
      }
      if forall k :: 0 <= k <= n - 1 ==> depth + step + Height(s[1..][..k]) > 0 {
        forall k | 0 <= k <= n ensures depth + Height(s[..k]) > 0 {
          if k > 0 { assert depth + step + Height(s[1..][..k - 1]) > 0; }
        }
      }
    }
  }

  lemma {:induction false} HeightCat(a: string, b: string)
    ensures Height(a + b) == Height(a) + Height(b)
    decreases |a|
  {
    if a == "" {
      assert a + b == b;
    } else {
      assert (a + b)[1..] == a[1..] + b;
      HeightCat(a[1..], b);
    }
  }

  /** A body is closed by the brace behind it exactly if its own braces are balanced. */
  lemma NestedIs(body: string)
    ensures Nested(body) <==> Balanced(body)
  {
    var s := body + "}";
    CloseCounts(s, 1, |body|);
    HeightCat(body, "}");
    assert s[..|body| + 1] == s && Height("}") == -1;
    forall k | 0 <= k <= |body| ensures s[..k] == body[..k] {}
  }

  // ---- one group ----

  lemma {:induction false} ColonAt(name: string, rest: string)
    requires ':' !in name
    ensures Colon(name + rest) == |name| + Colon(rest)
    decreases |name|
  {
    if name == "" {
      assert name + rest == rest;
    } else {
      assert (name + rest)[1..] == name[1..] + rest;
      ColonAt(name[1..], rest);
    }
  }

  function Body(g: Group): string
    requires Named(g)
  {
    match g
    case Wild(name) => name + "..."
    case Limited(name, limit) => name + ":" + limit
    case _ => g.name
  }

  function ParamOf(g: Group): RouteParam
    requires Named(g)
  {
    RouteParam(g.name, g.Wild?, if g.Limited? then g.limit else "")
  }

  lemma NameFree(name: string)
    requires Identifier(name)
    ensures ':' !in name && '{' !in name && '}' !in name && '.' !in name && '$' !in name && Balanced(name)
  {
    SameName(name);
    forall i | 0 <= i < |name| ensures NameChar(name[i], false) { assert NameChar(name[i], i == 0); }
    NoHeight(name);
  }

  lemma {:induction false} NoHeight(s: string)
    requires '{' !in s && '}' !in s
    ensures Height(s) == 0 && Balanced(s)
    decreases |s|
  {
    forall k | 0 <= k < |s| ensures Height(s[..k]) == 0 { NoHeight(s[..k]); }
    if s != "" { NoHeight(s[1..]); }
    assert s[..|s|] == s;
  }

  /** A parameter's body is parsed as that parameter, whatever its form. */
  lemma GroupParam(g: Group)
    requires Named(g) && WellFormed(g)
    ensures ParseParam(Body(g)) == One(ParamOf(g)) && Nested(Body(g)) && Body(g) != "$"
    ensures Spell(g) == "{" + Body(g) + "}"
  {
    hide ParseParam, Nested, ValidName, Balanced, Identifier;
    SameName(g.name);
    match g
    case Plain(name) => NameIsParam(name);
    case Wild(name) => WildParam(name);
    case Limited(name, limit) => LimitedParam(name, limit);
    case _ =>
  }

  lemma WildParam(name: string)
    requires Identifier(name)
    ensures ParseParam(name + "...") == One(RouteParam(name, true, "")) && Nested(name + "...") && name + "..." != "$"
  {
    var body := name + "...";
    SameName(name);
    NameFree(name);
    hide Identifier, ValidName, Nested, Balanced, Colon, Height;
    ColonAt(name, "...");
    ColonAt("...", "");
    assert "..." + "" == "..." && Colon("") == 0;
    assert body[|name|..] == "..." && body[..|name|] == name;
    Dots();
    BalancedCat(name, "...");
    NestedIs(body);
  }

  lemma Dots()
    ensures Balanced("...") && Balanced(":")
  {
    NoHeight("...");
    NoHeight(":");
  }

  lemma LimitedParam(name: string, limit: string)
    requires Identifier(name) && limit != "" && Balanced(limit)
    ensures ParseParam(name + ":" + limit) == One(RouteParam(name, false, limit)) && Nested(name + ":" + limit) && name + ":" + limit != "$"
  {
    var body := name + ":" + limit;
    SameName(name);
    NameFree(name);
    ColonAt(name, ":" + limit);
    assert body == name + (":" + limit) && (":" + limit)[0] == ':';
    assert Colon(body) == |name|;
    hide Identifier, ValidName, Nested, Balanced, Colon, Height;
    assert body[..|name|] == name && body[|name| + 1..] == limit;
    Dots();
    BalancedCat(name, ":");
    BalancedCat(name + ":", limit);
    NestedIs(body);
  }

  lemma BalancedCat(a: string, b: string)
    requires Balanced(a) && Balanced(b)
    ensures Balanced(a + b)
  {
    HeightCat(a, b);
    forall k | 0 <= k <= |a + b| ensures Height((a + b)[..k]) >= 0 {
      if k <= |a| {
        assert (a + b)[..k] == a[..k];
      } else {
        assert (a + b)[..k] == a + b[..k - |a|];
        HeightCat(a, b[..k - |a|]);
      }
    }
  }

  /** And a body that is parsed is the body of a parameter. */
  lemma ParamGroup(body: string) returns (g: Group)
    requires ParseParam(body).One? && Nested(body)
    ensures Named(g) && WellFormed(g) && Body(g) == body && ParamOf(g) == ParseParam(body).p
  {
    hide Nested, Balanced, Height, ValidName, Identifier, Close;
    var p := ParseParam(body).p;
    SameName(p.name);
    var n := Colon(body);
    if n < |body| {
      g := Limited(p.name, p.pattern);
      assert body == body[..n] + [body[n]] + body[n + 1..];
      NestedIs(body);
      NameFree(p.name);
      Dots();
      BalancedCat(p.name, ":");
      LevelOf(p.name + ":");
      LimitBalanced(p.name + ":", p.pattern);
    } else if p.rest {
      g := Wild(p.name);
      assert body == body[..|body| - 3] + body[|body| - 3..];
    } else {
      g := Plain(p.name);
    }
  }

  lemma LevelOf(s: string)
    requires Balanced(s)
    ensures Height(s) == 0
  {
  }

  lemma LimitBalanced(a: string, b: string)
    requires Balanced(a + b) && Height(a) == 0
    ensures Balanced(b)
  {
    HeightCat(a, b);
    forall k | 0 <= k <= |b| ensures Height(b[..k]) >= 0 {
      HeightCat(a, b[..k]);
      assert (a + b)[..|a| + k] == a + b[..k];
    }
  }

  // ---- a path ----

  lemma FineRest(gs: seq<Group>, seen: set<string>)
    requires Fine(gs, seen) && gs != []
    ensures WellFormed(gs[0]) && (Named(gs[0]) ==> gs[0].name !in seen)
    ensures Fine(gs[1..], if Named(gs[0]) then seen + {gs[0].name} else seen)
  {
    var rest := gs[1..];
    forall i | 0 <= i < |rest| ensures WellFormed(rest[i]) && (Named(rest[i]) ==> rest[i].name !in seen && (Named(gs[0]) ==> rest[i].name != gs[0].name)) {
      assert rest[i] == gs[i + 1];
    }
    forall i, j | 0 <= i < j < |rest| && Named(rest[i]) && Named(rest[j]) ensures rest[i].name != rest[j].name {
      assert rest[i] == gs[i + 1] && rest[j] == gs[j + 1];
    }
  }

  lemma FineMore(g: Group, rest: seq<Group>, seen: set<string>)
    requires WellFormed(g) && (Named(g) ==> g.name !in seen)
    requires Fine(rest, if Named(g) then seen + {g.name} else seen)
    ensures Fine([g] + rest, seen) && Spelled([g] + rest) == Spell(g) + Spelled(rest)
  {
    hide Spell;
    var gs := [g] + rest;
    assert gs[1..] == rest;
    forall i | 0 <= i < |gs| ensures WellFormed(gs[i]) && (Named(gs[i]) ==> gs[i].name !in seen) {
      if i > 0 { assert gs[i] == rest[i - 1]; }
    }
    forall i, j | 0 <= i < j < |gs| && Named(gs[i]) && Named(gs[j]) ensures gs[i].name != gs[j].name {
      assert gs[j] == rest[j - 1];
      if i > 0 { assert gs[i] == rest[i - 1]; }
    }
  }

  /** What one group in front of a rest is parsed and rendered to. */
  lemma GroupFirst(g: Group, rest: string, seen: set<string>, d: Dialect)
    requires WellFormed(g) && (Named(g) ==> g.name !in seen)
    ensures
      Parse(Spell(g) + rest, seen) ==
        if Named(g) then Ahead([ParamOf(g)], Parse(rest, seen + {g.name})) else Parse(rest, seen)
    ensures RenderFrom(Spell(g) + rest, d) == SpellFor(g, d) + RenderFrom(rest, d)
  {
    hide Parse, RenderFrom, ParseParam, Nested, Close, Balanced, Identifier;
    match g
    case Byte(c) => PlainChar(c, rest, seen, d);
    case Last =>
      LastNested();
      assert "{" + "$" + "}" == "{$}";
      ParseGroup("$", rest, seen);
      RenderGroup("$", rest, d);
    case _ =>
      GroupParam(g);
      ParseGroup(Body(g), rest, seen);
      RenderGroup(Body(g), rest, d);
  }

  lemma LastNested()
    ensures Nested("$") && Balanced("$")
  {
    NoHeight("$");
    NestedIs("$");
  }

  lemma {:induction false} FineParses(gs: seq<Group>, seen: set<string>, d: Dialect)
    requires Fine(gs, seen)
    ensures Parse(Spelled(gs), seen) == Params(Declared(gs)) && RenderFrom(Spelled(gs), d) == SpelledFor(gs, d)
    decreases |gs|
  {
    hide Parse, RenderFrom, Spell, SpellFor, Fine, WellFormed;
    if gs == [] {
      EmptyPath(seen, d);
    } else {
      FineRest(gs, seen);
      GroupFirst(gs[0], Spelled(gs[1..]), seen, d);
      FineParses(gs[1..], if Named(gs[0]) then seen + {gs[0].name} else seen, d);
    }
  }

  lemma EmptyPath(seen: set<string>, d: Dialect)
    ensures Parse("", seen) == Params([]) && RenderFrom("", d) == ""
  {
  }

  lemma {:induction false} AcceptedIsFine(s: string, seen: set<string>) returns (gs: seq<Group>)
    requires Parse(s, seen).Params?
    ensures Fine(gs, seen) && Spelled(gs) == s
    decreases |s|
  {
    hide Fine, WellFormed, Close, ParseParam, Nested, Balanced, Spell;
    if s == "" {
      gs := [];
      NothingFine(seen);
    } else if s[0] != '{' {
      var rest := AcceptedIsFine(s[1..], seen);
      ByteFine(s[0]);
      FineMore(Byte(s[0]), rest, seen);
      gs := [Byte(s[0])] + rest;
    } else {
      gs := GroupIsFine(s, seen);
    }
  }

  lemma NothingFine(seen: set<string>)
    ensures Fine([], seen)
  {
  }

  lemma ByteFine(c: char)
    requires c != '{'
    ensures WellFormed(Byte(c)) && Spell(Byte(c)) == [c] && WellFormed(Last) && Spell(Last) == "{$}"
  {
  }

  lemma {:induction false} GroupIsFine(s: string, seen: set<string>) returns (gs: seq<Group>)
    requires s != "" && s[0] == '{' && Parse(s, seen).Params?
    ensures Fine(gs, seen) && Spelled(gs) == s
    decreases |s|, 0
  {
    hide Fine, WellFormed, Close, ParseParam, Nested, Balanced, Spell, Spelled, Parse;
    var n := GroupCloses(s, seen);
    var body, rest := s[1..][..n], s[1..][n + 1..];
    BodyNested(s[1..]);
    assert s == "{" + body + "}" + rest by { assert s == "{" + (body + "}" + rest); }
    ParseGroup(body, rest, seen);
    if body == "$" {
      var more := AcceptedIsFine(rest, seen);
      ByteFine('$');
      FineMore(Last, more, seen);
      assert "{" + "$" + "}" == "{$}";
      gs := [Last] + more;
    } else {
      var g := ParamGroup(body);
      GroupParam(g);
      var more := AcceptedIsFine(rest, seen + {g.name});
      FineMore(g, more, seen);
      gs := [g] + more;
    }
  }

  lemma GroupCloses(s: string, seen: set<string>) returns (n: nat)
    requires s != "" && s[0] == '{' && Parse(s, seen).Params?
    ensures n == Close(s[1..], 1)
  {
    n := Close(s[1..], 1);
  }

  /** A path is accepted exactly if it is spelled by well-formed groups without a name twice. */
  lemma Accepted(path: string)
    ensures Parse(path, {}).Params? <==> exists gs :: Fine(gs, {}) && Spelled(gs) == path
  {
    hide Parse, Fine, Spelled;
    if Parse(path, {}).Params? { var gs := AcceptedIsFine(path, {}); }
    forall gs | Fine(gs, {}) && Spelled(gs) == path ensures Parse(path, {}).Params? { FineParses(gs, {}, Chi); }
  }

  /**
   Its parameters are those its groups declare, in order. For chi every rest group becomes `*` and for
   ServeMux every group with a pattern becomes the bare name in braces; all else stays, byte by byte.
   */
  lemma RenderedGroups(gs: seq<Group>, d: Dialect)
    requires Fine(gs, {})
    ensures Parse(Spelled(gs), {}) == Params(Declared(gs)) && Render(Spelled(gs), d) == SpelledFor(gs, d)
  {
    hide Fine, Spelled, SpelledFor, Parse, RenderFrom;
    FineParses(gs, {}, d);
  }

  // ---- what is refused ----

  // What stands in front of the colon or the dots, or all of the body.
  predicate NamePart(body: string, name: string) {
    || (':' !in name && name <= body && |name| < |body| && body[|name|] == ':')
    || (':' !in body && body == name + "...")
    || (':' !in body && name == body && !(|body| >= 3 && body[|body| - 3..] == "..."))
  }

  /** The group in front of rest is refused for that reason. */
  ghost predicate Blamed(body: string, seen: set<string>, e: Error) {
    match e
    case Unclosed => false
    case EmptyParam => body == ""
    case EmptyName => body != "" && NamePart(body, "")
    case BadName => body != "" && exists name :: name != "" && NamePart(body, name) && !Identifier(name)
    case EmptyPattern => exists name :: Identifier(name) && body == name + ":"
    case Duplicate => exists g :: Named(g) && WellFormed(g) && Body(g) == body && g.name in seen
  }

  function Names(gs: seq<Group>): set<string> {
    set g | g in gs && Named(g) :: g.name
  }

  /** What follows the groups so far is refused for that reason. */
  ghost predicate Faulty(tail: string, seen: set<string>, e: Error) {
    && tail != "" && tail[0] == '{'
    && if e.Unclosed? then forall k :: 1 <= k <= |tail| ==> Height(tail[..k]) > 0
       else exists body, rest :: tail == "{" + body + "}" + rest && Balanced(body) && body != "$" && Blamed(body, seen, e)
  }

  lemma BadIsBlamed(body: string, seen: set<string>)
    requires ParseParam(body).Bad?
    ensures Blamed(body, seen, ParseParam(body).e) && !ParseParam(body).e.Unclosed?
  {
    var n := Colon(body);
    if body != "" {
      var name := if n < |body| then body[..n] else if Dotted(body) then body[..|body| - 3] else body;
      SameName(name);
      hide Colon, Balanced, ValidName, Identifier;
      if n < |body| {
        assert NamePart(body, name);
        if body[n + 1..] == "" { assert body == body[..n] + [body[n]] + body[n + 1..] && body == name + ":"; }
      } else {
        assert ':' !in body;
        if Dotted(body) { assert body == body[..|body| - 3] + body[|body| - 3..]; }
        assert NamePart(body, name);
      }
    }
  }

  lemma PartIs(body: string, name: string)
    requires NamePart(body, name)
    ensures
      var n := Colon(body);
      name == if n < |body| then body[..n] else if Dotted(body) then body[..|body| - 3] else body
  {
    if ':' !in name && name <= body && |name| < |body| && body[|name|] == ':' {
      FrontPart(body, name);
    } else {
      hide Colon;
      ColonAt(body, "");
      assert body + "" == body;
      assert Colon("") == 0;
      if body == name + "..." { assert body[|body| - 3..] == "..." && body[..|body| - 3] == name; }
    }
  }

  lemma FrontPart(body: string, name: string)
    requires ':' !in name && name <= body && |name| < |body| && body[|name|] == ':'
    ensures Colon(body) == |name| && body[..|name|] == name
  {
    assert body == name + body[|name|..];
    ColonAt(name, body[|name|..]);
  }

  lemma BlamedIsBad(body: string, seen: set<string>, e: Error)
    requires Blamed(body, seen, e) && e != Duplicate
    ensures ParseParam(body) == Bad(e)
  {
    hide Colon, Dotted, Balanced, Identifier, ValidName, NamePart;
    match e
    case EmptyParam =>
    case EmptyName =>
      PartIs(body, "");
      EmptyPart(body);
    case BadName =>
      var name :| name != "" && NamePart(body, name) && !Identifier(name);
      PartIs(body, name);
      SameName(name);
    case EmptyPattern =>
      var name :| Identifier(name) && body == name + ":";
      SameName(name);
      NoPattern(name);
    case _ =>
  }

  lemma EmptyPart(body: string)
    requires body != ""
    ensures !ValidName("")
  {
  }

  lemma NoPattern(name: string)
    requires Identifier(name)
    ensures Colon(name + ":") == |name| && (name + ":")[..|name|] == name && (name + ":")[|name| + 1..] == ""
  {
    NameFree(name);
    ColonAt(name, ":");
    assert Colon(":") == 0;
  }

  lemma FaultyIsRejected(tail: string, seen: set<string>, e: Error)
    requires Faulty(tail, seen, e)
    ensures Parse(tail, seen) == Rejected(e)
  {
    hide Blamed, ParseParam, Balanced, Close, Height;
    if e.Unclosed? {
      NeverCloses(tail);
    } else {
      var body, rest :| tail == "{" + body + "}" + rest && Balanced(body) && body != "$" && Blamed(body, seen, e);
      NestedIs(body);
      ParseGroup(body, rest, seen);
      if e == Duplicate {
        var g := TheDuplicate(body, seen);
        GroupParam(g);
      } else {
        BlamedIsBad(body, seen, e);
      }
    }
  }

  lemma TheDuplicate(body: string, seen: set<string>) returns (g: Group)
    requires Blamed(body, seen, Duplicate)
    ensures Named(g) && WellFormed(g) && Body(g) == body && g.name in seen
  {
    g :| Named(g) && WellFormed(g) && Body(g) == body && g.name in seen;
  }

  lemma NeverCloses(tail: string)
    requires tail != "" && tail[0] == '{'
    ensures Close(tail[1..], 1) < 0 <==> forall k :: 1 <= k <= |tail| ==> Height(tail[..k]) > 0
  {
    var t := tail[1..];
    forall k | 1 <= k <= |tail| ensures Height(tail[..k]) == 1 + Height(t[..k - 1]) { assert tail[..k][1..] == t[..k - 1]; }
    if Close(t, 1) >= 0 {
      CloseCounts(t, 1, Close(t, 1));
      assert Height(tail[..Close(t, 1) + 2]) == 1 + Height(t[..Close(t, 1) + 2 - 1]);
    } else if !(forall k :: 1 <= k <= |tail| ==> Height(tail[..k]) > 0) {
      var k :| 1 <= k <= |tail| && Height(tail[..k]) <= 0;
      Touches(t, k - 1);
    }
  }

  // A count that comes down to nothing was closed on the way.
  lemma {:induction false} Touches(t: string, k: nat)
    requires k <= |t| && 1 + Height(t[..k]) <= 0
    ensures Close(t, 1) >= 0
    decreases k
  {
    assert t[..0] == "" && Height(t[..0]) == 0;
    if 1 + Height(t[..k - 1]) <= 0 {
      Touches(t, k - 1);
    } else {
      assert t[..k] == t[..k - 1] + [t[k - 1]];
      HeightCat(t[..k - 1], [t[k - 1]]);
      if exists j :: 0 <= j < k - 1 && 1 + Height(t[..j]) <= 0 {
        var j :| 0 <= j < k - 1 && 1 + Height(t[..j]) <= 0;
        Touches(t, j);
      } else {
        CloseCounts(t, 1, k - 1);
      }
    }
  }

  lemma NamesMore(g: Group, rest: seq<Group>, seen: set<string>)
    ensures seen + Names([g] + rest) == (if Named(g) then seen + {g.name} else seen) + Names(rest)
  {
    var gs := [g] + rest;
    assert forall h :: h in gs <==> h == g || h in rest;
  }

  lemma {:induction false} FineThen(gs: seq<Group>, tail: string, seen: set<string>)
    requires Fine(gs, seen)
    ensures Parse(Spelled(gs) + tail, seen) == Ahead(Declared(gs), Parse(tail, seen + Names(gs)))
    decreases |gs|
  {
    hide Parse, Spell, Fine, WellFormed;
    if gs == [] {
      assert "" + tail == tail && seen + Names(gs) == seen;
      AheadNone(Parse(tail, seen));
    } else {
      FineRest(gs, seen);
      var now := if Named(gs[0]) then seen + {gs[0].name} else seen;
      assert Spelled(gs) + tail == Spell(gs[0]) + (Spelled(gs[1..]) + tail);
      GroupFirst(gs[0], Spelled(gs[1..]) + tail, seen, Chi);
      FineThen(gs[1..], tail, now);
      assert gs == [gs[0]] + gs[1..];
      NamesMore(gs[0], gs[1..], seen);
      if Named(gs[0]) { AheadTwo(ParamOf(gs[0]), Declared(gs[1..]), Parse(tail, now + Names(gs[1..]))); } else { assert [] + Declared(gs[1..]) == Declared(gs[1..]); }
    }
  }

  lemma AheadTwo(p: RouteParam, ps: seq<RouteParam>, r: Parsed)
    ensures Ahead([p], Ahead(ps, r)) == Ahead([p] + ps, r)
  {
    if r.Params? { assert [p] + (ps + r.ps) == ([p] + ps) + r.ps; }
  }

  lemma {:induction false} RejectedIsFaulty(s: string, seen: set<string>) returns (gs: seq<Group>, tail: string)
    requires Parse(s, seen).Rejected?
    ensures Fine(gs, seen) && s == Spelled(gs) + tail && Faulty(tail, seen + Names(gs), Parse(s, seen).e)
    decreases |s|
  {
    hide Fine, WellFormed, Close, ParseParam, Nested, Balanced, Spell, Faulty, Height, Blamed;
    if s[0] != '{' {
      gs, tail := RejectedIsFaulty(s[1..], seen);
      ByteFine(s[0]);
      FineMore(Byte(s[0]), gs, seen);
      NamesMore(Byte(s[0]), gs, seen);
      assert s == [s[0]] + (Spelled(gs) + tail);
      gs := [Byte(s[0])] + gs;
    } else {
      gs, tail := RejectedGroup(s, seen);
    }
  }

  lemma {:induction false} RejectedGroup(s: string, seen: set<string>) returns (gs: seq<Group>, tail: string)
    requires s != "" && s[0] == '{' && Parse(s, seen).Rejected?
    ensures Fine(gs, seen) && s == Spelled(gs) + tail && Faulty(tail, seen + Names(gs), Parse(s, seen).e)
    decreases |s|, 1
  {
    hide Fine, WellFormed, Close, ParseParam, Nested, Balanced, Spell, Spelled, Faulty, Height, Blamed, Parse, Names;
    var n := Close(s[1..], 1);
    if n < 0 {
      NeverCloses(s);
      NotClosed(s, seen);
      IsFaulty(s, "", "", seen, Unclosed);
      gs, tail := FirstFaulty(s, seen, Unclosed);
    } else {
      var body, rest := s[1..][..n], s[1..][n + 1..];
      BodyNested(s[1..]);
      assert s == "{" + body + "}" + rest by { assert s == "{" + (body + "}" + rest); }
      NestedIs(body);
      ParseGroup(body, rest, seen);
      if body == "$" {
        gs, tail := RejectedIsFaulty(rest, seen);
        LastMore(gs, rest, tail, seen);
        gs := [Last] + gs;
      } else if ParseParam(body).Bad? {
        BadIsBlamed(body, seen);
        IsFaulty(s, body, rest, seen, ParseParam(body).e);
        gs, tail := FirstFaulty(s, seen, ParseParam(body).e);
      } else {
        gs, tail := RejectedBehind(s, body, rest, seen);
      }
    }
  }

  lemma NotClosed(s: string, seen: set<string>)
    requires s != "" && s[0] == '{' && Close(s[1..], 1) < 0
    ensures Parse(s, seen) == Rejected(Unclosed)
  {
  }

  lemma FirstFaulty(s: string, seen: set<string>, e: Error) returns (gs: seq<Group>, tail: string)
    requires Faulty(s, seen, e)
    ensures Fine(gs, seen) && s == Spelled(gs) + tail && Faulty(tail, seen + Names(gs), e)
  {
    hide Faulty;
    gs, tail := [], s;
    assert "" + s == s && seen + Names([]) == seen;
  }

  lemma LastMore(gs: seq<Group>, rest: string, tail: string, seen: set<string>)
    requires Fine(gs, seen) && rest == Spelled(gs) + tail
    ensures Fine([Last] + gs, seen) && "{" + "$" + "}" + rest == Spelled([Last] + gs) + tail
    ensures seen + Names([Last] + gs) == seen + Names(gs)
  {
    hide Fine, Spelled, Spell, WellFormed;
    ByteFine('$');
    FineMore(Last, gs, seen);
    NamesMore(Last, gs, seen);
    assert "{" + "$" + "}" == "{$}";
    assert "{$}" + (Spelled(gs) + tail) == ("{$}" + Spelled(gs)) + tail;
  }

  lemma {:induction false} RejectedBehind(s: string, body: string, rest: string, seen: set<string>) returns (gs: seq<Group>, tail: string)
    requires s == "{" + body + "}" + rest && Balanced(body) && Nested(body) && body != "$" && ParseParam(body).One? && Parse(s, seen).Rejected?
    ensures Fine(gs, seen) && s == Spelled(gs) + tail && Faulty(tail, seen + Names(gs), Parse(s, seen).e)
    decreases |s|, 0, 0
  {
    hide Fine, WellFormed, Close, ParseParam, Nested, Balanced, Spell, Faulty, Height, Blamed, Parse;
    var g := ParamGroup(body);
    GroupParam(g);
    ParseGroup(body, rest, seen);
    if g.name in seen {
      IsDuplicate(g, body, seen);
      IsFaulty(s, body, rest, seen, Duplicate);
      gs, tail := FirstFaulty(s, seen, Duplicate);
    } else {
      gs, tail := RejectedIsFaulty(rest, seen + {g.name});
      FineMore(g, gs, seen);
      NamesMore(g, gs, seen);
      assert s == Spell(g) + (Spelled(gs) + tail);
      gs := [g] + gs;
    }
  }

  lemma IsDuplicate(g: Group, body: string, seen: set<string>)
    requires Named(g) && WellFormed(g) && Body(g) == body && g.name in seen
    ensures Blamed(body, seen, Duplicate)
  {
  }

  lemma IsFaulty(tail: string, body: string, rest: string, seen: set<string>, e: Error)
    requires tail != "" && tail[0] == '{'
    requires
      if e.Unclosed? then forall k :: 1 <= k <= |tail| ==> Height(tail[..k]) > 0
      else tail == "{" + body + "}" + rest && Balanced(body) && body != "$" && Blamed(body, seen, e)
    ensures Faulty(tail, seen, e)
  {
  }

  /** A path is refused for what is wrong with the first group that is, told from its text alone. */
  lemma Refused(path: string, e: Error)
    ensures
      Parse(path, {}) == Rejected(e) <==>
        exists gs, tail :: Fine(gs, {}) && path == Spelled(gs) + tail && Faulty(tail, Names(gs), e)
  {
    hide Parse, Fine, Spelled, Faulty;
    if Parse(path, {}) == Rejected(e) {
      var gs, tail := RejectedIsFaulty(path, {});
      assert {} + Names(gs) == Names(gs);
    }
    forall gs, tail | Fine(gs, {}) && path == Spelled(gs) + tail && Faulty(tail, Names(gs), e) ensures Parse(path, {}) == Rejected(e) {
      FineThen(gs, tail, {});
      assert {} + Names(gs) == Names(gs);
      FaultyIsRejected(tail, Names(gs), e);
    }
  }
}
