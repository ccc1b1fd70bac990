/** Route paths, their parameters and their spellings for the two routers. */
module Route {

  datatype RouteParam = RouteParam(name: string, rest: bool, pattern: string)

  datatype Dialect = Chi | ServeMux

  datatype Error = Unclosed | EmptyParam | EmptyName | BadName | EmptyPattern | Duplicate

  datatype Parsed = Params(ps: seq<RouteParam>) | Rejected(e: Error)

  datatype ParsedParam = One(p: RouteParam) | Bad(e: Error)

  // ---- braces ----

  /** How far the brace is that closes depth open ones, -1 where there is none. */
  function Close(s: string, depth: int): (n: int)
    ensures -1 <= n < |s|
    ensures n >= 0 ==> s[n] == '}'
  {
    if s == "" then -1
    else if s[0] == '}' && depth - 1 == 0 then 0
    else
      var n := Close(s[1..], if s[0] == '{' then depth + 1 else if s[0] == '}' then depth - 1 else depth);
      if n < 0 then -1 else n + 1
  }

  /** What follows a closing brace does not move it. */
  lemma {:induction false} CloseStays(s: string, t: string, depth: int)
    requires Close(s, depth) >= 0
    ensures Close(s + t, depth) == Close(s, depth)
    decreases |s|
  {
    assert (s + t)[1..] == s[1..] + t && (s + t)[0] == s[0];
    if !(s[0] == '}' && depth - 1 == 0) {
      CloseStays(s[1..], t, if s[0] == '{' then depth + 1 else if s[0] == '}' then depth - 1 else depth);
    }
  }

  lemma {:induction false} CloseCut(s: string, depth: int)
    requires Close(s, depth) >= 0
    ensures Close(s[..Close(s, depth) + 1], depth) == Close(s, depth)
    decreases |s|
  {
    var n := Close(s, depth);
    var r := s[..n + 1];
    if !(s[0] == '}' && depth - 1 == 0) {
      assert r[1..] == s[1..][..n];
      CloseCut(s[1..], if s[0] == '{' then depth + 1 else if s[0] == '}' then depth - 1 else depth);
    }
  }

  /** The braces in a body close each other, so the brace behind it closes the one in front. */
  predicate Nested(body: string) {
    Close(body + "}", 1) == |body|
  }

  lemma BodyNested(s: string)
    requires Close(s, 1) >= 0
    ensures Nested(s[..Close(s, 1)]) && s[..Close(s, 1)] + "}" + s[Close(s, 1) + 1..] == s
  {
    hide Close;
    CloseCut(s, 1);
    Around(s, Close(s, 1));
  }

  lemma Around(s: string, n: nat)
    requires n < |s| && s[n] == '}'
    ensures s[..n] + "}" == s[..n + 1] && s[..n] + "}" + s[n + 1..] == s
  {
  }

  // ---- one parameter ----

  predicate NameChar(c: char, first: bool) {
    'a' <= c <= 'z' || 'A' <= c <= 'Z' || c == '_' || ('0' <= c <= '9' && !first)
  }

  predicate ValidName(name: string) {
    name != "" && forall i :: 0 <= i < |name| ==> NameChar(name[i], i == 0)
  }

  function NameError(name: string): Error {
    if name == "" then EmptyName else BadName
  }

  function Colon(s: string): (n: nat)
    ensures n <= |s| && (n < |s| ==> s[n] == ':') && forall k :: 0 <= k < n ==> s[k] != ':'
  {
    if s == "" || s[0] == ':' then 0 else 1 + Colon(s[1..])
  }

  predicate Dotted(body: string) {
    |body| >= 3 && body[|body| - 3..] == "..."
  }

  function ParseParam(body: string): ParsedParam {
    var n := Colon(body);
    if body == "" then Bad(EmptyParam)
    else if n < |body| then
      if !ValidName(body[..n]) then Bad(NameError(body[..n]))
      else if body[n + 1..] == "" then Bad(EmptyPattern)
      else One(RouteParam(body[..n], false, body[n + 1..]))
    else if Dotted(body) then
      var name := body[..|body| - 3];
      if !ValidName(name) then Bad(NameError(name)) else One(RouteParam(name, true, ""))
    else if !ValidName(body) then Bad(NameError(body))
    else One(RouteParam(body, false, ""))
  }

  /** A name is a parameter of its own, without a pattern, and holds no brace. */
  lemma NameIsParam(name: string)
    requires ValidName(name)
    ensures ParseParam(name) == One(RouteParam(name, false, "")) && Nested(name) && name != "$"
  {
    hide Close, Colon, Dotted;
    NameSpelling(name);
    assert NameChar(name[0], true);
    NoBraces(name, 1);
  }

  lemma NameSpelling(name: string)
    requires ValidName(name)
    ensures Colon(name) == |name| && !Dotted(name)
  {
    hide Close;
    assert NameChar(name[|name| - 1], |name| == 1);
    assert |name| >= 3 ==> name[|name| - 3..][2] == name[|name| - 1];
  }

  lemma {:induction false} NoBraces(s: string, depth: int)
    requires depth == 1 && forall k :: 0 <= k < |s| ==> s[k] != '{' && s[k] != '}'
    ensures Close(s + "}", depth) == |s|
    decreases |s|
  {
    if s != "" {
      assert (s + "}")[1..] == s[1..] + "}";
      NoBraces(s[1..], depth);
    }
  }

  // ---- a path ----

  /** The parameters of a path in order, behind those seen before. */
  function Parse(s: string, seen: set<string>): Parsed {
    if s == "" then Params([])
    else if s[0] != '{' then Parse(s[1..], seen)
    else
      var t := s[1..];
      var n := Close(t, 1);
      if n < 0 then Rejected(Unclosed) else
      var body, rest := t[..n], t[n + 1..];
      if body == "$" then Parse(rest, seen) else
      var one := ParseParam(body);
      if one.Bad? then Rejected(one.e)
      else if one.p.name in seen then Rejected(Duplicate)
      else Ahead([one.p], Parse(rest, seen + {one.p.name}))
  }

  function Ahead(ps: seq<RouteParam>, r: Parsed): Parsed {
    match r
    case Rejected(e) => Rejected(e)
    case Params(qs) => Params(ps + qs)
  }

  function RenderBody(body: string, d: Dialect): string {
    if body == "$" then "{$}" else
    match ParseParam(body)
    case Bad(_) => "{" + body + "}"
    case One(p) =>
      if p.rest && d == Chi then "*"
      else if p.pattern != "" && d == ServeMux then "{" + p.name + "}"
      else "{" + body + "}"
  }

  function RenderFrom(s: string, d: Dialect): string {
    if s == "" then ""
    else if s[0] != '{' then [s[0]] + RenderFrom(s[1..], d)
    else
      var t := s[1..];
      var n := Close(t, 1);
      if n < 0 then "" else RenderBody(t[..n], d) + RenderFrom(t[n + 1..], d)
  }

  /** A path nobody could parse stays as it is. */
  function Render(path: string, d: Dialect): string {
    if Parse(path, {}).Rejected? then path else RenderFrom(path, d)
  }

  // ---- rendered paths, parsed again ----

  /** What a dialect keeps of a parameter: chi all but the rest ones, ServeMux all without their patterns. */
  function Kept(ps: seq<RouteParam>, d: Dialect): seq<RouteParam> {
    if ps == [] then []
    else if d == Chi then (if ps[0].rest then [] else [ps[0]]) + Kept(ps[1..], d)
    else [ps[0].(pattern := "")] + Kept(ps[1..], d)
  }

  /** Parsing a group, with whatever follows it. */
  lemma ParseGroup(body: string, rest: string, seen: set<string>)
    requires Nested(body)
    ensures
      Parse("{" + body + "}" + rest, seen) ==
        if body == "$" then Parse(rest, seen)
        else if ParseParam(body).Bad? then Rejected(ParseParam(body).e)
        else if ParseParam(body).p.name in seen then Rejected(Duplicate)
        else Ahead([ParseParam(body).p], Parse(rest, seen + {ParseParam(body).p.name}))
  {
    hide ParseParam, Close;
    var s := "{" + body + "}" + rest;
    CloseAt(body, rest);
    assert s[0] == '{' && s[1..] == body + "}" + rest;
    Cut(body, rest);
  }

  lemma CloseAt(body: string, rest: string)
    requires Nested(body)
    ensures Close(body + "}" + rest, 1) == |body|
  {
    CloseStays(body + "}", rest, 1);
  }

  lemma Cut(body: string, rest: string)
    ensures (body + "}" + rest)[..|body|] == body && (body + "}" + rest)[|body| + 1..] == rest
  {
  }

  lemma RenderGroup(body: string, rest: string, d: Dialect)
    requires Nested(body)
    ensures RenderFrom("{" + body + "}" + rest, d) == RenderBody(body, d) + RenderFrom(rest, d)
  {
    hide RenderBody, Close;
    var s := "{" + body + "}" + rest;
    CloseAt(body, rest);
    assert s[0] == '{' && s[1..] == body + "}" + rest;
    Cut(body, rest);
  }

  lemma PlainChar(c: char, rest: string, seen: set<string>, d: Dialect)
    requires c != '{'
    ensures Parse([c] + rest, seen) == Parse(rest, seen) && RenderFrom([c] + rest, d) == [c] + RenderFrom(rest, d)
  {
    assert ([c] + rest)[1..] == rest;
  }

  /**
   What a rendered path parses to, and that rendering it again changes nothing. The names seen by
   the parse of the rendering may be fewer, since chi's hold no rest parameter.
   */
  lemma {:induction false} RenderedParses(s: string, seen: set<string>, less: set<string>, d: Dialect)
    requires Parse(s, seen).Params? && less <= seen
    ensures Parse(RenderFrom(s, d), less) == Params(Kept(Parse(s, seen).ps, d))
    ensures RenderFrom(RenderFrom(s, d), d) == RenderFrom(s, d)
    decreases |s|
  {
    hide ParseParam, Close, Nested, RenderBody;
    if s == "" {
    } else if s[0] != '{' {
      RenderedParses(s[1..], seen, less, d);
      PlainChar(s[0], RenderFrom(s[1..], d), less, d);
    } else {
      GroupRendered(s, seen, less, d);
    }
  }

  lemma {:induction false} GroupRendered(s: string, seen: set<string>, less: set<string>, d: Dialect)
    requires s != "" && s[0] == '{' && Parse(s, seen).Params? && less <= seen
    ensures Parse(RenderFrom(s, d), less) == Params(Kept(Parse(s, seen).ps, d))
    ensures RenderFrom(RenderFrom(s, d), d) == RenderFrom(s, d)
    decreases |s|, 0
  {
    hide ParseParam, Close, Nested, RenderBody;
    var t := s[1..];
    var n := Close(t, 1);
    var body, rest := t[..n], t[n + 1..];
    BodyNested(t);
    if body == "$" {
      RenderedParses(rest, seen, less, d);
      StopRendered(body, RenderFrom(rest, d), less, d);
    } else {
      var p := ParseParam(body).p;
      var more := Parse(rest, seen + {p.name}).ps;
      var now := if p.rest && d == Chi then less else less + {p.name};
      RenderedParses(rest, seen + {p.name}, now, d);
      ParamRendered(body, p, RenderFrom(rest, d), less, d, Kept(more, d));
      KeptNext(p, more, d);
    }
  }

  lemma KeptNext(p: RouteParam, ps: seq<RouteParam>, d: Dialect)
    ensures Kept([p] + ps, d) == (if d == Chi then (if p.rest then [] else [p]) else [p.(pattern := "")]) + Kept(ps, d)
  {
    assert ([p] + ps)[1..] == ps;
  }

  lemma StopRendered(body: string, rest: string, seen: set<string>, d: Dialect)
    requires body == "$" && Nested(body)
    ensures Parse(RenderBody(body, d) + rest, seen) == Parse(rest, seen)
    ensures RenderFrom(RenderBody(body, d) + rest, d) == RenderBody(body, d) + RenderFrom(rest, d)
  {
    hide ParseParam, Nested, Close;
    assert "{" + body + "}" == "{$}";
    ParseGroup(body, rest, seen);
    RenderGroup(body, rest, d);
  }

  /** One rendered parameter in front of a rest that parses to what is kept of it. */
  lemma ParamRendered(body: string, p: RouteParam, rest: string, less: set<string>, d: Dialect, kept: seq<RouteParam>)
    requires Nested(body) && body != "$" && ParseParam(body) == One(p) && p.name !in less
    requires Parse(rest, if p.rest && d == Chi then less else less + {p.name}) == Params(kept)
    requires RenderFrom(rest, d) == rest
    ensures Parse(RenderBody(body, d) + rest, less) ==
      Params((if d == Chi then (if p.rest then [] else [p]) else [p.(pattern := "")]) + kept)
    ensures RenderFrom(RenderBody(body, d) + rest, d) == RenderBody(body, d) + rest
  {
    hide ParseParam, Nested, Close;
    ParamShape(body, p);
    if p.rest && d == Chi {
      assert "*" == ['*'];
      PlainChar('*', rest, less, d);
      assert [] + kept == kept;
    } else if p.pattern != "" && d == ServeMux {
      NameIsParam(p.name);
      ParseGroup(p.name, rest, less);
      RenderGroup(p.name, rest, d);
    } else {
      ParseGroup(body, rest, less);
      RenderGroup(body, rest, d);
    }
  }

  lemma ParamShape(body: string, p: RouteParam)
    requires ParseParam(body) == One(p)
    ensures ValidName(p.name) && (p.rest ==> p.pattern == "")
  {
  }

  /** The ServeMux rendering declares the same names and rest flags in order, without the patterns. */
  lemma ServeMuxKeepsNames(path: string)
    requires Parse(path, {}).Params?
    ensures
      var ps, qs := Parse(path, {}).ps, Parse(Render(path, ServeMux), {});
      && qs.Params? && |qs.ps| == |ps|
      && forall i :: 0 <= i < |ps| ==> qs.ps[i] == RouteParam(ps[i].name, ps[i].rest, "")
  {
    hide Parse, RenderFrom;
    RenderedParses(path, {}, {}, ServeMux);
    KeptServeMux(Parse(path, {}).ps);
  }

  lemma {:induction false} KeptServeMux(ps: seq<RouteParam>)
    ensures |Kept(ps, ServeMux)| == |ps|
    ensures forall i :: 0 <= i < |ps| ==> Kept(ps, ServeMux)[i] == ps[i].(pattern := "")
    decreases |ps|
  {
    if ps != [] { KeptServeMux(ps[1..]); }
  }

  /** The chi rendering declares the parameters that are not rest ones, unchanged and in order. */
  lemma ChiDropsRest(path: string)
    requires Parse(path, {}).Params?
    ensures Parse(Render(path, Chi), {}) == Params(Kept(Parse(path, {}).ps, Chi))
    ensures forall p :: p in Kept(Parse(path, {}).ps, Chi) <==> p in Parse(path, {}).ps && !p.rest
  {
    hide Parse, RenderFrom;
    RenderedParses(path, {}, {}, Chi);
    KeptChi(Parse(path, {}).ps);
  }

  lemma {:induction false} KeptChi(ps: seq<RouteParam>)
    ensures forall p :: p in Kept(ps, Chi) <==> p in ps && !p.rest
    decreases |ps|
  {
    if ps != [] {
      KeptChi(ps[1..]);
      assert ps == [ps[0]] + ps[1..];
    }
  }

  /** Rendering twice is rendering once, for every path, parsable or not. */
  lemma RenderTwice(path: string, d: Dialect)
    ensures Render(Render(path, d), d) == Render(path, d)
  {
    if Parse(path, {}).Params? { RenderedParses(path, {}, {}, d); }
  }

  // ---- the loops ----

  method ClosingBrace(path: string, open: nat) returns (end: int)
    requires open < |path| && path[open] == '{'
    ensures end == if Close(path[open + 1..], 1) < 0 then -1 else open + 1 + Close(path[open + 1..], 1)
  {
    var depth := 0;
    var i := open;
    while i < |path|
      invariant open <= i <= |path|
      invariant i == open ==> depth == 0
      invariant i > open ==>
        var n, m := Close(path[open + 1..], 1), Close(path[i..], depth);
        (n < 0 <==> m < 0) && (n >= 0 ==> n + open + 1 == m + i)
    {
      var c := path[i];
      if i > open { assert path[i..][1..] == path[i + 1..]; }
      if c == '{' {
        depth := depth + 1;
      } else if c == '}' {
        depth := depth - 1;
        if depth == 0 { return i; }
      }
      i := i + 1;
    }
    end := -1;
  }

  method ParseRoutePath(path: string) returns (r: Parsed)
    ensures r == Parse(path, {})
  {
    hide Close, ParseParam;
    var params: seq<RouteParam> := [];
    var seen: set<string> := {};
    var i := 0;
    assert path[0..] == path;
    AheadNone(Parse(path, {}));
    while i < |path|
      invariant 0 <= i <= |path| && Ahead(params, Parse(path[i..], seen)) == Parse(path, {})
    {
      ghost var s := path[i..];
      assert s[0] == path[i] && s[1..] == path[i + 1..];
      if path[i] != '{' {
        i := i + 1;
        continue;
      }
      var end := ClosingBrace(path, i);
      if end < 0 { return Rejected(Unclosed); }
      var body := path[i + 1..end];
      assert s[1..][..end - i - 1] == body && s[1..][end - i..] == path[end + 1..];
      i := end + 1;
      if body == "$" { continue; }
      match ParseParam(body)
      case Bad(e) => return Rejected(e);
      case One(p) =>
        if p.name in seen { return Rejected(Duplicate); }
        AheadOne(params, p, Parse(path[i..], seen + {p.name}));
        seen := seen + {p.name};
        params := params + [p];
    }
    r := Params(params);
    assert params + [] == params;
  }

  lemma AheadNone(r: Parsed)
    ensures Ahead([], r) == r
  {
    if r.Params? { assert [] + r.ps == r.ps; }
  }

  lemma AheadOne(ps: seq<RouteParam>, p: RouteParam, r: Parsed)
    ensures Ahead(ps, Ahead([p], r)) == Ahead(ps + [p], r)
  {
    if r.Params? { assert ps + ([p] + r.ps) == ps + [p] + r.ps; }
  }

  method RenderRoutePath(path: string, d: Dialect) returns (out: string)
    ensures out == Render(path, d)
  {
    hide Close, ParseParam, RenderBody, RenderFrom, Parse;
    var parsed := ParseRoutePath(path);
    if parsed.Rejected? { return path; }
    out := "";
    var i := 0;
    ghost var seen: set<string> := {};
    Whole(path, d);
    while i < |path|
      invariant 0 <= i <= |path| && out + RenderFrom(path[i..], d) == RenderFrom(path, d)
      invariant Parse(path[i..], seen).Params?
    {
      if path[i] != '{' {
        CharStep(path, i, seen, d, out);
        out := out + [path[i]];
        i := i + 1;
        continue;
      }
      var end := ClosingBrace(path, i);
      GroupStep(path, i, end, seen, d, out);
      var body := path[i + 1..end];
      seen := if body == "$" then seen else seen + {ParseParam(body).p.name};
      out := out + RenderBody(body, d);
      i := end + 1;
    }
    Whole(path, d);
    assert path[i..] == "" && out + "" == out;
  }

  lemma Whole(path: string, d: Dialect)
    ensures path[0..] == path && "" + RenderFrom(path, d) == RenderFrom(path, d) && RenderFrom("", d) == ""
  {
  }

  lemma CharStep(path: string, i: nat, seen: set<string>, d: Dialect, out: string)
    requires i < |path| && path[i] != '{'
    ensures out + [path[i]] + RenderFrom(path[i + 1..], d) == out + RenderFrom(path[i..], d)
    ensures Parse(path[i + 1..], seen) == Parse(path[i..], seen)
  {
    assert path[i..] == [path[i]] + path[i + 1..];
    PlainChar(path[i], path[i + 1..], seen, d);
  }

  lemma GroupStep(path: string, i: nat, end: int, seen: set<string>, d: Dialect, out: string)
    requires i < |path| && path[i] == '{' && Parse(path[i..], seen).Params?
    requires end == if Close(path[i + 1..], 1) < 0 then -1 else i + 1 + Close(path[i + 1..], 1)
    ensures i < end < |path|
    ensures
      var body := path[i + 1..end];
      && out + RenderBody(body, d) + RenderFrom(path[end + 1..], d) == out + RenderFrom(path[i..], d)
      && (body == "$" ==> Parse(path[end + 1..], seen).Params?)
      && (body != "$" ==> ParseParam(body).One? && Parse(path[end + 1..], seen + {ParseParam(body).p.name}).Params?)
  {
    hide Close, ParseParam, RenderBody;
    var s := path[i..];
    assert s[0] == path[i] && s[1..] == path[i + 1..];
    var n := Close(s[1..], 1);
    assert s[1..][..n] == path[i + 1..end] && s[1..][n + 1..] == path[end + 1..];
    Cat(out, RenderBody(path[i + 1..end], d), RenderFrom(path[end + 1..], d));
  }

  lemma Cat(a: string, b: string, c: string)
    ensures a + b + c == a + (b + c)
  {
  }
}
