/** The texts of the tokens against the source they were read from. */
module Lossless {
  import opened Literals
  import opened Tokens

  predicate Ascii(src: string) {
    forall k :: 0 <= k < |src| ==> src[k] as int < 0x80
  }

  /** The texts from i up to j: all bytes where they are kept, and fewer where a byte below 0x80 is lost. */
  ghost predicate Tells(src: string, i: nat, j: nat, toks: seq<Token>, keeps: bool) {
    && i <= j <= |src|
    && (keeps ==> Join(toks) == src[i..j])
    && (Ascii(src) && !keeps ==> |Join(toks)| < j - i)
  }

  lemma TellsCat(src: string, i: nat, j: nat, n: nat, a: seq<Token>, b: seq<Token>, keepsA: bool, keepsB: bool)
    requires Tells(src, i, j, a, keepsA) && Tells(src, j, n, b, keepsB)
    ensures Tells(src, i, n, a + b, keepsA && keepsB)
  {
    hide Ascii, Join;
    JoinCat(a, b);
    assert src[i..j] + src[j..n] == src[i..n];
  }

  lemma TellsOne(src: string, i: nat, j: nat, t: Token, keeps: bool)
    requires i <= j <= |src| && (keeps ==> t.text == src[i..j]) && (Ascii(src) && !keeps ==> |t.text| < j - i)
    ensures Tells(src, i, j, [t], keeps)
  {
    assert Join([t]) == t.text + Join([]);
  }

  // ---- pieces of a literal ----

  /** A piece is what the scan of a literal read at its place. */
  predicate Read(src: string, p: Part) {
    p.from < p.to <= |src| &&
    match p
    case Text(_, _) => true
    case Simple(from, _, _, _, _) => At(src, from, '$') && ScanSimple(src, from) == Piece(p)
    case Curly(from, to) => At(src, from, '{') && CurlyEnd(src, from, 0) == EndAt(to)
  }

  predicate AllRead(src: string, ps: seq<Part>) {
    forall k :: 0 <= k < |ps| ==> Read(src, ps[k])
  }

  lemma {:induction false} PartsRead(src: string, start: nat, i: nat)
    requires start <= i <= |src| && ScanInterp(src, start, i).Parts?
    ensures AllRead(src, ScanInterp(src, start, i).parts)
    decreases |src| - i
  {
    hide EscapeLen, ScanSimple, CurlyEnd;
    if src[i] == '\\' && i + 1 < |src| {
      PartsRead(src, start, i + 1 + EscapeLen(src, i, '"'));
    } else if src[i] == '"' {
    } else if src[i] == '$' && ScanSimple(src, i).Piece? {
      var p := ScanSimple(src, i).part;
      PartsRead(src, p.to, p.to);
    } else if src[i] == '{' && At(src, i + 1, '$') {
      var next := CurlyEnd(src, i, 0).pos;
      PartsRead(src, next, next);
    } else {
      PartsRead(src, start, i + 1);
    }
  }

  /** The text of a variable in a literal, which is how it is spelled or shorter. */
  function Spoken(name: string, sub: string, prop: string): string {
    "$" + name + if prop != "" then "->" + prop else if sub != "" then "[" + sub + "]" else ""
  }

  lemma SimpleToks(src: string, p: Part)
    requires p.from < p.to <= |src| && p.Simple?
    ensures Join(PartToks(src, p)) == Spoken(p.name, p.sub, p.prop)
  {
    hide Subscript, Toks;
    var head := [Tok(Variable, "$" + p.name)];
    assert Join(head) == "$" + p.name + Join([]);
    if p.prop != "" {
      var tail := [Tok(Operator, "->"), Tok(Word, p.prop)];
      assert tail[1..] == [Tok(Word, p.prop)] && Join(tail[1..]) == p.prop + Join([]) && Join(tail) == "->" + Join(tail[1..]);
      JoinCat(head, tail);
    } else if p.sub != "" {
      var open, close := [Char("[")], [Char("]")];
      assert Join(open) == "[" + Join([]) && Join(close) == "]" + Join([]);
      JoinCat(open, Subscript(p.sub));
      JoinCat(open + Subscript(p.sub), close);
      JoinCat(head, open + Subscript(p.sub) + close);
    } else {
      assert head + [] == head;
    }
  }

  /** A variable in a literal is spoken as it is spelled, or shorter than that. */
  lemma SimpleSpoken(src: string, p: Part)
    requires Read(src, p) && p.Simple?
    ensures Spelled(src, p) ==> Spoken(p.name, p.sub, p.prop) == src[p.from..p.to]
    ensures !Spelled(src, p) ==> |Spoken(p.name, p.sub, p.prop)| < p.to - p.from
  {
    if At(src, p.from + 1, '{') { BraceSpoken(src, p); } else { DollarSpoken(src, p); }
  }

  lemma BraceSpoken(src: string, p: Part)
    requires Read(src, p) && p.Simple? && At(src, p.from + 1, '{')
    ensures |Spoken(p.name, p.sub, p.prop)| < p.to - p.from
  {
  }

  lemma NameGoes(src: string, i: nat)
    requires i < |src| && IdentStart(src[i])
    ensures IdentEnd(src, i) > i
  {
  }

  lemma DollarSpoken(src: string, p: Part)
    requires Read(src, p) && p.Simple? && !At(src, p.from + 1, '{')
    ensures Spelled(src, p) ==> Spoken(p.name, p.sub, p.prop) == src[p.from..p.to]
    ensures !Spelled(src, p) ==> |Spoken(p.name, p.sub, p.prop)| < p.to - p.from
  {
    hide Spoken, IdentEnd, Seek, IdentPart, IdentStart, ScanDollarBrace;
    var i := p.from;
    var j := IdentEnd(src, i + 1);
    if At(src, j, '[') {
      BracketSpoken(src, i, j, Seek(src, j, ']'));
    } else if At(src, j, '-') && At(src, j + 1, '>') && j + 2 < |src| && IdentStart(src[j + 2]) {
      NameGoes(src, j + 2);
      ArrowSpoken(src, i, j, p.to);
    } else {
      NameSpoken(src, i, j);
    }
  }

  lemma NameSpoken(src: string, i: nat, j: nat)
    requires i < j <= |src| && src[i] == '$'
    ensures Spoken(src[i + 1..j], "", "") == src[i..j]
  {
  }

  lemma BracketSpoken(src: string, i: nat, j: nat, k: nat)
    requires i < j < k < |src| && src[i] == '$' && src[j] == '[' && src[k] == ']'
    ensures
      var s := Spoken(src[i + 1..j], src[j + 1..k], "");
      if src[j + 1..k] == "" then |s| == j - i else s == src[i..k + 1]
  {
    if j + 1 < k { assert src[i..k + 1] == [src[i]] + src[i + 1..j] + [src[j]] + src[j + 1..k] + [src[k]]; }
  }

  lemma ArrowSpoken(src: string, i: nat, j: nat, to: nat)
    requires i < j && j + 2 < to <= |src| && src[i] == '$' && src[j] == '-' && src[j + 1] == '>'
    ensures Spoken(src[i + 1..j], "", src[j + 2..to]) == src[i..to]
  {
    assert src[i..to] == [src[i]] + src[i + 1..j] + [src[j], src[j + 1]] + src[j + 2..to];
  }

  lemma CurlyInner(src: string, p: Part)
    requires Read(src, p) && p.Curly?
    ensures p.from + 1 < p.to && src[p.from] == '{' && src[p.to - 1] == '}'
  {
    hide CurlyEnd;
  }

  lemma {:induction false} PartTold(src: string, p: Part)
    requires Read(src, p)
    ensures Tells(src, p.from, p.to, PartToks(src, p), KeepsPart(src, p))
    decreases |src|, 0, 0
  {
    match p
    case Text(from, to) =>
      TellsOne(src, from, to, Tok(EncapsedText, src[from..to]), true);
    case Simple(_, _, _, _, _) =>
      SimpleToks(src, p);
      SimpleSpoken(src, p);
    case Curly(from, to) =>
      CurlyInner(src, p);
      Told(Inner(src, p), 0, true);
      BracesTell(src, p, Toks(Inner(src, p), 0, true), Keeps(Inner(src, p), 0, true));
  }

  lemma BracesTell(src: string, p: Part, toks: seq<Token>, keeps: bool)
    requires p.from + 1 < p.to <= |src| && src[p.from] == '{' && src[p.to - 1] == '}'
    requires Tells(Inner(src, p), 0, |Inner(src, p)|, toks, keeps)
    ensures Tells(src, p.from, p.to, [Tok(CurlyOpen, "{")] + toks + [Char("}")], keeps)
  {
    hide Join;
    var i, n, inner := p.from, p.to, Inner(src, p);
    assert inner[0..|inner|] == src[i + 1..n - 1];
    assert src[i..i + 1] == "{" && src[n - 1..n] == "}";
    TellsOne(src, i, i + 1, Tok(CurlyOpen, "{"), true);
    TellsOne(src, n - 1, n, Char("}"), true);
    assert Tells(src, i + 1, n - 1, toks, keeps);
    TellsCat(src, i, i + 1, n - 1, [Tok(CurlyOpen, "{")], toks, true, keeps);
    TellsCat(src, i, n - 1, n, [Tok(CurlyOpen, "{")] + toks, [Char("}")], keeps, true);
  }

  lemma {:induction false} PartsTold(src: string, ps: seq<Part>, from: nat, to: nat)
    requires Tiles(ps, from, to) && AllRead(src, ps) && Fits(src, ps) && to <= |src|
    ensures Tells(src, from, to, PartsToks(src, ps), KeepsParts(src, ps))
    decreases |src|, 0, |ps| + 1
  {
    if ps != [] {
      PartTold(src, ps[0]);
      TilesFit(src, ps[1..], ps[0].to, to);
      PartsTold(src, ps[1..], ps[0].to, to);
      hide Tells, PartToks, KeepsPart;
      TellsCat(src, from, ps[0].to, to, PartToks(src, ps[0]), PartsToks(src, ps[1..]), KeepsPart(src, ps[0]), KeepsParts(src, ps[1..]));
    } else {
      assert src[from..to] == "";
    }
  }

  // ---- steps ----

  lemma OneMore(src: string, i: nat, j: nat)
    requires i <= j < |src|
    ensures src[i..j + 1] == src[i..j] + [src[j]]
  {
  }

  lemma HtmlTold(src: string, i: nat)
    requires i < |src|
    ensures Tells(src, i, HtmlStep(src, i).next, HtmlStep(src, i).toks, true)
  {
    var h, s := MarkAt(src, i, "<?"), HtmlStep(src, i);
    var html := if h > i then [Tok(InlineHtml, src[i..h])] else [];
    assert Tells(src, i, h, html, true) by {
      if h > i { TellsOne(src, i, h, Tok(InlineHtml, src[i..h]), true); } else { assert src[i..h] == ""; }
    }
    if h < |src| {
      var open := s.toks[|html|];
      assert s.toks == html + [open];
      OpenTold(src, h, s.next, open);
      hide Tells;
      TellsCat(src, i, h, s.next, html, [open], true, true);
    }
  }

  lemma OpenTold(src: string, h: nat, n: nat, t: Token)
    requires h < n <= |src|
    requires
      || (PrefixAt(src, h, "<?") && t.text == "<?" && n == h + 2)
      || (PrefixAt(src, h, "<?php") && t.text == "<?php" && n == h + 5)
      || (PrefixAt(src, h, "<?php") && n == h + 6 && t.text == "<?php" + [src[h + 5]])
    ensures Tells(src, h, n, [t], true)
  {
    hide Join, Ascii;
    if n == h + 6 { OneMore(src, h, h + 5); }
    TellsOne(src, h, n, t, true);
  }

  lemma ByteTold(src: string, i: nat)
    requires i < |src| && !Quote(src[i])
    ensures Tells(src, i, PhpStep(src, i).next, PhpStep(src, i).toks, KeepsByte(src, i))
  {
    hide Join, NumberEnd, BlankEnd, LineEnd, MarkAt, IdentEnd, MultiAt;
    var s := PhpStep(src, i);
    var t := s.toks[0];
    assert s.toks == [t];
    if PrefixAt(src, i, "?>") && At(src, i + 2, '\n') {
      OneMore(src, i, i + 2);
    }
    TellsOne(src, i, s.next, t, KeepsByte(src, i));
  }

  lemma StringPartsRead(src: string, i: nat)
    requires i < |src|
    ensures AllRead(src, StringParts(src, i))
  {
    if StringParts(src, i) != [] { PartsRead(src, i + 1, i + 1); }
  }

  lemma {:induction false} StringTold(src: string, i: nat)
    requires i < |src| && Quote(src[i])
    ensures Tells(src, i, StringStep(src, i).next, StringStep(src, i).toks, KeepsString(src, i))
    decreases |src|, 1, 0
  {
    hide StringEnd, StringParts, Join, Ascii, ScanInterp, Tiles, Fits, AllRead;
    StringEndBound(src, i);
    var ps, end := StringParts(src, i), StringEnd(src, i);
    if ps == [] {
      TellsOne(src, i, end, Tok(Encapsed, src[i..end]), true);
    } else {
      StringPartsRead(src, i);
      TilesFit(src, ps, i + 1, end - 1);
      PartsTold(src, ps, i + 1, end - 1);
      QuotesTell(src, i, end, PartsToks(src, ps), KeepsParts(src, ps));
    }
  }

  lemma QuotesTell(src: string, i: nat, end: nat, toks: seq<Token>, keeps: bool)
    requires i + 1 < end <= |src| && src[i] == '"' && src[end - 1] == '"' && Tells(src, i + 1, end - 1, toks, keeps)
    ensures Tells(src, i, end, [Char("\"")] + toks + [Char("\"")], keeps)
  {
    hide Join;
    assert src[i..i + 1] == "\"" && src[end - 1..end] == "\"";
    TellsOne(src, i, i + 1, Char("\""), true);
    TellsOne(src, end - 1, end, Char("\""), true);
    TellsCat(src, i, i + 1, end - 1, [Char("\"")], toks, true, keeps);
    TellsCat(src, i, end - 1, end, [Char("\"")] + toks, [Char("\"")], keeps, true);
  }

  lemma {:induction false} Told(src: string, i: nat, php: bool)
    requires i <= |src|
    ensures Tells(src, i, |src|, Toks(src, i, php), Keeps(src, i, php))
    decreases |src|, 2, |src| - i
  {
    if i == |src| {
      assert src[i..] == "";
    } else {
      var s := StepAt(src, i, php);
      if !php { HtmlTold(src, i); } else if Quote(src[i]) { StringTold(src, i); } else { ByteTold(src, i); }
      Told(src, s.next, s.php);
      assert Tells(src, i, s.next, s.toks, KeepsStep(src, i, php));
      hide Tells, StepAt, KeepsStep;
      TellsCat(src, i, s.next, |src|, s.toks, Toks(src, s.next, s.php), KeepsStep(src, i, php), Keeps(src, s.next, s.php));
    }
  }

  /** The texts of all tokens are the source wherever every byte is kept. */
  lemma KeptIsLossless(src: string)
    requires Keeps(src, 0, false)
    ensures Join(Toks(src, 0, false)) == src
  {
    hide Keeps, Toks, Join;
    Told(src, 0, false);
    assert src[0..] == src;
  }

  /**
   For an ASCII source the texts of all tokens are the source if and only if no literal, at any
   depth of braces, spells a variable `${name}` or `$name[]`; else they are shorter.
   */
  lemma LosslessWhen(src: string)
    requires Ascii(src)
    ensures Join(Toks(src, 0, false)) == src <==> Keeps(src, 0, false)
    ensures !Keeps(src, 0, false) ==> |Join(Toks(src, 0, false))| < |src|
  {
    hide Keeps, Toks, Join, Ascii;
    Told(src, 0, false);
    assert src[0..] == src;
  }

  // ---- a condition on the bytes alone ----

  predicate Pair(src: string, k: nat, a: char, b: char) {
    At(src, k, a) && At(src, k + 1, b)
  }

  /** Neither `${` nor `[]` stands anywhere, and every byte is below 0x80. */
  predicate Plainly(src: string) {
    Ascii(src) && forall k :: 0 <= k < |src| ==> !Pair(src, k, '$', '{') && !Pair(src, k, '[', ']')
  }

  lemma PlainlyInside(src: string, p: Part)
    requires Plainly(src) && p.from < p.to <= |src|
    ensures Plainly(Inner(src, p))
  {
    var s := Inner(src, p);
    assert forall k :: 0 <= k < |s| ==> s[k] == src[p.from + 1 + k];
    forall k | 0 <= k < |s| ensures !Pair(s, k, '$', '{') && !Pair(s, k, '[', ']') {
      assert !Pair(src, p.from + 1 + k, '$', '{') && !Pair(src, p.from + 1 + k, '[', ']');
    }
  }

  lemma PlainlySpelled(src: string, p: Part)
    requires Plainly(src) && Read(src, p) && p.Simple?
    ensures Spelled(src, p)
  {
    assert !Pair(src, p.from, '$', '{');
    var j := IdentEnd(src, p.from + 1);
    assert j < |src| ==> !Pair(src, j, '[', ']');
  }

  lemma {:induction false} PlainlyParts(src: string, ps: seq<Part>)
    requires Plainly(src) && AllRead(src, ps) && Fits(src, ps)
    ensures KeepsParts(src, ps)
    decreases |src|, 0, |ps| + 1
  {
    if ps != [] {
      var p := ps[0];
      if p.Simple? {
        PlainlySpelled(src, p);
      } else if p.Curly? {
        PlainlyInside(src, p);
        PlainlyKeeps(Inner(src, p), 0, true);
      }
      PlainlyParts(src, ps[1..]);
    }
  }

  /** A source without `${`, without `[]` and without bytes from 0x80 on is kept whole. */
  lemma {:induction false} PlainlyKeeps(src: string, i: nat, php: bool)
    requires i <= |src| && Plainly(src)
    ensures Keeps(src, i, php)
    decreases |src|, 2, |src| - i
  {
    if i < |src| {
      if php && Quote(src[i]) {
        StringEndBound(src, i);
        var ps := StringParts(src, i);
        if ps != [] {
          TilesFit(src, ps, i + 1, StringEnd(src, i) - 1);
          StringPartsRead(src, i);
          PlainlyParts(src, ps);
        }
      }
      hide Plainly, KeepsString;
      PlainlyKeeps(src, StepAt(src, i, php).next, StepAt(src, i, php).php);
      assert KeepsStep(src, i, php);
    }
  }
}
