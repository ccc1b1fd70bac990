/** The tokenizer that keeps every byte: an offset, a mode and the tokens so far, updated in place. */
module Tokenizer {
  import T = Tokens
  import opened Tokens
  import L = Literals
  import opened Literals
  import Scanner

  lemma Cat3<A>(a: seq<A>, b: seq<A>, c: seq<A>)
    ensures a + b + c == a + (b + c)
  {
  }

  class PhpTokenizer {
    const src: string
    var pos: nat
    var inPHP: bool
    var out: seq<Token>

    constructor (src: string, inPHP: bool)
      ensures this.src == src && pos == 0 && this.inPHP == inPHP && out == []
    {
      this.src := src;
      pos := 0;
      this.inPHP := inPHP;
      out := [];
    }

    method Advance()
      modifies this`pos
      ensures pos == if old(pos) < |src| then old(pos) + 1 else old(pos)
    {
      if pos < |src| { pos := pos + 1; }
    }

    method Consume(n: nat)
      requires pos <= |src|
      modifies this`pos
      ensures pos == if old(pos) + n <= |src| then old(pos) + n else |src|
    {
      var i := 0;
      while i < n
        invariant 0 <= i <= n && pos == if old(pos) + i <= |src| then old(pos) + i else |src|
      {
        Advance();
        i := i + 1;
      }
    }

    method EmitArr(id: Id, text: string)
      modifies this`out
      ensures out == old(out) + [Tok(id, text)]
    {
      out := out + [Tok(id, text)];
    }

    method EmitChar(c: char)
      modifies this`out
      ensures out == old(out) + [Char(Encoded(c))]
    {
      out := out + [Char(Encoded(c))];
    }

    /** All tokens from here on. */
    method Run()
      requires pos <= |src|
      modifies this
      ensures pos == |src| && out == old(out) + Toks(src, old(pos), old(inPHP))
      decreases |src|, 4
    {
      hide Toks, HtmlStep;
      while pos < |src|
        invariant pos <= |src| && out + Toks(src, pos, inPHP) == old(out) + Toks(src, old(pos), old(inPHP))
        decreases |src| - pos, inPHP
      {
        if !inPHP {
          ghost var i, before := pos, out;
          ScanInlineHTML();
          OneStep(src, i, false, before);
        } else {
          ScanPHP();
        }
      }
      NoToks(src, inPHP);
    }

    method ScanInlineHTML()
      requires pos < |src| && !inPHP
      modifies this
      ensures var s := HtmlStep(src, old(pos)); pos == s.next && inPHP == s.php && out == old(out) + s.toks
    {
      var start := pos;
      while pos < |src| && !PrefixAt(src, pos, "<?")
        invariant start <= pos <= |src| && out == old(out) && !inPHP
        invariant MarkAt(src, pos, "<?") == MarkAt(src, start, "<?")
      {
        Advance();
      }
      if pos > start { EmitArr(InlineHtml, src[start..pos]); }
      if pos < |src| {
        if PrefixAt(src, pos, "<?php") {
          Consume(5);
          var text := "<?php";
          if pos < |src| && Blank(src[pos]) {
            text := text + [src[pos]];
            Advance();
          }
          EmitArr(OpenTag, text);
        } else {
          Consume(2);
          EmitArr(OpenTag, "<?");
        }
        inPHP := true;
      }
    }

    /** PHP up to the closing tag or the end of the source. */
    method ScanPHP()
      requires pos < |src| && inPHP
      modifies this
      ensures pos <= |src| && out + Toks(src, pos, inPHP) == old(out) + Toks(src, old(pos), true)
      ensures old(pos) < pos
      decreases |src|, 3
    {
      hide Toks, PhpStep, StringStep;
      while pos < |src|
        invariant old(pos) <= pos <= |src| && inPHP
        invariant pos == |src| ==> old(pos) < pos
        invariant out + Toks(src, pos, true) == old(out) + Toks(src, old(pos), true)
      {
        ghost var i, before := pos, out;
        if Quote(src[pos]) { ScanString(); } else { ScanByte(); }
        OneStep(src, i, true, before);
        if !inPHP { return; }
      }
    }

    /** One token in PHP mode, at anything but a string literal. */
    method ScanByte()
      requires pos < |src| && inPHP && !Quote(src[pos])
      modifies this
      ensures var s := PhpStep(src, old(pos)); pos == s.next && inPHP == s.php && out == old(out) + s.toks
    {
      hide NumberEnd;
      var c := src[pos];
      if PrefixAt(src, pos, "?>") {
        Consume(2);
        var text := "?>";
        if pos < |src| && src[pos] == '\n' {
          Advance();
          text := "?>\n";
        }
        EmitArr(CloseTag, text);
        inPHP := false;
      } else if Blank(c) {
        ScanWhitespace();
      } else if PrefixAt(src, pos, "//") || c == '#' {
        ScanLineComment();
      } else if PrefixAt(src, pos, "/*") {
        ScanBlockComment();
      } else if c == '$' {
        ScanVariable();
      } else if IdentStart(c) {
        ScanIdent();
      } else if Digit(c) {
        ScanNumber();
      } else {
        var found := ScanOperator();
        if !found {
          EmitChar(c);
          Advance();
        }
      }
    }

    method ScanWhitespace()
      requires pos < |src| && Blank(src[pos])
      modifies this`pos, this`out
      ensures pos == BlankEnd(src, old(pos) + 1) && out == old(out) + [Tok(Whitespace, src[old(pos)..pos])]
    {
      var start := pos;
      Advance();
      while pos < |src| && Blank(src[pos])
        invariant start < pos <= |src| && BlankEnd(src, pos) == BlankEnd(src, start + 1) && out == old(out)
      {
        Advance();
      }
      EmitArr(Whitespace, src[start..pos]);
    }

    method ScanLineComment()
      requires pos < |src|
      modifies this`pos, this`out
      ensures pos == LineEnd(src, old(pos) + 1) && out == old(out) + [Tok(Comment, src[old(pos)..pos])]
    {
      var start := pos;
      Advance();
      while pos < |src| && src[pos] != '\n'
        invariant start < pos <= |src| && LineEnd(src, pos) == LineEnd(src, start + 1) && out == old(out)
      {
        if PrefixAt(src, pos, "?>") { break; }
        Advance();
      }
      EmitArr(Comment, src[start..pos]);
    }

    method ScanBlockComment()
      requires PrefixAt(src, pos, "/*")
      modifies this`pos, this`out
      ensures
        var j := MarkAt(src, old(pos) + 2, "*/");
        pos == (if j + 2 <= |src| then j + 2 else |src|) && out == old(out) + [Tok(Comment, src[old(pos)..pos])]
    {
      var start := pos;
      Consume(2);
      while pos < |src| && !PrefixAt(src, pos, "*/")
        invariant start + 2 <= pos <= |src| && MarkAt(src, pos, "*/") == MarkAt(src, start + 2, "*/") && out == old(out)
      {
        Advance();
      }
      Consume(2);
      EmitArr(Comment, src[start..pos]);
    }

    method ScanVariable()
      requires pos < |src|
      modifies this`pos, this`out
      ensures pos == L.IdentEnd(src, old(pos) + 1) && out == old(out) + [Tok(Variable, src[old(pos)..pos])]
    {
      var start := pos;
      Advance();
      while pos < |src| && IdentPart(src[pos])
        invariant start < pos <= |src| && L.IdentEnd(src, pos) == L.IdentEnd(src, start + 1) && out == old(out)
      {
        Advance();
      }
      EmitArr(Variable, src[start..pos]);
    }

    method ScanIdent()
      requires pos < |src| && IdentStart(src[pos])
      modifies this`pos, this`out
      ensures pos == L.IdentEnd(src, old(pos) + 1) && out == old(out) + [Tok(Word, src[old(pos)..pos])]
    {
      var start := pos;
      while pos < |src| && IdentPart(src[pos])
        invariant start <= pos <= |src| && L.IdentEnd(src, pos) == L.IdentEnd(src, start) && out == old(out)
      {
        Advance();
      }
      EmitArr(Word, src[start..pos]);
    }

    method ScanNumber()
      requires pos < |src| && Digit(src[pos])
      modifies this`pos, this`out
      ensures
        var r := NumberEnd(src, old(pos));
        pos == r.0 && out == old(out) + [Tok(if r.1 then FloatNumber else IntNumber, src[old(pos)..pos])]
    {
      hide NumberEnd;
      var start := pos;
      var end, isFloat := FindNumberEnd(src, pos);
      while pos < end
        invariant start <= pos <= end <= |src| && out == old(out)
      {
        Advance();
      }
      EmitArr(if isFloat then FloatNumber else IntNumber, src[start..pos]);
    }

    /** The first operator of the table here, if there is one. */
    method ScanOperator() returns (found: bool)
      requires pos < |src|
      modifies this`pos, this`out
      ensures
        var op := MultiAt(src, old(pos), MULTI);
        && found == (op != "")
        && pos == old(pos) + |op|
        && out == old(out) + if found then [Tok(Operator, op)] else []
    {
      hide PrefixAt, MultiAt;
      var k := 0;
      FromFirst(src, pos);
      while k < |MULTI|
        invariant 0 <= k <= |MULTI| && pos == old(pos) && out == old(out)
        invariant MultiAt(src, pos, MULTI[k..]) == MultiAt(src, pos, MULTI)
      {
        FromNext(src, pos, k);
        if PrefixAt(src, pos, MULTI[k]) {
          Within(src, pos, MULTI[k]);
          NoEmptyOp(k);
          EmitArr(Operator, MULTI[k]);
          Consume(|MULTI[k]|);
          return true;
        }
        k := k + 1;
      }
      FromNone(src, pos);
      found := false;
    }

    method ScanString()
      requires pos < |src| && inPHP && Quote(src[pos])
      modifies this
      ensures var s := StringStep(src, old(pos)); pos == s.next && inPHP == s.php && out == old(out) + s.toks
      decreases |src|, 2
    {
      hide L.ScanInterp, SkipEnd, PartsToks;
      StringEndBound(src, pos);
      var start, quote := pos, src[pos];
      if quote == '"' {
        var scan, interp := Scanner.ScanInterp(src, pos + 1);
        if interp {
          EmbedsSome(scan.parts);
          TilesFit(src, scan.parts, pos + 1, scan.end - 1);
          EmitInterp(scan.parts, scan.end);
          return;
        }
      }
      Advance();
      ghost var e := L.SkipEnd(src, pos, quote);
      FindClose(quote, e);
      EmitArr(Encapsed, src[start..pos]);
    }

    /** Goes behind the closing quote, or to the end of the source. */
    method FindClose(quote: char, ghost e: End)
      requires pos <= |src| && e == L.SkipEnd(src, pos, quote)
      modifies this`pos
      ensures old(pos) <= pos <= |src| && pos == if e.EndAt? then e.pos else |src|
    {
      while pos < |src|
        invariant old(pos) <= pos <= |src| && L.SkipEnd(src, pos, quote) == e
      {
        var c := src[pos];
        if c == '\\' && pos + 1 < |src| {
          Consume(2);
          continue;
        }
        if c == quote {
          Advance();
          return;
        }
        Advance();
      }
    }

    /** The quotes of a literal and the tokens of its pieces, whose bytes it passes over one after the other. */
    method EmitInterp(parts: seq<Part>, ghost end: nat)
      requires pos + 1 < end <= |src| && Fits(src, parts) && Tiles(parts, pos + 1, end - 1)
      modifies this`pos, this`out
      ensures pos == end
      ensures out == old(out) + ([Char("\"")] + PartsToks(src, parts) + [Char("\"")])
      decreases |src|, 1
    {
      hide PartToks, PartsToks;
      EmitChar('"');
      Advance();
      ghost var base := out;
      NoPieces(src, parts);
      var k := 0;
      while k < |parts|
        invariant 0 <= k <= |parts| && Tiles(parts[k..], pos, end - 1) && pos <= end - 1
        invariant Fits(src, parts[k..]) && out + PartsToks(src, parts[k..]) == base + PartsToks(src, parts)
      {
        ghost var before := out;
        NextPiece(src, parts, k, pos, end - 1);
        EmitPart(parts[k]);
        Cat3(before, PartToks(src, parts[k]), PartsToks(src, parts[k + 1..]));
        Consume(parts[k].to - parts[k].from);
        k := k + 1;
      }
      NoPieces(src, parts);
      EmitChar('"');
      Advance();
      Cat3(old(out), [Char("\"")], PartsToks(src, parts));
      Cat3(old(out), [Char("\"")] + PartsToks(src, parts), [Char("\"")]);
    }

    method EmitPart(p: Part)
      requires p.from < p.to <= |src|
      modifies this`out
      ensures out == old(out) + PartToks(src, p)
      decreases |src|, 0
    {
      match p
      case Text(from, to) => EmitArr(EncapsedText, src[from..to]);
      case Simple(_, _, name, sub, prop) =>
        EmitArr(Variable, "$" + name);
        if prop != "" {
          EmitArr(Operator, "->");
          EmitArr(Word, prop);
        } else if sub != "" {
          EmitChar('[');
          EmitSubscript(sub);
          EmitChar(']');
        }
      case Curly(_, _) =>
        EmitArr(CurlyOpen, "{");
        var inner := TokenizeFrom(Inner(src, p));
        out := out + inner;
        EmitChar('}');
    }

    method EmitSubscript(sub: string)
      modifies this`out
      ensures out == old(out) + Subscript(sub)
    {
      if sub == "" { return; }
      if sub[0] == '$' {
        EmitArr(Variable, sub);
      } else if sub[0] == '-' {
        EmitChar('-');
        EmitArr(NumString, sub[1..]);
      } else if Digit(sub[0]) {
        EmitArr(NumString, sub);
      } else {
        EmitArr(Word, sub);
      }
    }
  }

  /** The tokens of the PHP between the braces of a literal. */
  method TokenizeFrom(src: string) returns (toks: seq<Token>)
    ensures toks == Toks(src, 0, true)
    decreases |src|, 5
  {
    var t := new PhpTokenizer(src, true);
    t.Run();
    toks := t.out;
    assert [] + Toks(src, 0, true) == Toks(src, 0, true);
  }

  /** The tokens of a source file. For ASCII their texts are the source where its literals keep theirs. */
  method TokenGetAll(src: string) returns (toks: seq<Token>)
    ensures toks == Toks(src, 0, false)
  {
    var t := new PhpTokenizer(src, false);
    t.Run();
    toks := t.out;
    assert [] + Toks(src, 0, false) == Toks(src, 0, false);
  }

  method FindNumberEnd(src: string, pos: nat) returns (end: nat, isFloat: bool)
    requires pos < |src| && Digit(src[pos])
    ensures (end, isFloat) == NumberEnd(src, pos)
  {
    if src[pos] == '0' && pos + 1 < |src| && Prefixed(src[pos + 1]) {
      var base := src[pos + 1];
      var p := pos + 2;
      while p < |src| && (BaseDigit(base, src[p]) || src[p] == '_')
        invariant pos + 2 <= p <= |src| && BaseEnd(src, p, base) == BaseEnd(src, pos + 2, base)
      {
        p := p + 1;
      }
      if p > pos + 2 { return p, false; }
    }
    var p := SkipDigits(src, pos + 1);
    isFloat := p < |src| && src[p] == '.';
    if isFloat { p := SkipDigits(src, p + 1); }
    if p < |src| && (src[p] == 'e' || src[p] == 'E') {
      var q := p + 1;
      if q < |src| && (src[q] == '+' || src[q] == '-') { q := q + 1; }
      if q < |src| && Digit(src[q]) {
        p := SkipDigits(src, q);
        isFloat := true;
      }
    }
    end := p;
  }

  method SkipDigits(src: string, i: nat) returns (j: nat)
    requires i <= |src|
    ensures j == DigitEnd(src, i)
  {
    j := i;
    while j < |src| && (Digit(src[j]) || src[j] == '_')
      invariant i <= j <= |src| && DigitEnd(src, j) == DigitEnd(src, i)
    {
      j := j + 1;
    }
  }

  lemma OneStep(src: string, i: nat, php: bool, before: seq<Token>)
    requires i < |src|
    ensures
      var s := StepAt(src, i, php);
      before + s.toks + Toks(src, s.next, s.php) == before + Toks(src, i, php)
  {
    var s := StepAt(src, i, php);
    Cat3(before, s.toks, Toks(src, s.next, s.php));
  }

  lemma NoToks(src: string, php: bool)
    ensures Toks(src, |src|, php) == []
  {
  }

  lemma Within(src: string, i: nat, p: string)
    requires PrefixAt(src, i, p)
    ensures i + |p| <= |src|
  {
  }

  lemma FromFirst(src: string, i: nat)
    ensures MultiAt(src, i, MULTI[0..]) == MultiAt(src, i, MULTI)
  {
    assert MULTI[0..] == MULTI;
  }

  lemma FromNext(src: string, i: nat, k: nat)
    requires k < |MULTI|
    ensures MultiAt(src, i, MULTI[k..]) == if PrefixAt(src, i, MULTI[k]) then MULTI[k] else MultiAt(src, i, MULTI[k + 1..])
  {
    hide PrefixAt;
    assert MULTI[k..][0] == MULTI[k] && MULTI[k..][1..] == MULTI[k + 1..];
  }

  lemma FromNone(src: string, i: nat)
    ensures MultiAt(src, i, MULTI[|MULTI|..]) == ""
  {
  }

  lemma NoEmptyOp(k: nat)
    requires k < |MULTI|
    ensures MULTI[k] != ""
  {
  }

  lemma EmbedsSome(ps: seq<Part>)
    requires Embeds(ps)
    ensures ps != []
  {
  }

  lemma NoPieces(src: string, parts: seq<Part>)
    ensures PartsToks(src, parts[|parts|..]) == [] && parts[0..] == parts
  {
  }

  lemma NextPiece(src: string, parts: seq<Part>, k: nat, pos: nat, end: nat)
    requires k < |parts| && Fits(src, parts[k..]) && Tiles(parts[k..], pos, end) && end < |src|
    ensures pos == parts[k].from < parts[k].to <= end && Fits(src, parts[k + 1..])
    ensures Tiles(parts[k + 1..], parts[k].to, end)
    ensures PartsToks(src, parts[k..]) == PartToks(src, parts[k]) + PartsToks(src, parts[k + 1..])
  {
    assert parts[k..][1..] == parts[k + 1..];
    TilesFit(src, parts[k + 1..], parts[k].to, end);
  }
}
