/** The scanners of string literals, as loops over an offset. */
module Scanner {
  import L = Literals
  import opened Literals

  method IdentRun(src: string, i: nat) returns (j: nat)
    requires i <= |src|
    ensures j == L.IdentEnd(src, i)
  {
    j := i;
    while j < |src| && IdentPart(src[j])
      invariant i <= j <= |src| && L.IdentEnd(src, j) == L.IdentEnd(src, i)
    {
      j := j + 1;
    }
  }

  method IndexByte(src: string, i: nat, c: char) returns (j: nat)
    requires i <= |src|
    ensures j == L.Seek(src, i, c)
  {
    j := i;
    while j < |src| && src[j] != c
      invariant i <= j <= |src| && L.Seek(src, j, c) == L.Seek(src, i, c)
    {
      j := j + 1;
    }
  }

  method HexRun(src: string, i: nat, limit: int) returns (n: nat)
    requires i <= |src|
    ensures n == L.HexRun(src, i, limit)
  {
    n := 0;
    while i + n < |src| && n < limit
      invariant i + n <= |src| && n + L.HexRun(src, i + n, limit - n) == L.HexRun(src, i, limit)
      decreases limit - n
    {
      if !HexDigit(src[i + n]) { return; }
      n := n + 1;
    }
  }

  method OctalRun(src: string, i: nat, limit: nat) returns (n: nat)
    requires i <= |src|
    ensures n == L.OctalRun(src, i, limit)
  {
    n := 0;
    while i + n < |src| && n < limit && OctDigit(src[i + n])
      invariant n <= limit && i + n <= |src| && n + L.OctalRun(src, i + n, limit - n) == L.OctalRun(src, i, limit)
    {
      n := n + 1;
    }
  }

  /** How many bytes follow the backslash at i. */
  method DecodeEscape(src: string, i: nat, quote: char) returns (n: nat)
    requires i + 1 < |src|
    ensures n == L.EscapeLen(src, i, quote)
  {
    var next := src[i + 1];
    if quote == '\'' { return 1; }
    if next == 'x' || next == 'X' {
      var digits := HexRun(src, i + 2, 2);
      return if digits == 0 then 1 else 1 + digits;
    }
    if next == 'u' {
      if i + 2 >= |src| || src[i + 2] != '{' { return 1; }
      var close := IndexByte(src, i + 3, '}');
      var end: int := if close == |src| then -1 else close - (i + 3);
      var digits := HexRun(src, i + 3, end);
      if end <= 0 || digits != end { return 1; }
      var tooWide := Exceeds(src, i + 3, close);
      return if tooWide then 1 else 3 + digits;
    }
    if OctDigit(next) {
      n := OctalRun(src, i + 1, 3);
      return;
    }
    n := 1;
  }

  /** The hex digits from i up to j spell a number of more than 32 bits. */
  method Exceeds(src: string, i: nat, j: nat) returns (wide: bool)
    requires i <= j <= |src| && forall k :: i <= k < j ==> HexDigit(src[k])
    ensures wide == (L.HexNumber(src, i, j) >= 0x1_0000_0000)
  {
    var value := 0;
    var k := i;
    while k < j
      invariant i <= k <= j && value == L.HexNumber(src, i, k)
    {
      value := 16 * value + HexValue(src[k]);
      k := k + 1;
    }
    wide := value >= 0x1_0000_0000;
  }

  method SkipQuoted(src: string, i: nat) returns (e: End)
    requires i < |src|
    ensures e == L.SkipEnd(src, i + 1, src[i])
  {
    var quote := src[i];
    var j := i + 1;
    while j < |src|
      invariant i < j <= |src| && L.SkipEnd(src, j, quote) == L.SkipEnd(src, i + 1, quote)
    {
      if src[j] == '\\' && j + 1 < |src| {
        j := j + 2;
        continue;
      }
      if src[j] == quote { return EndAt(j + 1); }
      j := j + 1;
    }
    e := Unclosed;
  }

  method ScanCurly(src: string, i: nat) returns (e: End)
    requires i <= |src|
    ensures e == L.CurlyEnd(src, i, 0)
  {
    var depth := 0;
    var j := i;
    while j < |src|
      invariant i <= j <= |src| && L.CurlyEnd(src, j, depth) == L.CurlyEnd(src, i, 0)
    {
      var c := src[j];
      if Quote(c) {
        var k := SkipQuoted(src, j);
        if k.Unclosed? { return Unclosed; }
        j := k.pos;
        continue;
      }
      if c == '{' {
        depth := depth + 1;
      } else if c == '}' {
        depth := depth - 1;
        if depth == 0 { return EndAt(j + 1); }
      }
      j := j + 1;
    }
    e := Unclosed;
  }

  method ScanDollarBrace(src: string, i: nat) returns (p: Piece)
    requires L.At(src, i, '$') && L.At(src, i + 1, '{')
    ensures p == L.ScanDollarBrace(src, i)
  {
    var start := i + 2;
    if start >= |src| || !IdentStart(src[start]) { return BadPiece; }
    var j := IdentRun(src, start);
    var name, sub := src[start..j], "";
    if j < |src| && src[j] == '[' {
      var k := IndexByte(src, j, ']');
      if k == |src| { return BadPiece; }
      sub := src[j + 1..k];
      j := k + 1;
    }
    if j >= |src| || src[j] != '}' { return BadPiece; }
    p := Piece(Simple(i, j + 1, name, sub, ""));
  }

  method ScanSimple(src: string, i: nat) returns (p: Piece)
    requires L.At(src, i, '$')
    ensures p == L.ScanSimple(src, i)
  {
    hide L.Seek, L.IdentEnd, L.ScanDollarBrace;
    if i + 1 >= |src| { return NoPiece; }
    if src[i + 1] == '{' {
      p := ScanDollarBrace(src, i);
      return;
    }
    if !IdentStart(src[i + 1]) { return NoPiece; }
    var j := IdentRun(src, i + 1);
    var name := src[i + 1..j];
    if j < |src| && src[j] == '[' {
      var k := IndexByte(src, j, ']');
      return if k == |src| then BadPiece else Piece(Simple(i, k + 1, name, src[j + 1..k], ""));
    }
    if j + 2 < |src| && src[j] == '-' && src[j + 1] == '>' && IdentStart(src[j + 2]) {
      var k := IdentRun(src, j + 2);
      return Piece(Simple(i, k, name, "", src[j + 2..k]));
    }
    assert IdentPart(src[i + 1]);
    p := Piece(Simple(i, j, name, "", ""));
  }

  lemma BeforeTwice(a: seq<Part>, b: seq<Part>, r: Scan)
    ensures Before(a, Before(b, r)) == Before(a + b, r)
  {
    if r.Parts? { assert a + (b + r.parts) == a + b + r.parts; }
  }

  lemma BeforeNone(r: Scan)
    ensures Before([], r) == r
  {
    if r.Parts? { assert [] + r.parts == r.parts; }
  }

  lemma EmbedsMore(a: seq<Part>, b: seq<Part>)
    ensures Embeds(a + b) <==> Embeds(a) || Embeds(b)
  {
    if Embeds(a) {
      var k :| 0 <= k < |a| && !a[k].Text?;
      assert (a + b)[k] == a[k];
    }
    if Embeds(b) {
      var k :| 0 <= k < |b| && !b[k].Text?;
      assert (a + b)[|a| + k] == b[k];
    }
  }

  /** Splits the body of a double-quoted literal into its pieces. */
  method ScanInterp(src: string, start: nat) returns (r: Scan, interp: bool)
    requires start <= |src|
    ensures r == L.ScanInterp(src, start, start)
    ensures interp == (r.Parts? && Embeds(r.parts))
  {
    hide EscapeLen, L.ScanSimple, L.CurlyEnd, Before;
    var parts: seq<Part> := [];
    interp := false;
    var textStart, i := start, start;
    BeforeNone(L.ScanInterp(src, start, start));
    while i < |src|
      invariant start <= textStart <= i <= |src|
      invariant Before(parts, L.ScanInterp(src, textStart, i)) == L.ScanInterp(src, start, start)
      invariant interp == Embeds(parts)
    {
      var c := src[i];
      if c == '\\' && i + 1 < |src| {
        var n := DecodeEscape(src, i, '"');
        i := i + 1 + n;
      } else if c == '"' {
        EmbedsMore(parts, Flush(textStart, i));
        AtEnd(parts, Flush(textStart, i), i + 1);
        return Parts(parts + Flush(textStart, i), i + 1), interp;
      } else if c == '$' {
        var p := ScanSimple(src, i);
        if p.BadPiece? {
          AtBad(parts);
          return BadScan, false;
        }
        if p.NoPiece? {
          i := i + 1;
        } else {
          BeforeTwice(parts, Flush(textStart, i) + [p.part], L.ScanInterp(src, p.part.to, p.part.to));
          OneMore(parts, textStart, i, p.part);
          parts, interp := parts + (Flush(textStart, i) + [p.part]), true;
          i, textStart := p.part.to, p.part.to;
        }
      } else if c == '{' && i + 1 < |src| && src[i + 1] == '$' {
        var e := ScanCurly(src, i);
        if e.Unclosed? {
          AtBad(parts);
          return BadScan, false;
        }
        BeforeTwice(parts, Flush(textStart, i) + [Curly(i, e.pos)], L.ScanInterp(src, e.pos, e.pos));
        OneMore(parts, textStart, i, Curly(i, e.pos));
        parts, interp := parts + (Flush(textStart, i) + [Curly(i, e.pos)]), true;
        i, textStart := e.pos, e.pos;
      } else {
        i := i + 1;
      }
    }
    AtBad(parts);
    return BadScan, false;
  }

  lemma AtEnd(parts: seq<Part>, run: seq<Part>, end: nat)
    requires forall k :: 0 <= k < |run| ==> run[k].Text?
    ensures Before(parts, Parts(run, end)) == Parts(parts + run, end) && !Embeds(run)
  {
  }

  lemma AtBad(parts: seq<Part>)
    ensures Before(parts, BadScan) == BadScan
  {
  }

  lemma OneMore(parts: seq<Part>, from: nat, to: nat, p: Part)
    requires !p.Text?
    ensures Embeds(parts + (Flush(from, to) + [p]))
  {
    var ps := parts + (Flush(from, to) + [p]);
    assert ps[|ps| - 1] == p;
  }

  /** The lexer's literal: a fast path, a scan for embedded expressions and a slow path. */
  method LexString(src: string, open: nat) returns (l: Lexed)
    requires open < |src|
    ensures l == L.LexString(src, open)
  {
    hide EscapeLen, L.ScanInterp, Embeds;
    var quote := src[open];
    var start := open + 1;
    var i := start;
    while i < |src|
      invariant start <= i <= |src| && L.FastEnd(src, i, quote) == L.FastEnd(src, start, quote)
    {
      var c := src[i];
      if c == '\\' || (c == '$' && quote == '"') { break; }
      if c == quote { return Plain(i + 1); }
      i := i + 1;
    }
    assert L.FastEnd(src, start, quote).Unclosed?;
    if quote == '"' {
      var scan, interp := ScanInterp(src, start);
      if scan.BadScan? { return Rejected; }
      if interp { return Interpolated(scan.end); }
    }
    var pos := start;
    while pos < |src|
      invariant start <= pos <= |src| && L.DecodeEnd(src, pos, quote) == L.DecodeEnd(src, start, quote)
    {
      var c := src[pos];
      if c == '\\' && pos + 1 < |src| {
        var n := DecodeEscape(src, pos, quote);
        pos := pos + 1 + n;
        continue;
      }
      if c == quote { return Plain(pos + 1); }
      pos := pos + 1;
    }
    l := Rejected;
  }
}
