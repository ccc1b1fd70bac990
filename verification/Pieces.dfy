/** What an escape sequence, a variable and a run of text in a literal are, told by their bytes. */
module Pieces {
  import opened Literals

  // ---- escapes ----

  predicate Hex(c: char) {
    '0' <= c <= '9' || 'a' <= c <= 'f' || 'A' <= c <= 'F'
  }

  /** The hex digits from a up to b are a number of at most 32 bits: all but the last eight are zeros. */
  predicate Narrow(src: string, a: nat, b: nat) {
    b <= |src| && forall k :: a <= k < b - 8 ==> src[k] == '0'
  }

  function Pow16(n: nat): (p: nat)
    ensures p >= 1
  {
    if n == 0 then 1 else 16 * Pow16(n - 1)
  }

  lemma {:induction false} HexBounds(src: string, i: nat, j: nat, t: nat)
    requires i <= j <= |src| && t <= j - i && forall k :: i <= k < j ==> HexDigit(src[k])
    ensures Pow16(t) * HexNumber(src, i, j - t) <= HexNumber(src, i, j) < Pow16(t) * (HexNumber(src, i, j - t) + 1)
    decreases t
  {
    if t > 0 {
      HexBounds(src, i, j, t - 1);
      var top, d := HexNumber(src, i, j - t), HexValue(src[j - t]);
      assert HexNumber(src, i, j - (t - 1)) == 16 * top + d;
      Scaled(Pow16(t - 1), top, d);
    }
  }

  lemma Scaled(p: nat, top: nat, d: nat)
    requires d < 16
    ensures 16 * p * top <= p * (16 * top + d) && p * (16 * top + d + 1) <= 16 * p * (top + 1)
  {
    assert p * (16 * top + d) == 16 * p * top + p * d;
    assert p * (16 * top + d + 1) == 16 * p * top + p * (d + 1);
    assert 16 * p * (top + 1) == 16 * p * top + p * 16;
    assert p * (d + 1) <= p * 16;
  }

  lemma {:induction false} HexZero(src: string, i: nat, j: nat)
    requires i <= j <= |src| && forall k :: i <= k < j ==> HexDigit(src[k])
    ensures HexNumber(src, i, j) == 0 <==> forall k :: i <= k < j ==> src[k] == '0'
    decreases j - i
  {
    if i < j { HexZero(src, i, j - 1); }
  }

  lemma NarrowIs(src: string, i: nat, j: nat)
    requires i <= j <= |src| && forall k :: i <= k < j ==> HexDigit(src[k])
    ensures HexNumber(src, i, j) < 0x1_0000_0000 <==> Narrow(src, i, j)
  {
    var t := if j - i < 8 then j - i else 8;
    HexBounds(src, i, j, t);
    HexZero(src, i, j - t);
    Eight(t);
  }

  lemma Eight(t: nat)
    ensures t == 8 ==> Pow16(t) == 0x1_0000_0000
    ensures t < 8 ==> Pow16(t) < 0x1_0000_0000
  {
    assert Pow16(4) == 0x1_0000 && Pow16(8) == 16 * 16 * 16 * 16 * Pow16(4);
    if t < 8 { Growing(t, 8 - t); }
  }

  lemma {:induction false} Growing(t: nat, more: nat)
    ensures more > 0 ==> Pow16(t) < Pow16(t + more)
    decreases more
  {
    if more > 0 { Growing(t, more - 1); }
  }

  /** `\u{...}` with hex digits of at most 32 bits up to the first closing brace, which is at close. */
  predicate CodePointAt(src: string, i: nat, close: nat) {
    && At(src, i + 1, 'u') && At(src, i + 2, '{') && i + 3 < close && At(src, close, '}')
    && (forall k :: i + 3 <= k < close ==> Hex(src[k])) && Narrow(src, i + 3, close)
  }

  lemma {:induction false} HexReach(src: string, i: nat, limit: nat)
    requires i <= |src|
    ensures var n := HexRun(src, i, limit); n < limit && i + n < |src| ==> !Hex(src[i + n])
    decreases |src| - i
  {
    if i < |src| && 0 < limit && HexDigit(src[i]) { HexReach(src, i + 1, limit - 1); }
  }

  lemma {:induction false} OctalReach(src: string, i: nat, limit: nat)
    requires i <= |src|
    ensures var n := OctalRun(src, i, limit); n < limit && i + n < |src| ==> !('0' <= src[i + n] <= '7')
    decreases |src| - i
  {
    if i < |src| && 0 < limit && OctDigit(src[i]) { OctalReach(src, i + 1, limit - 1); }
  }

  /**
   How many bytes an escape takes behind its backslash. Between double quotes `\x` takes up to two hex
   digits, `\u{...}` a whole code point, and an octal escape up to three digits; all else is one byte.
   */
  lemma EscapeIs(src: string, i: nat, quote: char)
    requires i + 1 < |src|
    ensures
      var n, next := EscapeLen(src, i, quote), src[i + 1];
      && (quote == '\'' ==> n == 1)
      && (quote != '\'' && (next == 'x' || next == 'X') ==>
            && 1 <= n <= 3 && (forall k :: i + 2 <= k < i + 1 + n ==> k < |src| && Hex(src[k]))
            && (n < 3 && i + 1 + n < |src| ==> !Hex(src[i + 1 + n])))
      && (quote != '\'' && '0' <= next <= '7' ==>
            && 1 <= n <= 3 && (forall k :: i + 1 <= k < i + 1 + n ==> k < |src| && '0' <= src[k] <= '7')
            && (n < 3 && i + 1 + n < |src| ==> !('0' <= src[i + 1 + n] <= '7')))
      && (quote != '\'' && next == 'u' ==>
            if exists close: nat :: CodePointAt(src, i, close) then CodePointAt(src, i, i + n) else n == 1)
      && (quote != '\'' && next !in {'x', 'X', 'u', '0', '1', '2', '3', '4', '5', '6', '7'} ==> n == 1)
  {
    if quote != '\'' {
      if src[i + 1] == 'x' || src[i + 1] == 'X' {
        HexReach(src, i + 2, 2);
      } else if src[i + 1] == 'u' {
        CodePoint(src, i, quote);
      } else if OctDigit(src[i + 1]) {
        OctalReach(src, i + 1, 3);
        assert OctalRun(src, i + 1, 3) == 1 + OctalRun(src, i + 2, 2);
      }
    }
  }

  lemma CodePoint(src: string, i: nat, quote: char)
    requires i + 1 < |src| && quote != '\'' && src[i + 1] == 'u'
    ensures
      var n := EscapeLen(src, i, quote);
      if exists close: nat :: CodePointAt(src, i, close) then CodePointAt(src, i, i + n) else n == 1
  {
    hide HexNumber, Narrow;
    if At(src, i + 2, '{') {
      var close := Seek(src, i + 3, '}');
      forall c: nat | CodePointAt(src, i, c) ensures c == close { FirstBrace(src, i, c); }
      var digits := close - (i + 3);
      HexReach(src, i + 3, digits);
      if HexRun(src, i + 3, digits) == digits {
        NarrowIs(src, i + 3, close);
        if close < |src| && digits > 0 && Narrow(src, i + 3, close) { assert CodePointAt(src, i, close); }
      } else {
        var m := i + 3 + HexRun(src, i + 3, digits);
        assert m < close && !Hex(src[m]);
      }
    }
  }

  lemma FirstBrace(src: string, i: nat, c: nat)
    requires i + 3 <= |src| && CodePointAt(src, i, c)
    ensures Seek(src, i + 3, '}') == c
  {
    hide Narrow;
    OneSeek(src, i + 3, c, '}');
  }

  // ---- variables ----

  /** A name, as long as it goes, stands from a up to b. */
  predicate NameAt(src: string, a: nat, b: nat) {
    && a < b <= |src| && IdentStart(src[a]) && (forall k :: a < k < b ==> IdentPart(src[k]))
    && (b < |src| ==> !IdentPart(src[b]))
  }

  predicate FirstAt(src: string, from: nat, k: nat, c: char) {
    from <= k < |src| && src[k] == c && forall j :: from <= j < k ==> src[j] != c
  }

  /** `$name`, with `[...]` up to the first closing bracket or with `->name` behind it, or `${name}` or `${name[...]}`. */
  predicate VariableAt(src: string, i: nat, p: Part) {
    && p.Simple? && p.from == i && i < |src| && src[i] == '$' && p.to <= |src|
    && var start := if At(src, i + 1, '{') then i + 2 else i + 1;
    && var j := start + |p.name|;
    && NameAt(src, start, j) && p.name == src[start..j]
    && if At(src, i + 1, '{') then
         && p.prop == ""
         && if At(src, j, '[') then p.to > j + 2 && FirstAt(src, j, p.to - 2, ']') && At(src, p.to - 1, '}') && p.sub == src[j + 1..p.to - 2]
            else At(src, j, '}') && p.to == j + 1 && p.sub == ""
       else if At(src, j, '[') then p.to > j + 1 && FirstAt(src, j, p.to - 1, ']') && p.sub == src[j + 1..p.to - 1] && p.prop == ""
       else if At(src, j, '-') && At(src, j + 1, '>') && j + 2 < |src| && IdentStart(src[j + 2]) then
         p.sub == "" && NameAt(src, j + 2, p.to) && p.prop == src[j + 2..p.to]
       else p.to == j && p.sub == "" && p.prop == ""
  }

  lemma {:induction false} NameRun(src: string, i: nat)
    requires i <= |src|
    ensures IdentEnd(src, i) < |src| ==> !IdentPart(src[IdentEnd(src, i)])
    decreases |src| - i
  {
    if i < |src| && IdentPart(src[i]) { NameRun(src, i + 1); }
  }

  lemma NameThere(src: string, i: nat)
    requires i < |src| && IdentStart(src[i])
    ensures NameAt(src, i, IdentEnd(src, i))
  {
    NameRun(src, i);
  }

  lemma OneName(src: string, a: nat, b: nat)
    requires a < |src| && NameAt(src, a, b)
    ensures b == IdentEnd(src, a)
  {
    hide IdentEnd, IdentStart, IdentPart;
    StartPart(src[a]);
    NameRun(src, a);
    var e := IdentEnd(src, a);
  }

  lemma StartPart(c: char)
    ensures IdentStart(c) ==> IdentPart(c)
  {
  }

  lemma OneSeek(src: string, from: nat, k: nat, c: char)
    requires FirstAt(src, from, k, c)
    ensures Seek(src, from, c) == k
  {
    hide Seek;
    var s := Seek(src, from, c);
  }

  /** What is read at a dollar is the one variable that stands there, and nothing where no name follows. */
  lemma SimpleIs(src: string, i: nat)
    requires At(src, i, '$')
    ensures forall p :: ScanSimple(src, i) == Piece(p) <==> VariableAt(src, i, p)
    ensures ScanSimple(src, i) == NoPiece <==> !At(src, i + 1, '{') && (i + 1 < |src| ==> !IdentStart(src[i + 1]))
  {
    hide VariableAt, IdentEnd, Seek, IdentStart, IdentPart;
    forall p | ScanSimple(src, i) == Piece(p) ensures VariableAt(src, i, p) { SimpleFound(src, i, p); }
    forall p | VariableAt(src, i, p) ensures ScanSimple(src, i) == Piece(p) { SimpleTaken(src, i, p); }
  }

  lemma SimpleFound(src: string, i: nat, p: Part)
    requires At(src, i, '$') && ScanSimple(src, i) == Piece(p)
    ensures VariableAt(src, i, p)
  {
    hide VariableAt, ScanDollarBrace, IdentEnd, Seek, IdentStart, IdentPart;
    if At(src, i + 1, '{') { BraceFound(src, i, p); } else { DollarFound(src, i, p); }
  }

  lemma BraceFound(src: string, i: nat, p: Part)
    requires At(src, i, '$') && At(src, i + 1, '{') && ScanDollarBrace(src, i) == Piece(p)
    ensures VariableAt(src, i, p)
  {
    hide IdentEnd, Seek, IdentStart, IdentPart, NameAt;
    NameThere(src, i + 2);
  }

  lemma DollarFound(src: string, i: nat, p: Part)
    requires At(src, i, '$') && !At(src, i + 1, '{') && ScanSimple(src, i) == Piece(p)
    ensures VariableAt(src, i, p)
  {
    hide IdentEnd, Seek, IdentStart, IdentPart, NameAt;
    NameThere(src, i + 1);
    var j := IdentEnd(src, i + 1);
    NameLonger(src, i + 1, j);
    if !At(src, j, '[') && At(src, j, '-') && At(src, j + 1, '>') && j + 2 < |src| && IdentStart(src[j + 2]) { NameThere(src, j + 2); }
  }

  lemma NameLonger(src: string, a: nat, b: nat)
    requires NameAt(src, a, b)
    ensures a < b <= |src|
  {
  }

  lemma SimpleTaken(src: string, i: nat, p: Part)
    requires At(src, i, '$') && VariableAt(src, i, p)
    ensures ScanSimple(src, i) == Piece(p)
  {
    hide IdentEnd, Seek, IdentStart, IdentPart;
    var start := if At(src, i + 1, '{') then i + 2 else i + 1;
    var j := start + |p.name|;
    OneName(src, start, j);
    if At(src, j, '[') {
      OneSeek(src, j, if At(src, i + 1, '{') then p.to - 2 else p.to - 1, ']');
    } else if !At(src, i + 1, '{') && At(src, j, '-') && At(src, j + 1, '>') && j + 2 < |src| && IdentStart(src[j + 2]) {
      OneName(src, j + 2, p.to);
    }
  }

  // ---- a whole literal ----

  /** A variable or an embedded expression starts at k, or what would have to be one. */
  predicate Opens(src: string, k: nat) {
    || (At(src, k, '$') && (At(src, k + 1, '{') || (k + 1 < |src| && IdentStart(src[k + 1]))))
    || (At(src, k, '{') && At(src, k + 1, '$'))
  }

  /** From i up to j stand escapes and bytes that open nothing and are no quote. */
  predicate TextRun(src: string, i: nat, j: nat)
    decreases j - i
  {
    i == j ||
    (i < j <= |src| &&
      if src[i] == '\\' && i + 1 < |src| then i + 1 + EscapeLen(src, i, '"') <= j && TextRun(src, i + 1 + EscapeLen(src, i, '"'), j)
      else src[i] != '"' && !Opens(src, i) && TextRun(src, i + 1, j))
  }

  lemma {:induction false} RunsOn(src: string, a: nat, b: nat, c: nat)
    requires a <= b <= c <= |src| && TextRun(src, a, b) && TextRun(src, b, c)
    ensures TextRun(src, a, c)
    decreases b - a
  {
    if a < b {
      if src[a] == '\\' && a + 1 < |src| { RunsOn(src, a + 1 + EscapeLen(src, a, '"'), b, c); } else { RunsOn(src, a + 1, b, c); }
    }
  }

  ghost predicate PartIs(src: string, p: Part) {
    p.from < p.to <= |src| &&
    match p
    case Text(from, to) => TextRun(src, from, to)
    case Simple(from, _, _, _, _) => VariableAt(src, from, p)
    case Curly(from, to) => At(src, from, '{') && At(src, from + 1, '$') && CurlyEnd(src, from, 0) == EndAt(to)
  }

  /** Pieces of which no two neighbours are both text. */
  ghost predicate PartsAre(src: string, ps: seq<Part>) {
    && (forall k :: 0 <= k < |ps| ==> PartIs(src, ps[k]))
    && (forall k :: 0 <= k < |ps| - 1 ==> !ps[k].Text? || !ps[k + 1].Text?)
  }

  lemma FlushedPart(src: string, start: nat, i: nat, p: Part, qs: seq<Part>)
    requires start <= i <= |src| && TextRun(src, start, i) && PartIs(src, p) && !p.Text? && PartsAre(src, qs)
    ensures PartsAre(src, Flush(start, i) + [p] + qs)
  {
    hide PartIs;
    var front := Flush(start, i);
    if front != [] { TextIs(src, start, i); }
    var ps := front + [p] + qs;
    forall k | 0 <= k < |ps| ensures PartIs(src, ps[k]) {
      if k > |front| { assert ps[k] == qs[k - |front| - 1]; }
    }
    forall k | 0 <= k < |ps| - 1 ensures !ps[k].Text? || !ps[k + 1].Text? {
      if k > |front| { assert ps[k] == qs[k - |front| - 1] && ps[k + 1] == qs[k - |front| - 1 + 1]; }
    }
  }

  lemma TextIs(src: string, start: nat, i: nat)
    requires start < i <= |src| && TextRun(src, start, i)
    ensures PartIs(src, Text(start, i))
  {
  }

  /** Every variable and every embedded expression of a literal is a piece of its own, and only the rest is text. */
  lemma {:induction false} PiecesAre(src: string, start: nat, i: nat)
    requires start <= i <= |src| && TextRun(src, start, i) && ScanInterp(src, start, i).Parts?
    ensures PartsAre(src, ScanInterp(src, start, i).parts)
    decreases |src| - i
  {
    hide EscapeLen, ScanSimple, CurlyEnd, TextRun, PartIs, Opens;
    if src[i] == '\\' && i + 1 < |src| {
      EscapeRuns(src, i);
      RunsOn(src, start, i, i + 1 + EscapeLen(src, i, '"'));
      PiecesAre(src, start, i + 1 + EscapeLen(src, i, '"'));
    } else if src[i] == '"' {
      if start < i { TextIs(src, start, i); }
    } else if src[i] == '$' && ScanSimple(src, i).Piece? {
      var p := ScanSimple(src, i).part;
      VariableIs(src, i, p);
      NoRun(src, p.to);
      PiecesAre(src, p.to, p.to);
      FlushedPart(src, start, i, p, ScanInterp(src, p.to, p.to).parts);
    } else if src[i] == '{' && At(src, i + 1, '$') {
      var next := CurlyEnd(src, i, 0).pos;
      CurlyIs(src, i, next);
      NoRun(src, next);
      PiecesAre(src, next, next);
      FlushedPart(src, start, i, Curly(i, next), ScanInterp(src, next, next).parts);
    } else {
      ByteRuns(src, i);
      RunsOn(src, start, i, i + 1);
      PiecesAre(src, start, i + 1);
    }
  }

  lemma NoRun(src: string, i: nat)
    ensures TextRun(src, i, i)
  {
  }

  lemma EscapeRuns(src: string, i: nat)
    requires i + 1 < |src| && src[i] == '\\'
    ensures TextRun(src, i, i + 1 + EscapeLen(src, i, '"'))
  {
    hide EscapeLen;
  }

  lemma ByteRuns(src: string, i: nat)
    requires i < |src| && src[i] != '"' && !(src[i] == '\\' && i + 1 < |src|)
    requires src[i] == '$' ==> ScanSimple(src, i) == NoPiece
    requires !(src[i] == '{' && At(src, i + 1, '$'))
    ensures TextRun(src, i, i + 1)
  {
    hide EscapeLen, ScanSimple;
    if src[i] == '$' { SimpleIs(src, i); }
    assert TextRun(src, i + 1, i + 1);
  }

  lemma VariableIs(src: string, i: nat, p: Part)
    requires At(src, i, '$') && ScanSimple(src, i) == Piece(p)
    ensures PartIs(src, p) && !p.Text?
  {
    hide VariableAt;
    SimpleIs(src, i);
  }

  lemma CurlyIs(src: string, i: nat, next: nat)
    requires At(src, i, '{') && At(src, i + 1, '$') && CurlyEnd(src, i, 0) == EndAt(next)
    ensures PartIs(src, Curly(i, next))
  {
    hide CurlyEnd;
  }
}
