/**
 Where string literals end and what the pieces of one are, as functions of the source and an
 offset. A source is a sequence of bytes.
 */
module Literals {

  predicate Digit(c: char) {
    '0' <= c <= '9'
  }

  predicate HexDigit(c: char) {
    Digit(c) || 'a' <= c <= 'f' || 'A' <= c <= 'F'
  }

  predicate OctDigit(c: char) {
    '0' <= c <= '7'
  }

  /** The letters among the first 256 code points, which is how a byte is looked at. */
  predicate Letter(c: char) {
    || 'a' <= c <= 'z' || 'A' <= c <= 'Z'
    || c as int in {0xAA, 0xB5, 0xBA} || 0xC0 <= c as int <= 0xD6 || 0xD8 <= c as int <= 0xF6 || 0xF8 <= c as int <= 0xFF
  }

  predicate IdentStart(c: char) {
    c == '_' || Letter(c)
  }

  predicate IdentPart(c: char) {
    c == '_' || Letter(c) || Digit(c)
  }

  predicate At(src: string, i: nat, c: char) {
    i < |src| && src[i] == c
  }

  function IdentEnd(src: string, i: nat): (j: nat)
    requires i <= |src|
    ensures i <= j <= |src|
    ensures forall k :: i <= k < j ==> IdentPart(src[k])
    decreases |src| - i
  {
    if i < |src| && IdentPart(src[i]) then IdentEnd(src, i + 1) else i
  }

  /** The first place of c from i on, or the end of the source. */
  function Seek(src: string, i: nat, c: char): (j: nat)
    requires i <= |src|
    ensures i <= j <= |src|
    ensures j < |src| ==> src[j] == c
    ensures forall k :: i <= k < j ==> src[k] != c
    decreases |src| - i
  {
    if i == |src| || src[i] == c then i else Seek(src, i + 1, c)
  }

  // ---- escapes ----

  /** How many hex digits stand from i on, at most limit of them. */
  function HexRun(src: string, i: nat, limit: int): (n: nat)
    requires i <= |src|
    ensures i + n <= |src| && (limit >= 0 ==> n <= limit)
    ensures forall k :: i <= k < i + n ==> HexDigit(src[k])
    decreases |src| - i
  {
    if i < |src| && 0 < limit && HexDigit(src[i]) then 1 + HexRun(src, i + 1, limit - 1) else 0
  }

  function OctalRun(src: string, i: nat, limit: nat): (n: nat)
    requires i <= |src|
    ensures i + n <= |src| && n <= limit
    ensures forall k :: i <= k < i + n ==> OctDigit(src[k])
    decreases |src| - i
  {
    if i < |src| && 0 < limit && OctDigit(src[i]) then 1 + OctalRun(src, i + 1, limit - 1) else 0
  }

  function HexValue(c: char): nat
    requires HexDigit(c)
  {
    if Digit(c) then (c - '0') as nat else if 'a' <= c then (c - 'a') as nat + 10 else (c - 'A') as nat + 10
  }

  /** The number the hex digits from i up to j spell. */
  function HexNumber(src: string, i: nat, j: nat): nat
    requires i <= j <= |src| && forall k :: i <= k < j ==> HexDigit(src[k])
  {
    if i == j then 0 else 16 * HexNumber(src, i, j - 1) + HexValue(src[j - 1])
  }

  /** How many bytes belong to the escape sequence behind the backslash at i. */
  function EscapeLen(src: string, i: nat, quote: char): (n: nat)
    requires i + 1 < |src|
    ensures 1 <= n && i + 1 + n <= |src|
  {
    var next := src[i + 1];
    if quote == '\'' then 1
    else if next == 'x' || next == 'X' then 1 + HexRun(src, i + 2, 2)
    else if next == 'u' && At(src, i + 2, '{') then
      var close := Seek(src, i + 3, '}');
      var digits := close - (i + 3);
      if close == |src| || digits == 0 || HexRun(src, i + 3, digits) != digits then 1
      else if HexNumber(src, i + 3, close) >= 0x1_0000_0000 then 1
      else 3 + digits
    else if OctDigit(next) then OctalRun(src, i + 1, 3)
    else 1
  }

  // ---- where a literal closes ----

  // An offset behind a closing quote, or none for a literal that nothing closes.
  datatype End = EndAt(pos: nat) | Unclosed

  /** Reads `\` and the byte behind it as two bytes. */
  function SkipEnd(src: string, i: nat, quote: char): (e: End)
    requires i <= |src|
    ensures e.EndAt? ==> i < e.pos <= |src| && src[e.pos - 1] == quote
    decreases |src| - i
  {
    if i == |src| then Unclosed
    else if src[i] == '\\' && i + 1 < |src| then SkipEnd(src, i + 2, quote)
    else if src[i] == quote then EndAt(i + 1)
    else SkipEnd(src, i + 1, quote)
  }

  /** Reads every escape sequence as a whole. */
  function DecodeEnd(src: string, i: nat, quote: char): (e: End)
    requires i <= |src|
    ensures e.EndAt? ==> i < e.pos <= |src| && src[e.pos - 1] == quote
    decreases |src| - i
  {
    if i == |src| then Unclosed
    else if src[i] == '\\' && i + 1 < |src| then DecodeEnd(src, i + 1 + EscapeLen(src, i, quote), quote)
    else if src[i] == quote then EndAt(i + 1)
    else DecodeEnd(src, i + 1, quote)
  }

  /** Finds the quote of a literal without escapes and, between double quotes, without a dollar. */
  function FastEnd(src: string, i: nat, quote: char): (e: End)
    requires i <= |src|
    ensures e.EndAt? ==> i < e.pos <= |src| && src[e.pos - 1] == quote
    decreases |src| - i
  {
    if i == |src| || src[i] == '\\' || (src[i] == '$' && quote == '"') then Unclosed
    else if src[i] == quote then EndAt(i + 1)
    else FastEnd(src, i + 1, quote)
  }

  predicate Quote(c: char) {
    c == '"' || c == '\''
  }

  /** What an escape sequence holds behind its second byte is neither a quote nor a backslash. */
  lemma EscapeHidesNothing(src: string, i: nat, quote: char)
    requires i + 1 < |src|
    ensures forall k :: i + 2 <= k < i + 1 + EscapeLen(src, i, quote) ==> !Quote(src[k]) && src[k] != '\\'
  {
  }

  lemma {:induction false} PlainSkip(src: string, i: nat, j: nat, quote: char)
    requires i <= j <= |src| && Quote(quote) && forall k :: i <= k < j ==> !Quote(src[k]) && src[k] != '\\'
    ensures SkipEnd(src, i, quote) == SkipEnd(src, j, quote)
    decreases j - i
  {
    if i < j { PlainSkip(src, i + 1, j, quote); }
  }

  /** Decoding the escapes and skipping two bytes at each come to the same quote. */
  lemma {:induction false} DecodeIsSkip(src: string, i: nat, quote: char)
    requires i <= |src| && Quote(quote)
    ensures DecodeEnd(src, i, quote) == SkipEnd(src, i, quote)
    decreases |src| - i
  {
    hide EscapeLen;
    if i < |src| {
      if src[i] == '\\' && i + 1 < |src| {
        var n := EscapeLen(src, i, quote);
        EscapeHidesNothing(src, i, quote);
        PlainSkip(src, i + 2, i + 1 + n, quote);
        DecodeIsSkip(src, i + 1 + n, quote);
      } else if src[i] != quote {
        DecodeIsSkip(src, i + 1, quote);
      }
    }
  }

  lemma {:induction false} FastIsSkip(src: string, i: nat, quote: char)
    requires i <= |src| && FastEnd(src, i, quote).EndAt?
    ensures SkipEnd(src, i, quote) == FastEnd(src, i, quote)
    decreases |src| - i
  {
    if src[i] != quote { FastIsSkip(src, i + 1, quote); }
  }

  // ---- the pieces of a double-quoted literal ----

  // A piece stands from from up to to. The name, subscript and property of a variable are kept.
  datatype Part =
    | Text(from: nat, to: nat)
    | Simple(from: nat, to: nat, name: string, sub: string, prop: string)
    | Curly(from: nat, to: nat)

  datatype Piece = Piece(part: Part) | NoPiece | BadPiece

  /** `$name`, `$name[sub]`, `$name->prop` or `${name}` at a dollar. */
  function ScanSimple(src: string, i: nat): (p: Piece)
    requires At(src, i, '$')
    ensures p.Piece? ==> p.part.Simple? && p.part.from == i && i + 1 < p.part.to <= |src|
  {
    if i + 1 >= |src| then NoPiece
    else if src[i + 1] == '{' then ScanDollarBrace(src, i)
    else if !IdentStart(src[i + 1]) then NoPiece
    else
      var j := IdentEnd(src, i + 1);
      var name := src[i + 1..j];
      if At(src, j, '[') then
        var k := Seek(src, j, ']');
        if k == |src| then BadPiece else Piece(Simple(i, k + 1, name, src[j + 1..k], ""))
      else if At(src, j, '-') && At(src, j + 1, '>') && j + 2 < |src| && IdentStart(src[j + 2]) then
        var k := IdentEnd(src, j + 2);
        Piece(Simple(i, k, name, "", src[j + 2..k]))
      else (assert IdentPart(src[i + 1]); Piece(Simple(i, j, name, "", "")))
  }

  /** `${name}` or `${name[sub]}`. */
  function ScanDollarBrace(src: string, i: nat): (p: Piece)
    requires At(src, i, '$') && At(src, i + 1, '{')
    ensures p.Piece? ==> p.part.Simple? && p.part.from == i && i + 2 < p.part.to <= |src|
  {
    var start := i + 2;
    if start >= |src| || !IdentStart(src[start]) then BadPiece else
    var j := IdentEnd(src, start);
    var name := src[start..j];
    if At(src, j, '[') then
      var k := Seek(src, j, ']');
      if k == |src| || !At(src, k + 1, '}') then BadPiece else Piece(Simple(i, k + 2, name, src[j + 1..k], ""))
    else if At(src, j, '}') then Piece(Simple(i, j + 1, name, "", ""))
    else BadPiece
  }

  /** The offset behind the brace that closes the one at i, past the literals in between. */
  function CurlyEnd(src: string, j: nat, depth: int): (e: End)
    requires j <= |src|
    ensures e.EndAt? ==> j < e.pos <= |src| && src[e.pos - 1] == '}'
    decreases |src| - j
  {
    if j == |src| then Unclosed
    else if Quote(src[j]) then
      match SkipEnd(src, j + 1, src[j])
      case Unclosed => Unclosed
      case EndAt(k) => CurlyEnd(src, k, depth)
    else if src[j] == '{' then CurlyEnd(src, j + 1, depth + 1)
    else if src[j] == '}' && depth == 1 then EndAt(j + 1)
    else if src[j] == '}' then CurlyEnd(src, j + 1, depth - 1)
    else CurlyEnd(src, j + 1, depth)
  }

  // The pieces of a literal and the offset behind its closing quote.
  datatype Scan = Parts(parts: seq<Part>, end: nat) | BadScan

  function Flush(from: nat, to: nat): seq<Part> {
    if from < to then [Text(from, to)] else []
  }

  function Before(ps: seq<Part>, rest: Scan): Scan {
    match rest
    case Parts(qs, end) => Parts(ps + qs, end)
    case BadScan => BadScan
  }

  /** The scan from i on, in a text run that started at start. */
  function ScanInterp(src: string, start: nat, i: nat): (r: Scan)
    requires start <= i <= |src|
    ensures r.Parts? ==> i < r.end <= |src|
    decreases |src| - i
  {
    if i == |src| then BadScan
    else if src[i] == '\\' && i + 1 < |src| then ScanInterp(src, start, i + 1 + EscapeLen(src, i, '"'))
    else if src[i] == '"' then Parts(Flush(start, i), i + 1)
    else if src[i] == '$' then
      match ScanSimple(src, i)
      case BadPiece => BadScan
      case NoPiece => ScanInterp(src, start, i + 1)
      case Piece(p) => Before(Flush(start, i) + [p], ScanInterp(src, p.to, p.to))
    else if src[i] == '{' && At(src, i + 1, '$') then
      match CurlyEnd(src, i, 0)
      case Unclosed => BadScan
      case EndAt(next) => Before(Flush(start, i) + [Curly(i, next)], ScanInterp(src, next, next))
    else ScanInterp(src, start, i + 1)
  }

  /** Some piece is an embedded expression. */
  predicate Embeds(ps: seq<Part>) {
    exists k :: 0 <= k < |ps| && !ps[k].Text?
  }

  /** The pieces stand one behind the other from from up to to, none of them empty. */
  predicate Tiles(ps: seq<Part>, from: nat, to: nat)
    decreases |ps|
  {
    if ps == [] then from == to
    else ps[0].from == from && from < ps[0].to && Tiles(ps[1..], ps[0].to, to)
  }

  lemma {:induction false} TilesJoin(ps: seq<Part>, qs: seq<Part>, from: nat, mid: nat, to: nat)
    requires Tiles(ps, from, mid) && Tiles(qs, mid, to)
    ensures Tiles(ps + qs, from, to)
    decreases |ps|
  {
    if ps == [] {
      assert [] + qs == qs;
    } else {
      assert (ps + qs)[1..] == ps[1..] + qs;
      TilesJoin(ps[1..], qs, ps[0].to, mid, to);
    }
  }

  lemma TileAlone(p: Part)
    requires p.from < p.to
    ensures Tiles([p], p.from, p.to)
  {
    assert [p][1..] == [];
  }

  lemma FlushTiles(from: nat, to: nat)
    requires from <= to
    ensures Tiles(Flush(from, to), from, to)
  {
    if from < to { TileAlone(Text(from, to)); }
  }

  /** A text run, a piece behind it and the pieces that follow. */
  lemma PieceTiles(from: nat, p: Part, qs: seq<Part>, to: nat)
    requires from <= p.from < p.to && Tiles(qs, p.to, to)
    ensures Tiles(Flush(from, p.from) + [p] + qs, from, to)
  {
    hide Tiles, Flush;
    TileAlone(p);
    FlushTiles(from, p.from);
    TilesJoin([p], qs, p.from, p.to, to);
    TilesJoin(Flush(from, p.from), [p] + qs, from, p.from, to);
    assert Flush(from, p.from) + ([p] + qs) == Flush(from, p.from) + [p] + qs;
  }

  /** The pieces of a literal cover its body, from the opening quote to the closing one. */
  lemma {:induction false} PartsTile(src: string, start: nat, i: nat)
    requires start <= i <= |src| && ScanInterp(src, start, i).Parts?
    ensures
      var r := ScanInterp(src, start, i);
      src[r.end - 1] == '"' && Tiles(r.parts, start, r.end - 1)
    decreases |src| - i
  {
    hide EscapeLen, ScanSimple, CurlyEnd;
    if src[i] == '\\' && i + 1 < |src| {
      PartsTile(src, start, i + 1 + EscapeLen(src, i, '"'));
    } else if src[i] == '"' {
      FlushTiles(start, i);
    } else if src[i] == '$' && ScanSimple(src, i).Piece? {
      var p := ScanSimple(src, i).part;
      PartsTile(src, p.to, p.to);
      PieceTiles(start, p, ScanInterp(src, p.to, p.to).parts, ScanInterp(src, start, i).end - 1);
    } else if src[i] == '{' && At(src, i + 1, '$') {
      var p := Curly(i, CurlyEnd(src, i, 0).pos);
      PartsTile(src, p.to, p.to);
      PieceTiles(start, p, ScanInterp(src, p.to, p.to).parts, ScanInterp(src, start, i).end - 1);
    } else {
      PartsTile(src, start, i + 1);
    }
  }

  lemma PieceEmbeds(ps: seq<Part>, p: Part, qs: seq<Part>)
    requires !p.Text?
    ensures Embeds(ps + [p] + qs)
  {
    assert (ps + [p] + qs)[|ps|] == p;
  }

  /** A literal that embeds nothing closes where decoding its escapes says. */
  lemma {:induction false} NothingEmbedded(src: string, start: nat, i: nat)
    requires start <= i <= |src| && ScanInterp(src, start, i).Parts? && !Embeds(ScanInterp(src, start, i).parts)
    ensures DecodeEnd(src, i, '"') == EndAt(ScanInterp(src, start, i).end)
    decreases |src| - i
  {
    hide EscapeLen, ScanSimple, CurlyEnd;
    if src[i] == '\\' && i + 1 < |src| {
      NothingEmbedded(src, start, i + 1 + EscapeLen(src, i, '"'));
    } else if src[i] == '"' {
    } else if src[i] == '$' && ScanSimple(src, i).Piece? {
      var p := ScanSimple(src, i).part;
      PieceEmbeds(Flush(start, i), p, ScanInterp(src, p.to, p.to).parts);
    } else if src[i] == '{' && At(src, i + 1, '$') {
      var next := CurlyEnd(src, i, 0).pos;
      PieceEmbeds(Flush(start, i), Curly(i, next), ScanInterp(src, next, next).parts);
    } else {
      NothingEmbedded(src, start, i + 1);
    }
  }

  // ---- the lexer and the tokenizer ----

  // A literal token of the lexer with the offset behind it.
  datatype Lexed = Plain(end: nat) | Interpolated(end: nat) | Rejected

  /** The literal whose quote stands at i, by the three paths of the lexer. */
  function LexString(src: string, i: nat): (l: Lexed)
    requires i < |src|
    ensures !l.Rejected? ==> i + 1 < l.end <= |src|
  {
    var quote := src[i];
    var scan := ScanInterp(src, i + 1, i + 1);
    if FastEnd(src, i + 1, quote).EndAt? then Plain(FastEnd(src, i + 1, quote).pos)
    else if quote == '"' && scan.BadScan? then Rejected
    else if quote == '"' && Embeds(scan.parts) then Interpolated(scan.end)
    else
      match DecodeEnd(src, i + 1, quote)
      case EndAt(end) => Plain(end)
      case Unclosed => Rejected
  }

  /** How far the bytes of the pieces reach. */
  function RawLen(ps: seq<Part>): int {
    if ps == [] then 0 else ps[0].to - ps[0].from + RawLen(ps[1..])
  }

  /** The literal whose quote stands at i as the tokenizer reads it: its pieces, or one run up to its end. */
  function StringParts(src: string, i: nat): (ps: seq<Part>)
    requires i < |src|
  {
    var scan := ScanInterp(src, i + 1, i + 1);
    if src[i] == '"' && scan.Parts? && Embeds(scan.parts) then scan.parts else []
  }

  function StringEnd(src: string, i: nat): (end: int)
    requires i < |src|
  {
    if StringParts(src, i) != [] then i + 1 + RawLen(StringParts(src, i)) + 1
    else
      match SkipEnd(src, i + 1, src[i])
      case EndAt(end) => end
      case Unclosed => |src|
  }

  lemma {:induction false} RawLenTiles(ps: seq<Part>, from: nat, to: nat)
    requires Tiles(ps, from, to)
    ensures RawLen(ps) == to - from
    decreases |ps|
  {
    if ps != [] { RawLenTiles(ps[1..], ps[0].to, to); }
  }

  lemma StringEndBound(src: string, i: nat)
    requires i < |src| && Quote(src[i])
    ensures i < StringEnd(src, i) <= |src|
    ensures StringParts(src, i) != [] ==>
      StringEnd(src, i) == ScanInterp(src, i + 1, i + 1).end && Tiles(StringParts(src, i), i + 1, StringEnd(src, i) - 1)
      && src[i] == '"' && i + 1 < StringEnd(src, i) && src[StringEnd(src, i) - 1] == '"'
  {
    if StringParts(src, i) != [] {
      PartsTile(src, i + 1, i + 1);
      RawLenTiles(StringParts(src, i), i + 1, ScanInterp(src, i + 1, i + 1).end - 1);
    }
  }

  /** Every literal the lexer accepts ends where the tokenizer ends it, and both agree whether it embeds anything. */
  lemma ScannersAgree(src: string, i: nat)
    requires i < |src| && Quote(src[i]) && !LexString(src, i).Rejected?
    ensures StringEnd(src, i) == LexString(src, i).end
    ensures LexString(src, i).Interpolated? <==> StringParts(src, i) != []
  {
    var quote := src[i];
    StringEndBound(src, i);
    DecodeIsSkip(src, i + 1, quote);
    if FastEnd(src, i + 1, quote).EndAt? {
      FastIsSkip(src, i + 1, quote);
      if quote == '"' { FastEmbedsNothing(src, i + 1, i + 1); }
    }
  }

  lemma {:induction false} FastEmbedsNothing(src: string, start: nat, i: nat)
    requires start <= i <= |src| && FastEnd(src, i, '"').EndAt?
    ensures ScanInterp(src, start, i) == Parts(Flush(start, FastEnd(src, i, '"').pos - 1), FastEnd(src, i, '"').pos)
    decreases |src| - i
  {
    if src[i] != '"' { FastEmbedsNothing(src, start, i + 1); }
  }

  /** The lexer rejects a literal exactly where nothing closes it, or an embedded expression is malformed. */
  lemma RejectedWhen(src: string, i: nat)
    requires i < |src| && Quote(src[i])
    ensures LexString(src, i).Rejected? <==>
      if src[i] == '"' && FastEnd(src, i + 1, '"').Unclosed? then ScanInterp(src, i + 1, i + 1).BadScan?
      else SkipEnd(src, i + 1, src[i]).Unclosed?
  {
    DecodeIsSkip(src, i + 1, src[i]);
    if FastEnd(src, i + 1, src[i]).EndAt? { FastIsSkip(src, i + 1, src[i]); }
    if src[i] == '"' && ScanInterp(src, i + 1, i + 1).Parts? && !Embeds(ScanInterp(src, i + 1, i + 1).parts) {
      NothingEmbedded(src, i + 1, i + 1);
    }
  }
}
