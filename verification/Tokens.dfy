/** The tokens of a source that keep its text, and when their texts add up to it. */
module Tokens {
  import opened Literals

  // The kinds of tokens. Keywords are words, and every operator spelled with several bytes is one kind.
  datatype Id =
    | InlineHtml | OpenTag | CloseTag | Whitespace | Comment | Variable | Word | IntNumber | FloatNumber
    | Encapsed | Operator | EncapsedText | CurlyOpen | NumString

  // A token is a kind and its text, or a single character.
  datatype Token = Tok(id: Id, text: string) | Char(text: string)

  predicate PrefixAt(src: string, i: nat, p: string) {
    i + |p| <= |src| && src[i..i + |p|] == p
  }

  function Join(toks: seq<Token>): string {
    if toks == [] then "" else toks[0].text + Join(toks[1..])
  }

  lemma {:induction false} JoinCat(a: seq<Token>, b: seq<Token>)
    ensures Join(a + b) == Join(a) + Join(b)
    decreases |a|
  {
    if a == [] {
      assert [] + b == b;
    } else {
      assert (a + b)[1..] == a[1..] + b;
      JoinCat(a[1..], b);
    }
  }

  // ---- runs of bytes ----

  predicate Blank(c: char) {
    c == ' ' || c == '\t' || c == '\r' || c == '\n'
  }

  function BlankEnd(src: string, i: nat): (j: nat)
    requires i <= |src|
    ensures i <= j <= |src|
    decreases |src| - i
  {
    if i < |src| && Blank(src[i]) then BlankEnd(src, i + 1) else i
  }

  /** The first place of a two-byte mark, or the end of the source. */
  function MarkAt(src: string, i: nat, mark: string): (j: nat)
    requires i <= |src|
    ensures i <= j <= |src|
    ensures j < |src| ==> PrefixAt(src, j, mark)
    decreases |src| - i
  {
    if i == |src| || PrefixAt(src, i, mark) then i else MarkAt(src, i + 1, mark)
  }

  function LineEnd(src: string, i: nat): (j: nat)
    requires i <= |src|
    ensures i <= j <= |src|
    decreases |src| - i
  {
    if i == |src| || src[i] == '\n' || PrefixAt(src, i, "?>") then i else LineEnd(src, i + 1)
  }

  predicate BaseDigit(base: char, c: char) {
    if base == 'x' || base == 'X' then HexDigit(c)
    else if base == 'b' || base == 'B' then c == '0' || c == '1'
    else (base == 'o' || base == 'O') && OctDigit(c)
  }

  function BaseEnd(src: string, i: nat, base: char): (j: nat)
    requires i <= |src|
    ensures i <= j <= |src|
    decreases |src| - i
  {
    if i < |src| && (BaseDigit(base, src[i]) || src[i] == '_') then BaseEnd(src, i + 1, base) else i
  }

  function DigitEnd(src: string, i: nat): (j: nat)
    requires i <= |src|
    ensures i <= j <= |src|
    decreases |src| - i
  {
    if i < |src| && (Digit(src[i]) || src[i] == '_') then DigitEnd(src, i + 1) else i
  }

  predicate Prefixed(c: char) {
    c in {'x', 'X', 'b', 'B', 'o', 'O'}
  }

  /** Where a number ends, and whether it is a float. */
  function NumberEnd(src: string, i: nat): (r: (nat, bool))
    requires i < |src| && Digit(src[i])
    ensures i < r.0 <= |src|
  {
    if src[i] == '0' && i + 1 < |src| && Prefixed(src[i + 1]) && BaseEnd(src, i + 2, src[i + 1]) > i + 2 then
      (BaseEnd(src, i + 2, src[i + 1]), false)
    else
      var p := DigitEnd(src, i + 1);
      var dot := At(src, p, '.');
      var q := if dot then DigitEnd(src, p + 1) else p;
      if At(src, q, 'e') || At(src, q, 'E') then
        var e := if At(src, q + 1, '+') || At(src, q + 1, '-') then q + 2 else q + 1;
        if e < |src| && Digit(src[e]) then (DigitEnd(src, e), true) else (q, dot)
      else (q, dot)
  }

  const MULTI: seq<string> := ["===", "!==", "**=", "<<=", ">>=", "**", "<<", ">>", "&=", "|=", "^=", "==", "!=", "<=", ">=",
    "&&", "||", "->", "=>", "::", "++", "--", "+=", "-=", "*=", "/=", "%=", ".="]

  /** The first operator of the table that stands at i, or none. */
  function MultiAt(src: string, i: nat, ops: seq<string>): (op: string)
    ensures op != "" ==> PrefixAt(src, i, op)
  {
    if ops == [] then "" else if PrefixAt(src, i, ops[0]) then ops[0] else MultiAt(src, i, ops[1..])
  }

  /** A byte from 0x80 on is written as the two bytes of its code point. */
  function Encoded(c: char): (s: string)
    ensures |s| == if c as int < 0x80 then 1 else 2
    ensures c as int < 0x80 ==> s == [c]
  {
    if c as int < 0x80 then [c] else [(0xC0 + c as int / 0x40) as char, (0x80 + c as int % 0x40) as char]
  }

  // ---- one step of the tokenizer ----

  // The tokens of a step, the offset behind it and whether PHP mode goes on there.
  datatype Step = Step(toks: seq<Token>, next: nat, php: bool)

  function HtmlStep(src: string, i: nat): (s: Step)
    requires i < |src|
    ensures i < s.next <= |src|
  {
    var h := MarkAt(src, i, "<?");
    var html := if h > i then [Tok(InlineHtml, src[i..h])] else [];
    if h == |src| then Step(html, h, false)
    else if !PrefixAt(src, h, "<?php") then Step(html + [Tok(OpenTag, "<?")], h + 2, true)
    else if h + 5 < |src| && Blank(src[h + 5]) then Step(html + [Tok(OpenTag, "<?php" + [src[h + 5]])], h + 6, true)
    else Step(html + [Tok(OpenTag, "<?php")], h + 5, true)
  }

  function Run(id: Id, src: string, i: nat, j: nat): Step
    requires i <= j <= |src|
  {
    Step([Tok(id, src[i..j])], j, true)
  }

  /** A step in PHP mode at anything but a string literal. */
  function PhpStep(src: string, i: nat): (s: Step)
    requires i < |src| && !Quote(src[i])
    ensures i < s.next <= |src|
  {
    var c := src[i];
    if PrefixAt(src, i, "?>") then
      if At(src, i + 2, '\n') then Step([Tok(CloseTag, "?>\n")], i + 3, false) else Step([Tok(CloseTag, "?>")], i + 2, false)
    else if Blank(c) then Run(Whitespace, src, i, BlankEnd(src, i + 1))
    else if PrefixAt(src, i, "//") || c == '#' then Run(Comment, src, i, LineEnd(src, i + 1))
    else if PrefixAt(src, i, "/*") then
      var j := MarkAt(src, i + 2, "*/");
      Run(Comment, src, i, if j + 2 <= |src| then j + 2 else |src|)
    else if c == '$' then Run(Variable, src, i, IdentEnd(src, i + 1))
    else if IdentStart(c) then Run(Word, src, i, IdentEnd(src, i + 1))
    else if Digit(c) then Run(if NumberEnd(src, i).1 then FloatNumber else IntNumber, src, i, NumberEnd(src, i).0)
    else
      var op := MultiAt(src, i, MULTI);
      if op != "" then Step([Tok(Operator, op)], i + |op|, true) else Step([Char(Encoded(c))], i + 1, true)
  }

  /** The token of a simple subscript, two for a negative number. */
  function Subscript(sub: string): (ts: seq<Token>)
    ensures sub != "" ==> Join(ts) == sub
    ensures sub == "" ==> ts == []
  {
    if sub == "" then []
    else if sub[0] == '$' then (assert Join([Tok(Variable, sub)]) == sub + Join([]); [Tok(Variable, sub)])
    else if sub[0] == '-' then
      (JoinCat([Char("-")], [Tok(NumString, sub[1..])]);
       assert Join([Char("-")]) == "-" + Join([]) && Join([Tok(NumString, sub[1..])]) == sub[1..] + Join([]);
       [Char("-"), Tok(NumString, sub[1..])])
    else if Digit(sub[0]) then (assert Join([Tok(NumString, sub)]) == sub + Join([]); [Tok(NumString, sub)])
    else (assert Join([Tok(Word, sub)]) == sub + Join([]); [Tok(Word, sub)])
  }

  /** The expression between the braces of a piece. */
  function Inner(src: string, p: Part): (s: string)
    requires p.from < p.to <= |src|
    ensures |s| < |src|
  {
    if p.from + 1 < p.to then src[p.from + 1..p.to - 1] else ""
  }

  predicate Fits(src: string, ps: seq<Part>) {
    forall k :: 0 <= k < |ps| ==> ps[k].from < ps[k].to <= |src|
  }

  function PartToks(src: string, p: Part): seq<Token>
    requires p.from < p.to <= |src|
    decreases |src|, 0, 0
  {
    match p
    case Text(from, to) => [Tok(EncapsedText, src[from..to])]
    case Simple(_, _, name, sub, prop) =>
      [Tok(Variable, "$" + name)] +
      if prop != "" then [Tok(Operator, "->"), Tok(Word, prop)]
      else if sub != "" then [Char("[")] + Subscript(sub) + [Char("]")]
      else []
    case Curly(_, _) => [Tok(CurlyOpen, "{")] + Toks(Inner(src, p), 0, true) + [Char("}")]
  }

  function PartsToks(src: string, ps: seq<Part>): seq<Token>
    requires Fits(src, ps)
    decreases |src|, 0, |ps| + 1
  {
    if ps == [] then [] else PartToks(src, ps[0]) + PartsToks(src, ps[1..])
  }

  lemma {:induction false} TilesFit(src: string, ps: seq<Part>, from: nat, to: nat)
    requires Tiles(ps, from, to) && to <= |src|
    ensures from <= to && Fits(src, ps)
    decreases |ps|
  {
    if ps != [] {
      TilesFit(src, ps[1..], ps[0].to, to);
      forall k | 0 <= k < |ps| ensures ps[k].from < ps[k].to <= |src| {
        if k > 0 { assert ps[k] == ps[1..][k - 1]; }
      }
    }
  }

  /** One token for a literal that embeds nothing, and the tokens of its pieces between two quotes. */
  function StringStep(src: string, i: nat): (s: Step)
    requires i < |src| && Quote(src[i])
    ensures i < s.next <= |src|
    decreases |src|, 1, 0
  {
    StringEndBound(src, i);
    var ps, end := StringParts(src, i), StringEnd(src, i);
    if ps == [] then Run(Encapsed, src, i, end) else
    TilesFit(src, ps, i + 1, end - 1);
    Step([Char("\"")] + PartsToks(src, ps) + [Char("\"")], end, true)
  }

  function StepAt(src: string, i: nat, php: bool): (s: Step)
    requires i < |src|
    ensures i < s.next <= |src|
    decreases |src|, 1, 1
  {
    if !php then HtmlStep(src, i) else if Quote(src[i]) then StringStep(src, i) else PhpStep(src, i)
  }

  /** All tokens from i on. */
  function Toks(src: string, i: nat, php: bool): seq<Token>
    requires i <= |src|
    decreases |src|, 2, |src| - i
  {
    if i == |src| then [] else
    var s := StepAt(src, i, php);
    s.toks + Toks(src, s.next, s.php)
  }

  // ---- what is not kept ----

  /** A variable in a literal is spelled `$name`, `$name[sub]` or `$name->prop`, not `${name}` or `$name[]`. */
  predicate Spelled(src: string, p: Part)
    requires p.Simple?
  {
    !At(src, p.from + 1, '{') && !(p.sub == "" && At(src, p.from + 1 + |p.name|, '['))
  }

  predicate KeepsPart(src: string, p: Part)
    requires p.from < p.to <= |src|
    decreases |src|, 0, 0
  {
    match p
    case Text(_, _) => true
    case Simple(_, _, _, _, _) => Spelled(src, p)
    case Curly(_, _) => Keeps(Inner(src, p), 0, true)
  }

  predicate KeepsParts(src: string, ps: seq<Part>)
    requires Fits(src, ps)
    decreases |src|, 0, |ps| + 1
  {
    ps == [] || (KeepsPart(src, ps[0]) && KeepsParts(src, ps[1..]))
  }

  predicate KeepsString(src: string, i: nat)
    requires i < |src| && Quote(src[i])
    decreases |src|, 1, 0
  {
    StringEndBound(src, i);
    var ps := StringParts(src, i);
    ps == [] || (TilesFit(src, ps, i + 1, StringEnd(src, i) - 1); KeepsParts(src, ps))
  }

  /** A step that is not a string literal keeps its bytes, up to one it does not know. */
  predicate KeepsByte(src: string, i: nat)
    requires i < |src| && !Quote(src[i])
  {
    var s := PhpStep(src, i);
    s.toks[0].Char? ==> src[i] as int < 0x80
  }

  predicate KeepsStep(src: string, i: nat, php: bool)
    requires i < |src|
    decreases |src|, 1, 1
  {
    !php || if Quote(src[i]) then KeepsString(src, i) else KeepsByte(src, i)
  }

  /** From i on, the tokens keep every byte of the source. */
  predicate Keeps(src: string, i: nat, php: bool)
    requires i <= |src|
    decreases |src|, 2, |src| - i
  {
    i == |src| || (KeepsStep(src, i, php) && Keeps(src, StepAt(src, i, php).next, StepAt(src, i, php).php))
  }
}
