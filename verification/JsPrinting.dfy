/** Source code as it is written, and what the scanner reads of it: literals with escapes, template holes with nested
    braces and quotes, regular expressions with classes. */
module JsPrinting {
  import opened Text
  import opened JsTokens
  import opened Wrappers

  /** A character between delimiters, as it is or behind a backslash. */
  datatype Piece = Plain(c: char) | Escaped(c: char)

  /** What stands between the braces of a template hole. */
  datatype Part = Raw(c: char) | Braced(parts: seq<Part>) | Quoted(quote: char, pieces: seq<Piece>)

  /** What stands between the backticks of a template. */
  datatype TemplatePart = Chars(pieces: seq<Piece>) | Hole(parts: seq<Part>)

  /** What stands between the slashes of a regular expression; a class stands in square brackets. */
  datatype RegexPart = One(piece: Piece) | Class(pieces: seq<Piece>)

  /** A token as it is written. */
  datatype Written =
    | Literal(quote: char, pieces: seq<Piece>)
    | Template(template: seq<TemplatePart>)
    | Slashed(regex: seq<RegexPart>, flags: string)
    | Name(text: string)
    | Number(text: string)
    | Mark(text: string)
    | OptionalDot

  // ----- how it is written ----------------------------------------------------------------------

  function PieceText(p: Piece): (s: string) { if p.Plain? then [p.c] else "\\" + [p.c] }

  function PiecesText(pieces: seq<Piece>): (s: string)
  {
    if pieces == [] then "" else PieceText(pieces[0]) + PiecesText(pieces[1..])
  }

  /** None of `delimiters` stands alone. */
  predicate ArePieces(pieces: seq<Piece>, delimiters: string)
  {
    forall p :: p in pieces && p.Plain? ==> p.c != '\\' && p.c !in delimiters
  }

  function PartText(p: Part): (s: string)
  {
    match p
    case Raw(c) => [c]
    case Braced(parts) => "{" + PartsText(parts) + "}"
    case Quoted(quote, pieces) => [quote] + PiecesText(pieces) + [quote]
  }

  function PartsText(parts: seq<Part>): (s: string)
  {
    if parts == [] then "" else PartText(parts[0]) + PartsText(parts[1..])
  }

  predicate IsPart(p: Part)
  {
    match p
    case Raw(c) => c !in "{}\"'`"
    case Braced(parts) => AreParts(parts)
    case Quoted(quote, pieces) => quote in "\"'`" && ArePieces(pieces, [quote])
  }

  predicate AreParts(parts: seq<Part>) { forall p :: p in parts ==> IsPart(p) }

  function RegexPartText(p: RegexPart): (s: string)
  {
    match p
    case One(piece) => PieceText(piece)
    case Class(pieces) => "[" + PiecesText(pieces) + "]"
  }

  function RegexText(parts: seq<RegexPart>): (s: string)
  {
    if parts == [] then "" else RegexPartText(parts[0]) + RegexText(parts[1..])
  }

  predicate IsRegexPart(p: RegexPart)
  {
    match p
    case One(piece) => ArePieces([piece], "/[\n")
    case Class(pieces) => ArePieces(pieces, "]\n")
  }

  predicate AreRegexParts(parts: seq<RegexPart>) { forall p :: p in parts ==> IsRegexPart(p) }

  /** What stands for a character behind a backslash; any other character for itself. */
  const ESCAPES: map<char, char> :=
    map['n' := '\n', 'r' := '\r', 't' := '\t', 'b' := '\U{0008}', 'f' := '\U{000C}', 'v' := '\U{000B}', '0' := '\0']

  function PieceValue(p: Piece): (c: char) { if p.Escaped? && p.c in ESCAPES then ESCAPES[p.c] else p.c }

  /** The text that is written. */
  function TextOf(pieces: seq<Piece>): (text: string)
  {
    if pieces == [] then "" else [PieceValue(pieces[0])] + TextOf(pieces[1..])
  }

  function TemplateText(parts: seq<TemplatePart>): (s: string)
  {
    if parts == [] then ""
    else
      (match parts[0]
       case Chars(pieces) => PiecesText(pieces)
       case Hole(inner) => "${" + (PartsText(inner) + "}"))
      + TemplateText(parts[1..])
  }

  predicate AreTemplateParts(parts: seq<TemplatePart>)
  {
    forall p :: p in parts ==> if p.Hole? then AreParts(p.parts) else ArePieces(p.pieces, "`$")
  }

  function WrittenText(w: Written): (s: string)
  {
    match w
    case Literal(quote, pieces) => [quote] + (PiecesText(pieces) + [quote])
    case Template(parts) => "`" + (TemplateText(parts) + "`")
    case Slashed(parts, flags) => "/" + (RegexText(parts) + ("/" + flags))
    case Name(text) => text
    case Number(text) => text
    case Mark(text) => text
    case OptionalDot => "?."
  }

  // ----- what it should read as -----------------------------------------------------------------

  /** A template's text, with a mark for every hole. */
  function StaticText(parts: seq<TemplatePart>): (s: string)
  {
    if parts == [] then ""
    else (if parts[0].Chars? then TextOf(parts[0].pieces) else HoleMark()) + StaticText(parts[1..])
  }

  function TokenOf(w: Written, at: nat): (t: Token)
  {
    match w
    case Literal(_, pieces) => Token(Str, TextOf(pieces), at)
    case Template(parts) => Token(Tpl, StaticText(parts), at)
    case Slashed(_, _) => Token(Regex, WrittenText(w), at)
    case Name(text) => Token(Ident, text, at)
    case Number(text) => Token(Num, text, at)
    case Mark(text) => Token(Punc, text, at)
    case OptionalDot => Token(Punc, ".", at)
  }

  predicate IsLatin(c: char)
  {
    c in "abcdefghijklm" || c in "nopqrstuvwxyz" || c in "ABCDEFGHIJKLM" || c in "NOPQRSTUVWXYZ"
  }

  predicate IsNumeral(c: char) { c in "0123456789" }

  /** After nothing, after an operator, an opening bracket, a comma, a colon, a semicolon or a closing brace, and after a
      keyword that an expression follows. */
  predicate ExpressionStarts(prev: seq<Token>)
  {
    prev != [] ==>
      var last := prev[|prev| - 1];
      || (last.kind == Punc
          && last.text in {"(", "[", "{", "}", ",", ";", ":", "?", "=", "!", "&", "|", "+", "-", "*", "%", "<", ">", "~", "^"})
      || (last.kind == Ident
          && last.text in {"return", "throw", "yield", "await", "case", "do", "else", "new", "delete", "typeof", "void", "in", "of",
                           "instanceof"})
  }

  predicate IsMarkChar(c: char) { !IsSpace(c) && c !in "\"'`/_$" && !IsLatin(c) && !IsNumeral(c) }

  /** What source code can hold after the tokens `prev`: any literal and template, a regular expression where an expression
      may start, a slash where none may. */
  predicate IsWritable(w: Written, prev: seq<Token>)
  {
    match w
    case Literal(quote, pieces) => quote in "\"'" && ArePieces(pieces, [quote, '\n'])
    case Template(parts) => AreTemplateParts(parts)
    case Slashed(parts, flags) =>
      && ExpressionStarts(prev) && AreRegexParts(parts) && RegexText(parts) != "" && RegexText(parts)[0] != '*'
      && forall c :: c in flags ==> IsLatin(c)
    case Name(text) =>
      text != "" && !IsNumeral(text[0]) && forall c :: c in text ==> IsLatin(c) || IsNumeral(c) || c == '_' || c == '$'
    case Number(text) =>
      text != "" && IsNumeral(text[0]) && forall c :: c in text ==> IsLatin(c) || IsNumeral(c) || c == '_' || c == '.'
    case Mark(text) => text == "=>" || (|text| == 1 && (IsMarkChar(text[0]) || (text == "/" && !ExpressionStarts(prev))))
    case OptionalDot => true
  }

  /** The same in the scanner's terms. */
  predicate IsScannable(w: Written, prev: seq<Token>)
  {
    match w
    case Slashed(parts, flags) =>
      && RegexAllowed(prev) && AreRegexParts(parts) && RegexText(parts) != "" && RegexText(parts)[0] != '*'
      && RunLength(flags, Letters) == |flags|
    case Name(text) => text != "" && StartsIdent(text[0]) && RunLength(text, IdentChars) == |text|
    case Number(text) => text != "" && IsDigit(text[0]) && RunLength(text, NumChars) == |text|
    case Mark(text) => text == "=>" || (|text| == 1 && (IsPlainMark(text[0]) || (text == "/" && !RegexAllowed(prev))))
    case _ => IsWritable(w, prev)
  }

  predicate IsPlainMark(c: char) { !IsSpace(c) && c !in "\"'`/" && !StartsIdent(c) && !IsDigit(c) }

  lemma SmallLatin(c: char)
    ensures c in "abcdefghijklm" <==> 'a' <= c <= 'm'
    ensures c in "nopqrstuvwxyz" <==> 'n' <= c <= 'z'
  {
    var (a, n) := ("abcdefghijklm", "nopqrstuvwxyz");
    assert a[0] == 'a' && a[1] == 'b' && a[2] == 'c' && a[3] == 'd' && a[4] == 'e' && a[5] == 'f' && a[6] == 'g';
    assert a[7] == 'h' && a[8] == 'i' && a[9] == 'j' && a[10] == 'k' && a[11] == 'l' && a[12] == 'm';
    assert n[0] == 'n' && n[1] == 'o' && n[2] == 'p' && n[3] == 'q' && n[4] == 'r' && n[5] == 's' && n[6] == 't';
    assert n[7] == 'u' && n[8] == 'v' && n[9] == 'w' && n[10] == 'x' && n[11] == 'y' && n[12] == 'z';
  }

  lemma CapitalLatin(c: char)
    ensures c in "ABCDEFGHIJKLM" <==> 'A' <= c <= 'M'
    ensures c in "NOPQRSTUVWXYZ" <==> 'N' <= c <= 'Z'
  {
    var (a, n) := ("ABCDEFGHIJKLM", "NOPQRSTUVWXYZ");
    assert a[0] == 'A' && a[1] == 'B' && a[2] == 'C' && a[3] == 'D' && a[4] == 'E' && a[5] == 'F' && a[6] == 'G';
    assert a[7] == 'H' && a[8] == 'I' && a[9] == 'J' && a[10] == 'K' && a[11] == 'L' && a[12] == 'M';
    assert n[0] == 'N' && n[1] == 'O' && n[2] == 'P' && n[3] == 'Q' && n[4] == 'R' && n[5] == 'S' && n[6] == 'T';
    assert n[7] == 'U' && n[8] == 'V' && n[9] == 'W' && n[10] == 'X' && n[11] == 'Y' && n[12] == 'Z';
  }

  lemma Numerals(c: char)
    ensures IsNumeral(c) <==> IsDigit(c)
  {
    var n := "0123456789";
    assert n[0] == '0' && n[1] == '1' && n[2] == '2' && n[3] == '3' && n[4] == '4';
    assert n[5] == '5' && n[6] == '6' && n[7] == '7' && n[8] == '8' && n[9] == '9';
  }

  lemma LatinIsLetter(c: char)
    ensures (IsLatin(c) <==> IsLetter(c)) && (IsNumeral(c) <==> IsDigit(c))
  {
    SmallLatin(c);
    CapitalLatin(c);
    Numerals(c);
  }

  lemma {:induction false} AllInRun(text: string, run: Run)
    requires forall c :: c in text ==> InRun(c, run)
    ensures RunLength(text, run) == |text|
  {
    if text != "" { AllInRun(text[1..], run); }
  }

  lemma WritableIsScannable(w: Written, prev: seq<Token>)
    requires IsWritable(w, prev)
    ensures IsScannable(w, prev)
  {
    hide RunLength, IsSpace, IsLatin, IsNumeral, IsLetter, IsDigit, RegexText, AreRegexParts, ExpressionStarts, RegexAllowed;
    forall c: char ensures (IsLatin(c) <==> IsLetter(c)) && (IsNumeral(c) <==> IsDigit(c)) { LatinIsLetter(c); }
    AllowedExactlyWhen(prev);
    match w
    case Slashed(_, flags) => AllInRun(flags, Letters);
    case Name(text) => assert text[0] in text; AllInRun(text, IdentChars);
    case Number(text) => AllInRun(text, NumChars);
    case _ =>
  }

  // ----- quoted parts and holes -----------------------------------------------------------------

  lemma PieceStarts(p: Piece, tail: string)
    ensures var s := PieceText(p) + tail;
      if p.Plain? then s[0] == p.c && s[1..] == tail else s[0] == '\\' && s[1] == p.c && s[2..] == tail
  {
  }

  lemma PiecesStep(pieces: seq<Piece>, tail: string)
    requires pieces != []
    ensures PiecesText(pieces) + tail == PieceText(pieces[0]) + (PiecesText(pieces[1..]) + tail)
    ensures |PiecesText(pieces)| == |PieceText(pieces[0])| + |PiecesText(pieces[1..])|
  {
    hide PieceText;
  }

  lemma {:induction false} QuotedReads(pieces: seq<Piece>, quote: char, rest: string)
    requires ArePieces(pieces, [quote]) && quote != '\\'
    ensures QuotedLength(PiecesText(pieces) + ([quote] + rest), quote) == |PiecesText(pieces)|
    decreases |pieces|
  {
    hide PieceText, PiecesText, QuotedLength;
    var tail := [quote] + rest;
    NoPieces(tail);
    if pieces == [] {
      QuoteEnds(quote, rest);
    } else {
      var others := PiecesText(pieces[1..]) + tail;
      assert pieces[0] in pieces && ArePieces(pieces[1..], [quote]);
      PiecesStep(pieces, tail);
      PieceStarts(pieces[0], others);
      QuotedFirst(PieceText(pieces[0]) + others, quote);
      PieceSize(pieces[0]);
      QuotedReads(pieces[1..], quote, rest);
    }
  }

  lemma NoPieces(tail: string)
    ensures PiecesText([]) == "" && PiecesText([]) + tail == tail
  {
  }

  lemma PieceSize(p: Piece)
    ensures |PieceText(p)| == if p.Plain? then 1 else 2
  {
  }

  lemma QuoteEnds(quote: char, rest: string)
    ensures QuotedLength([quote] + rest, quote) == 0
  {
  }

  lemma QuotedFirst(s: string, quote: char)
    requires s != "" && s[0] != quote
    ensures var n := if s[0] == '\\' then Min(2, |s|) else 1; QuotedLength(s, quote) == n + QuotedLength(s[n..], quote)
  {
  }

  lemma HoleFirst(s: string, depth: nat)
    requires s != "" && depth > 0
    ensures var (n, c) := (HoleLength(s, depth), s[0]);
      if c == '{' then n == 1 + HoleLength(s[1..], depth + 1)
      else if c == '}' then n == 1 + HoleLength(s[1..], depth - 1)
      else if c in "\"'`" then
        var end := Min(|s|, 1 + QuotedLength(s[1..], c) + 1);
        n == end + HoleLength(s[end..], depth)
      else n == 1 + HoleLength(s[1..], depth)
  {
    hide QuotedLength, HoleLength;
    HoleStep(s, 0, depth);
    assert s[0..] == s;
  }

  lemma PartsStep(parts: seq<Part>, tail: string)
    requires parts != []
    ensures PartsText(parts) + tail == PartText(parts[0]) + (PartsText(parts[1..]) + tail)
    ensures |PartsText(parts)| == |PartText(parts[0])| + |PartsText(parts[1..])|
  {
    hide PartText;
  }

  lemma NoParts(tail: string)
    ensures PartsText([]) == "" && PartsText([]) + tail == tail
  {
  }

  lemma QuotedParts(quote: char, s: string, tail: string)
    ensures var all := ([quote] + s + [quote]) + tail; var behind := s + ([quote] + tail);
      all[0] == quote && all[1..] == behind && behind[|s| + 1..] == tail && all[|s| + 2..] == tail
  {
  }

  lemma BracedParts(s: string, tail: string)
    ensures ("{" + s + "}") + tail == "{" + (s + ("}" + tail))
    ensures ("{" + (s + ("}" + tail)))[1..] == s + ("}" + tail) && ("}" + tail)[1..] == tail
  {
  }

  /** Inside a hole, braces that match and quoted parts are passed over, whatever follows. */
  lemma {:induction false} PartReads(p: Part, tail: string, depth: nat)
    requires IsPart(p) && depth > 0
    ensures HoleLength(PartText(p) + tail, depth) == |PartText(p)| + HoleLength(tail, depth)
    decreases p
  {
    hide HoleLength, QuotedLength, PiecesText, PartsText;
    match p
    case Raw(c) =>
      HoleFirst([c] + tail, depth);
      assert ([c] + tail)[1..] == tail;
    case Braced(parts) =>
      var behind := "}" + tail;
      BracedParts(PartsText(parts), tail);
      HoleFirst("{" + (PartsText(parts) + behind), depth);
      PartsRead(parts, behind, depth + 1);
      HoleFirst(behind, depth + 1);
    case Quoted(quote, pieces) =>
      QuotedParts(quote, PiecesText(pieces), tail);
      QuotedReads(pieces, quote, tail);
      HoleFirst(PartText(p) + tail, depth);
  }

  lemma {:induction false} PartsRead(parts: seq<Part>, tail: string, depth: nat)
    requires AreParts(parts) && depth > 0
    ensures HoleLength(PartsText(parts) + tail, depth) == |PartsText(parts)| + HoleLength(tail, depth)
    decreases parts
  {
    hide HoleLength, PartText, PartsText, IsPart;
    if parts == [] {
      NoParts(tail);
    } else {
      assert parts[0] in parts && AreParts(parts[1..]);
      PartsStep(parts, tail);
      PartReads(parts[0], PartsText(parts[1..]) + tail, depth);
      PartsRead(parts[1..], tail, depth);
    }
  }

  /** A hole is skipped up to the brace that closes it, past nested braces and quoted parts, whatever these hold. */
  lemma HoleReads(parts: seq<Part>, rest: string)
    requires AreParts(parts)
    ensures HoleLength(PartsText(parts) + ("}" + rest), 1) == |PartsText(parts)| + 1
  {
    hide HoleLength, PartsText;
    var tail := "}" + rest;
    PartsRead(parts, tail, 1);
    HoleFirst(tail, 1);
    ClosedHole(tail[1..]);
  }

  // ----- nothing else is skipped ----------------------------------------------------------------

  lemma PiecesFront(first: Piece, others: seq<Piece>)
    ensures PiecesText([first] + others) == PieceText(first) + PiecesText(others)
  {
    hide PieceText;
    assert ([first] + others)[1..] == others;
  }

  lemma PrefixParts(s: string, n: nat, m: nat)
    requires n + m <= |s|
    ensures s[..n + m] == s[..n] + s[n..][..m] && (n + m < |s| ==> s[n + m] == s[n..][m])
  {
  }

  /** A quoted part that ends before the source does is written in pieces. */
  lemma {:induction false} QuotedIsPieces(s: string, quote: char) returns (pieces: seq<Piece>)
    requires QuotedLength(s, quote) < |s| && quote != '\\'
    ensures ArePieces(pieces, [quote]) && s[..QuotedLength(s, quote)] == PiecesText(pieces) && s[QuotedLength(s, quote)] == quote
    decreases |s|
  {
    hide PiecesText, QuotedLength;
    NoPieces("");
    if s[0] == quote {
      QuoteEnds(quote, s[1..]);
      assert s == [quote] + s[1..];
      pieces := [];
    } else {
      QuotedFirst(s, quote);
      var n := if s[0] == '\\' then Min(2, |s|) else 1;
      var first := if s[0] == '\\' then Escaped(s[1]) else Plain(s[0]);
      var others := QuotedIsPieces(s[n..], quote);
      pieces := [first] + others;
      PiecesFront(first, others);
      assert s[..n] == PieceText(first);
      PrefixParts(s, n, QuotedLength(s[n..], quote));
    }
  }

  /** The parts of each of the levels still open, each with its closing brace. */
  function LevelsText(levels: seq<seq<Part>>): (s: string)
  {
    if levels == [] then "" else PartsText(levels[0]) + ("}" + LevelsText(levels[1..]))
  }

  predicate AreLevels(levels: seq<seq<Part>>) { forall parts :: parts in levels ==> AreParts(parts) }

  function InFront(p: Part, levels: seq<seq<Part>>): (r: seq<seq<Part>>)
    requires levels != []
  {
    [[p] + levels[0]] + levels[1..]
  }

  lemma PartsFront(p: Part, parts: seq<Part>)
    ensures PartsText([p] + parts) == PartText(p) + PartsText(parts)
  {
    hide PartText;
    assert ([p] + parts)[1..] == parts;
  }

  lemma InFrontText(p: Part, levels: seq<seq<Part>>)
    requires levels != [] && IsPart(p) && AreLevels(levels)
    ensures LevelsText(InFront(p, levels)) == PartText(p) + LevelsText(levels) && AreLevels(InFront(p, levels))
  {
    hide PartText, PartsText, IsPart;
    var front := InFront(p, levels);
    assert front[1..] == levels[1..] && front[0] == [p] + levels[0] && levels[0] in levels;
    PartsFront(p, levels[0]);
    Regrouped(PartText(p), PartsText(levels[0]), "}" + LevelsText(levels[1..]));
  }

  lemma LevelsStep(parts: seq<Part>, levels: seq<seq<Part>>)
    ensures LevelsText([parts] + levels) == PartsText(parts) + ("}" + LevelsText(levels))
  {
    hide PartsText;
    assert ([parts] + levels)[1..] == levels;
  }

  /** What is skipped before the source ends is the parts of every level, closed by its brace. */
  lemma {:induction false} SkippedIsLevels(s: string, depth: nat) returns (levels: seq<seq<Part>>)
    requires HoleLength(s, depth) < |s|
    ensures |levels| == depth && AreLevels(levels) && s[..HoleLength(s, depth)] == LevelsText(levels)
    decreases |s|
  {
    hide HoleLength, QuotedLength, PartsText, PiecesText, LevelsText, InFront;
    NoLevels();
    NoParts("");
    if depth == 0 {
      ClosedHole(s);
      levels := [];
    } else {
      HoleFirst(s, depth);
      var n := HoleLength(s, depth);
      if s[0] == '{' {
        var deeper := SkippedIsLevels(s[1..], depth + 1);
        var (inner, outer) := (deeper[0], deeper[1..]);
        assert deeper == [inner] + outer && inner in deeper && AreLevels(outer);
        LevelsStep(inner, outer);
        InFrontText(Braced(inner), outer);
        FrontSize(Braced(inner), outer);
        levels := InFront(Braced(inner), outer);
        BracedLevels(s, n, PartsText(inner), LevelsText(outer));
      } else if s[0] == '}' {
        var outer := SkippedIsLevels(s[1..], depth - 1);
        levels := [[]] + outer;
        LevelsStep([], outer);
        ClosedLevel(s, n, LevelsText(outer));
      } else {
        var p, k := FirstPart(s, depth);
        var others := SkippedIsLevels(s[k..], depth);
        InFrontText(p, others);
        FrontSize(p, others);
        levels := InFront(p, others);
        PrefixParts(s, k, n - k);
      }
    }
  }

  lemma NoLevels()
    ensures LevelsText([]) == ""
  {
  }

  lemma FrontSize(p: Part, levels: seq<seq<Part>>)
    requires levels != []
    ensures |InFront(p, levels)| == |levels|
  {
  }

  lemma ClosedLevel(s: string, n: nat, outer: string)
    requires 1 <= n <= |s| && s[0] == '}' && s[1..][..n - 1] == outer
    ensures s[..n] == "" + ("}" + outer)
  {
    assert s[..n] == [s[0]] + s[1..][..n - 1];
  }

  lemma BracedLevels(s: string, n: nat, inner: string, outer: string)
    requires 1 <= n <= |s| && s[0] == '{' && s[1..][..n - 1] == inner + ("}" + outer)
    ensures s[..n] == ("{" + inner + "}") + outer
  {
    assert s[..n] == [s[0]] + s[1..][..n - 1];
  }

  /** The part a hole goes on with, when that is neither of the braces. */
  lemma FirstPart(s: string, depth: nat) returns (p: Part, k: nat)
    requires depth > 0 && HoleLength(s, depth) < |s| && s[0] !in "{}"
    ensures 0 < k <= |s| && IsPart(p) && s[..k] == PartText(p) && HoleLength(s, depth) == k + HoleLength(s[k..], depth)
  {
    hide HoleLength, QuotedLength, PiecesText;
    HoleFirst(s, depth);
    if s[0] in "\"'`" {
      var n := QuotedLength(s[1..], s[0]);
      var pieces := QuotedIsPieces(s[1..], s[0]);
      p, k := Quoted(s[0], pieces), n + 2;
      assert s[..k] == [s[0]] + s[1..][..n] + [s[1..][n]];
    } else {
      p, k := Raw(s[0]), 1;
    }
  }

  /** A hole that is closed before the source ends: what is skipped is parts, and the brace that closes them. */
  lemma SkippedIsHole(s: string) returns (parts: seq<Part>)
    requires HoleLength(s, 1) < |s|
    ensures AreParts(parts) && s[..HoleLength(s, 1)] == PartsText(parts) + "}"
  {
    hide HoleLength, PartsText;
    var levels := SkippedIsLevels(s, 1);
    parts := levels[0];
    assert levels == [parts] + [] && parts in levels;
    LevelsStep(parts, []);
    NoLevels();
    assert "}" + "" == "}";
  }

  /** Where a hole ends that is closed before the source ends: behind the brace that closes parts, and nowhere else. */
  lemma HoleEndsAt(s: string, n: nat)
    requires n < |s|
    ensures HoleLength(s, 1) == n <==> exists parts :: AreParts(parts) && s[..n] == PartsText(parts) + "}"
  {
    hide HoleLength, PartsText, AreParts;
    if HoleLength(s, 1) == n { var parts := SkippedIsHole(s); }
    if parts :| AreParts(parts) && s[..n] == PartsText(parts) + "}" {
      HoleReads(parts, s[n..]);
      Regrouped(PartsText(parts), "}", s[n..]);
      assert s == s[..n] + s[n..];
    }
  }

  // ----- regular expressions --------------------------------------------------------------------

  lemma RegexFirst(s: string, inClass: bool)
    requires s != ""
    ensures var (r, c) := (RegexLength(s, inClass), s[0]);
      if c == '\n' || (c == '/' && !inClass) then r == 0
      else if c == '\\' then var n := Min(2, |s|); r == n + RegexLength(s[n..], inClass)
      else r == 1 + RegexLength(s[1..], if c == '[' then true else if c == ']' then false else inClass)
  {
    hide RegexLength;
    RegexStep(s, 0, inClass);
    assert s[0..] == s;
  }

  lemma PieceReads(p: Piece, tail: string, inClass: bool)
    requires p.Plain? ==> p.c !in "\\\n" && p.c !in (if inClass then "]" else "/[")
    ensures RegexLength(PieceText(p) + tail, inClass) == |PieceText(p)| + RegexLength(tail, inClass)
  {
    hide RegexLength;
    PieceStarts(p, tail);
    RegexFirst(PieceText(p) + tail, inClass);
  }

  lemma {:induction false} ClassReads(pieces: seq<Piece>, tail: string)
    requires ArePieces(pieces, "]\n")
    ensures RegexLength(PiecesText(pieces) + tail, true) == |PiecesText(pieces)| + RegexLength(tail, true)
    decreases |pieces|
  {
    hide RegexLength, PieceText, PiecesText;
    if pieces == [] {
      NoPieces(tail);
    } else {
      assert pieces[0] in pieces && ArePieces(pieces[1..], "]\n");
      PiecesStep(pieces, tail);
      PieceReads(pieces[0], PiecesText(pieces[1..]) + tail, true);
      ClassReads(pieces[1..], tail);
    }
  }

  lemma RegexPartsStep(parts: seq<RegexPart>, tail: string)
    requires parts != []
    ensures RegexText(parts) + tail == RegexPartText(parts[0]) + (RegexText(parts[1..]) + tail)
    ensures |RegexText(parts)| == |RegexPartText(parts[0])| + |RegexText(parts[1..])|
  {
    hide RegexPartText;
  }

  lemma NoRegexParts(tail: string)
    ensures RegexText([]) == "" && RegexText([]) + tail == tail
  {
  }

  lemma ClassParts(s: string, tail: string)
    ensures ("[" + s + "]") + tail == "[" + (s + ("]" + tail))
    ensures ("[" + (s + ("]" + tail)))[1..] == s + ("]" + tail) && ("]" + tail)[1..] == tail
  {
  }

  lemma RegexPartReads(p: RegexPart, tail: string)
    requires IsRegexPart(p)
    ensures RegexLength(RegexPartText(p) + tail, false) == |RegexPartText(p)| + RegexLength(tail, false)
  {
    hide RegexLength, PieceText, PiecesText;
    match p
    case One(piece) =>
      assert piece in [piece];
      PieceReads(piece, tail, false);
    case Class(pieces) =>
      var behind := "]" + tail;
      ClassParts(PiecesText(pieces), tail);
      RegexFirst("[" + (PiecesText(pieces) + behind), false);
      ClassReads(pieces, behind);
      RegexFirst(behind, true);
  }

  /** A regular expression's body is passed over, slashes in its classes and behind backslashes included. */
  lemma {:induction false} RegexPartsRead(parts: seq<RegexPart>, tail: string)
    requires AreRegexParts(parts)
    ensures RegexLength(RegexText(parts) + tail, false) == |RegexText(parts)| + RegexLength(tail, false)
    decreases |parts|
  {
    hide RegexLength, RegexPartText, RegexText, IsRegexPart;
    if parts == [] {
      NoRegexParts(tail);
    } else {
      assert parts[0] in parts && AreRegexParts(parts[1..]);
      RegexPartsStep(parts, tail);
      RegexPartReads(parts[0], RegexText(parts[1..]) + tail);
      RegexPartsRead(parts[1..], tail);
    }
  }

  lemma RegexReads(parts: seq<RegexPart>, rest: string)
    requires AreRegexParts(parts)
    ensures RegexLength(RegexText(parts) + ("/" + rest), false) == |RegexText(parts)|
  {
    hide RegexLength, RegexText;
    RegexPartsRead(parts, "/" + rest);
    RegexFirst("/" + rest, false);
  }

  lemma RegexFront(p: RegexPart, parts: seq<RegexPart>)
    ensures RegexText([p] + parts) == RegexPartText(p) + RegexText(parts)
    ensures IsRegexPart(p) && AreRegexParts(parts) ==> AreRegexParts([p] + parts)
  {
    hide RegexPartText, IsRegexPart;
    assert ([p] + parts)[1..] == parts;
  }

  /** What is left of a class that is open, with its closing bracket. */
  function ClassRest(pieces: seq<Piece>, inClass: bool): (s: string) { if inClass then PiecesText(pieces) + "]" else "" }

  /** Conversely, a body that ends at a slash is characters, escapes and classes, the first of which may be open. */
  lemma {:induction false} SkippedIsRegex(s: string, inClass: bool) returns (pieces: seq<Piece>, parts: seq<RegexPart>)
    requires RegexLength(s, inClass) < |s| && s[RegexLength(s, inClass)] == '/'
    ensures ArePieces(pieces, "]\n") && AreRegexParts(parts)
    ensures s[..RegexLength(s, inClass)] == ClassRest(pieces, inClass) + RegexText(parts)
    decreases |s|
  {
    hide RegexLength, RegexText, PiecesText, PieceText, RegexPartText;
    RegexFirst(s, inClass);
    pieces := [];
    NoRegexParts("");
    NoPieces("");
    if s[0] == '/' && !inClass {
      parts := [];
    } else {
      var k := if s[0] == '\\' then Min(2, |s|) else 1;
      var stays := if s[0] == '[' then true else if s[0] == ']' then false else inClass;
      var first := if s[0] == '\\' then Escaped(s[1]) else Plain(s[0]);
      PrefixParts(s, k, RegexLength(s[k..], stays));
      pieces, parts := SkippedIsRegex(s[k..], stays);
      PieceIs(s, k, first);
      if inClass {
        if stays {
          PiecesFront(first, pieces);
          Regrouped(PieceText(first), PiecesText(pieces), "]");
          Regrouped(PieceText(first), PiecesText(pieces) + "]", RegexText(parts));
          pieces := [first] + pieces;
        } else {
          pieces := [];
        }
      } else if stays {
        RegexFront(Class(pieces), parts);
        OpenedClass(pieces, RegexText(parts));
        parts := [Class(pieces)] + parts;
      } else {
        RegexFront(One(first), parts);
        OnePiece(first);
        parts := [One(first)] + parts;
      }
    }
  }

  /** Where a regular expression's body ends: at a slash behind characters, escapes and classes, and at no other. */
  lemma RegexEndsAt(s: string, n: nat)
    requires n < |s| && s[n] == '/'
    ensures RegexLength(s, false) == n <==> exists parts :: AreRegexParts(parts) && s[..n] == RegexText(parts)
  {
    hide RegexLength, RegexText, AreRegexParts;
    if RegexLength(s, false) == n {
      var pieces, parts := SkippedIsRegex(s, false);
      assert "" + RegexText(parts) == RegexText(parts);
    }
    if parts :| AreRegexParts(parts) && s[..n] == RegexText(parts) {
      RegexReads(parts, s[n + 1..]);
      assert s == s[..n] + ("/" + s[n + 1..]);
    }
  }

  lemma PieceIs(s: string, k: nat, first: Piece)
    requires 1 <= k <= |s| && (s[0] == '\\' ==> k == 2 && first == Escaped(s[1])) && (s[0] != '\\' ==> k == 1 && first == Plain(s[0]))
    ensures s[..k] == PieceText(first)
  {
  }

  lemma OpenedClass(pieces: seq<Piece>, rest: string)
    ensures RegexPartText(Class(pieces)) + rest == "[" + ((PiecesText(pieces) + "]") + rest)
  {
  }

  lemma OnePiece(p: Piece)
    ensures RegexPartText(One(p)) == PieceText(p)
  {
  }

  // ----- literals -------------------------------------------------------------------------------

  lemma EscapeValues(c: char, rest: string)
    ensures Unescaped([c] + rest) == [PieceValue(Escaped(c))]
  {
  }

  lemma StringPieceReads(p: Piece, quote: char, rest: string)
    requires quote in "\"'" && (p.Plain? ==> p.c !in ['\\', quote, '\n'])
    ensures var (s, r) := (PieceText(p) + rest, StringTail(rest, quote));
      StringTail(s, quote) == Read([PieceValue(p)] + r.text, |PieceText(p)| + r.n)
  {
    hide StringTail, Unescaped, PieceValue;
    var s := PieceText(p) + rest;
    PieceStarts(p, rest);
    StringStep(s, 0, quote);
    assert s[0..] == s;
    if p.Escaped? {
      assert s[1..] == [p.c] + rest;
      EscapeValues(p.c, rest);
    } else {
      PlainValue(p);
    }
  }

  lemma PlainValue(p: Piece)
    requires p.Plain?
    ensures PieceValue(p) == p.c
  {
  }

  lemma TemplatePieceReads(p: Piece, rest: string)
    requires p.Plain? ==> p.c !in "\\`$"
    ensures var (s, r) := (PieceText(p) + rest, TemplateTail(rest));
      TemplateTail(s) == Read([PieceValue(p)] + r.text, |PieceText(p)| + r.n)
  {
    hide TemplateTail, Unescaped, PieceValue;
    var s := PieceText(p) + rest;
    PieceStarts(p, rest);
    TemplateStep(s, 0);
    PieceAt(s, 0);
    assert s[0..] == s;
    if p.Escaped? {
      assert s[1..] == [p.c] + rest;
      EscapeValues(p.c, rest);
    } else {
      PlainValue(p);
    }
  }

  lemma TextStep(pieces: seq<Piece>)
    ensures pieces != [] ==> TextOf(pieces) == [PieceValue(pieces[0])] + TextOf(pieces[1..])
    ensures TextOf([]) == ""
  {
  }

  /** A written literal reads as its text, and stops at the quote. */
  lemma {:induction false} EscapedStringReads(pieces: seq<Piece>, quote: char, rest: string)
    requires quote in "\"'" && ArePieces(pieces, [quote, '\n'])
    ensures StringTail(PiecesText(pieces) + ([quote] + rest), quote) == Read(TextOf(pieces), |PiecesText(pieces)|)
    decreases |pieces|
  {
    hide PieceText, PiecesText, StringTail, TextOf, PieceValue;
    var tail := [quote] + rest;
    TextStep(pieces);
    NoPieces(tail);
    if pieces == [] {
      AtQuote(quote, rest);
    } else {
      assert pieces[0] in pieces && ArePieces(pieces[1..], [quote, '\n']);
      PiecesStep(pieces, tail);
      EscapedStringReads(pieces[1..], quote, rest);
      StringPieceReads(pieces[0], quote, PiecesText(pieces[1..]) + tail);
    }
  }

  /** Pieces for any text: a backslash before a backslash, a quote and a dollar sign, and in front of `n` for a line feed. */
  function PiecesFor(text: string): (pieces: seq<Piece>)
  {
    if text == "" then []
    else
      [if text[0] == '\n' then Escaped('n') else if text[0] in "\\\"'`$" then Escaped(text[0]) else Plain(text[0])]
      + PiecesFor(text[1..])
  }

  /** Every text can be written, in a literal of either quote and in a template. */
  lemma {:induction false} EveryTextIsWritten(text: string)
    ensures TextOf(PiecesFor(text)) == text && ArePieces(PiecesFor(text), "\"'`$\n")
  {
    if text != "" {
      EveryTextIsWritten(text[1..]);
      var (first, rest) := (PiecesFor(text)[0], PiecesFor(text[1..]));
      assert PiecesFor(text) == [first] + rest && ([first] + rest)[1..] == rest;
      assert PieceValue(first) == text[0];
    }
  }

  lemma AtQuote(quote: char, rest: string)
    ensures StringTail([quote] + rest, quote) == Read("", 0) && TemplateTail("`" + rest) == Read("", 0)
  {
  }

  lemma {:induction false} EscapedTemplateReads(pieces: seq<Piece>, tail: string)
    requires ArePieces(pieces, "`$")
    ensures var r := TemplateTail(tail);
      TemplateTail(PiecesText(pieces) + tail) == Read(TextOf(pieces) + r.text, |PiecesText(pieces)| + r.n)
    decreases |pieces|
  {
    hide PieceText, PiecesText, TemplateTail, TextOf, PieceValue;
    var r := TemplateTail(tail);
    TextStep(pieces);
    NoPieces(tail);
    if pieces == [] {
      assert "" + r.text == r.text;
    } else {
      assert pieces[0] in pieces && ArePieces(pieces[1..], "`$");
      PiecesStep(pieces, tail);
      EscapedTemplateReads(pieces[1..], tail);
      TemplatePieceReads(pieces[0], PiecesText(pieces[1..]) + tail);
      Regrouped([PieceValue(pieces[0])], TextOf(pieces[1..]), r.text);
    }
  }

  lemma HoleParts(inner: string, tail: string)
    ensures var s := ("${" + (inner + "}")) + tail;
      s[0] == '$' && s[1] == '{' && s[2..] == inner + ("}" + tail) && s[2 + |inner| + 1..] == tail
  {
  }

  /** A printed hole reads as one mark, whatever braces and quotes stand in it. */
  lemma HoleIsMark(parts: seq<Part>, tail: string)
    requires AreParts(parts)
    ensures var (r, hole) := (TemplateTail(tail), "${" + (PartsText(parts) + "}"));
      TemplateTail(hole + tail) == Read(HoleMark() + r.text, |hole| + r.n)
  {
    hide TemplateTail, TemplatePiece, PartsText, HoleLength, HoleMark;
    var inner := PartsText(parts);
    var s := ("${" + (inner + "}")) + tail;
    HoleParts(inner, tail);
    TemplateStep(s, 0);
    PieceAt(s, 0);
    assert s[0..] == s;
    HoleReads(parts, tail);
  }

  lemma TemplatePartsStep(parts: seq<TemplatePart>, tail: string)
    requires parts != []
    ensures var first := match parts[0] case Chars(pieces) => PiecesText(pieces) case Hole(inner) => "${" + (PartsText(inner) + "}");
      && TemplateText(parts) + tail == first + (TemplateText(parts[1..]) + tail)
      && |TemplateText(parts)| == |first| + |TemplateText(parts[1..])|
  {
    hide PiecesText, PartsText;
  }

  lemma NoTemplateParts(tail: string)
    ensures TemplateText([]) == "" && TemplateText([]) + tail == tail && StaticText([]) == ""
  {
  }

  /** Reading a written template gives its text with a mark for every hole, and stops at the backtick. */
  lemma {:induction false} TemplateReads(parts: seq<TemplatePart>, rest: string)
    requires AreTemplateParts(parts)
    ensures TemplateTail(TemplateText(parts) + ("`" + rest)) == Read(StaticText(parts), |TemplateText(parts)|)
    decreases |parts|
  {
    hide TemplateText, TemplateTail, PiecesText, PartsText, HoleMark, AreParts, ArePieces, TextOf;
    var tail := "`" + rest;
    if parts == [] {
      NoTemplateParts(tail);
      AtQuote('`', rest);
    } else {
      assert parts[0] in parts && AreTemplateParts(parts[1..]);
      TemplatePartsStep(parts, tail);
      var others := TemplateText(parts[1..]) + tail;
      TemplateReads(parts[1..], rest);
      match parts[0]
      case Chars(pieces) => EscapedTemplateReads(pieces, others);
      case Hole(inner) => HoleIsMark(inner, others);
    }
  }

  // ----- one token ------------------------------------------------------------------------------

  lemma {:induction false} RunStops(text: string, run: Run, rest: string)
    requires RunLength(text, run) == |text| && rest != "" && !InRun(rest[0], run)
    ensures RunLength(text + rest, run) == |text|
  {
    if text == "" {
      assert text + rest == rest;
    } else {
      assert (text + rest)[1..] == text[1..] + rest;
      RunStops(text[1..], run, rest);
    }
  }

  /** How what is written is read: the token, up to its last character. */
  predicate Reads(w: Written, rest: string, prev: seq<Token>)
  {
    var (s, t) := (WrittenText(w) + (" " + rest), TokenOf(w, 0));
    WrittenText(w) != "" && Lex(s, prev) == Lexeme(t.kind, t.text, |WrittenText(w)|)
  }

  lemma Delimited(quote: string, body: string, tail: string)
    requires |quote| == 1
    ensures var s := (quote + (body + quote)) + tail; s[0] == quote[0] && s[1..] == body + (quote + tail)
  {
  }

  lemma LiteralReads(w: Written, rest: string, prev: seq<Token>)
    requires w.Literal? && IsScannable(w, prev)
    ensures Reads(w, rest, prev)
  {
    hide StringTail, TemplateTail, LexPlain, RegexToken, PiecesText, RunLength, TextOf, ArePieces;
    EscapedStringReads(w.pieces, w.quote, " " + rest);
    Delimited([w.quote], PiecesText(w.pieces), " " + rest);
  }

  lemma TemplateTokenReads(w: Written, rest: string, prev: seq<Token>)
    requires w.Template? && IsScannable(w, prev)
    ensures Reads(w, rest, prev)
  {
    hide StringTail, TemplateTail, LexPlain, RegexToken, RunLength, TemplateText, StaticText, AreParts;
    TemplateReads(w.template, " " + rest);
    Delimited("`", TemplateText(w.template), " " + rest);
  }

  lemma SlashedParts(body: string, flags: string, rest: string)
    ensures var (s, tail) := (("/" + (body + ("/" + flags))) + (" " + rest), flags + (" " + rest));
      && s[1..] == body + ("/" + tail) && s[|body| + 2..] == tail && s[..|body| + 2 + |flags|] == "/" + (body + ("/" + flags))
      && s[0] == '/' && (body != "" ==> s[1] == body[0])
  {
  }

  lemma SpaceIsNoLetter(run: Run)
    ensures run != LineChars ==> !InRun(' ', run)
  {
  }

  lemma {:induction false} RegexStarts(parts: seq<RegexPart>)
    requires AreRegexParts(parts) && RegexText(parts) != ""
    ensures RegexText(parts)[0] != '/'
  {
    assert parts[0] in parts;
    if parts[0].One? { assert parts[0].piece in [parts[0].piece]; }
  }

  lemma LexIsPlain(s: string, prev: seq<Token>)
    requires s != "" && !IsSpace(s[0]) && s[0] !in "\"'`"
    requires s[0] == '/' ==> !RegexAllowed(prev) && |s| > 1 && s[1] != '/' && s[1] != '*'
    ensures Lex(s, prev) == LexPlain(s)
  {
    hide IsSpace, RegexAllowed, LexPlain, RegexToken, RunLength, BlockCommentLength, StringTail, TemplateTail;
  }

  lemma LexIsRegex(s: string, prev: seq<Token>)
    requires |s| > 1 && s[0] == '/' && s[1] != '/' && s[1] != '*' && RegexAllowed(prev)
    ensures Lex(s, prev) == RegexToken(s)
  {
    hide RegexAllowed, LexPlain, RegexToken, RunLength, BlockCommentLength, StringTail, TemplateTail;
  }

  lemma SlashedReads(w: Written, rest: string, prev: seq<Token>)
    requires w.Slashed? && IsScannable(w, prev)
    ensures Reads(w, rest, prev)
  {
    hide Lex, RegexAllowed, RegexLength, RunLength, RegexText, AreRegexParts;
    var body := RegexText(w.regex);
    var s := WrittenText(w) + (" " + rest);
    SlashedParts(body, w.flags, rest);
    RegexStarts(w.regex);
    LexIsRegex(s, prev);
    RegexReads(w.regex, w.flags + (" " + rest));
    SpaceIsNoLetter(Letters);
    RunStops(w.flags, Letters, " " + rest);
  }

  lemma WordStarts(c: char)
    requires StartsIdent(c) || IsDigit(c)
    ensures !IsSpace(c) && c !in "\"'`/"
  {
  }

  lemma LexWord(s: string, n: nat)
    requires 1 <= n <= |s| && (StartsIdent(s[0]) || IsDigit(s[0]))
    requires RunLength(s[1..], if StartsIdent(s[0]) then IdentChars else NumChars) == n - 1
    ensures LexPlain(s) == Lexeme(if StartsIdent(s[0]) then Ident else Num, s[..n], n)
  {
    hide StartsIdent, IsDigit, RunLength;
  }

  lemma WordParts(text: string, tail: string)
    requires text != ""
    ensures var s := text + tail; s[1..] == text[1..] + tail && s[..|text|] == text && s[0] == text[0]
  {
  }

  lemma WordReads(w: Written, rest: string, prev: seq<Token>)
    requires (w.Name? || w.Number?) && IsScannable(w, prev)
    ensures Reads(w, rest, prev)
  {
    hide Lex, LexPlain, RunLength, IsSpace;
    var (s, tail) := (w.text + (" " + rest), " " + rest);
    var run := if w.Name? then IdentChars else NumChars;
    RunOfTail(w.text, run);
    SpaceIsNoLetter(run);
    RunStops(w.text[1..], run, tail);
    WordParts(w.text, tail);
    WordStarts(s[0]);
    LexIsPlain(s, prev);
    LexWord(s, |w.text|);
  }

  lemma RunOfTail(text: string, run: Run)
    requires text != "" && RunLength(text, run) == |text|
    ensures RunLength(text[1..], run) == |text| - 1
  {
  }

  lemma MarkReads(w: Written, rest: string, prev: seq<Token>)
    requires (w.Mark? || w.OptionalDot?) && IsScannable(w, prev)
    ensures Reads(w, rest, prev)
  {
    hide Lex, RunLength, RegexAllowed, IsSpace;
    var text := WrittenText(w);
    var s := text + (" " + rest);
    assert s[0] == text[0] && s[1] == if |text| == 1 then ' ' else text[1];
    MarksAreNoSpaces();
    LexIsPlain(s, prev);
    if |text| == 1 {
      assert [s[0]] == text;
    }
  }

  lemma MarksAreNoSpaces()
    ensures !IsSpace('=') && !IsSpace('?') && !IsSpace('/')
  {
  }

  lemma WrittenReads(w: Written, rest: string, prev: seq<Token>)
    requires IsWritable(w, prev)
    ensures Reads(w, rest, prev)
  {
    hide Reads, IsWritable, IsScannable;
    WritableIsScannable(w, prev);
    match w
    case Literal(_, _) => LiteralReads(w, rest, prev);
    case Template(_) => TemplateTokenReads(w, rest, prev);
    case Slashed(_, _) => SlashedReads(w, rest, prev);
    case Name(_) => WordReads(w, rest, prev);
    case Number(_) => WordReads(w, rest, prev);
    case Mark(_) => MarkReads(w, rest, prev);
    case OptionalDot => MarkReads(w, rest, prev);
  }

  // ----- whole sources --------------------------------------------------------------------------

  /** White space, and comments: to the line's end, or up to the first end mark. */
  datatype GapPart = Space(c: char) | LineComment(text: string) | BlockComment(text: string)

  function GapPartText(g: GapPart): (s: string)
  {
    match g
    case Space(c) => [c]
    case LineComment(text) => "//" + (text + "\n")
    case BlockComment(text) => "/*" + (text + "*/")
  }

  function GapText(gap: seq<GapPart>): (s: string)
  {
    if gap == [] then "" else GapPartText(gap[0]) + GapText(gap[1..])
  }

  predicate IsGapPart(g: GapPart)
  {
    match g
    case Space(c) => IsSpace(c)
    case LineComment(text) => '\n' !in text
    case BlockComment(text) => forall i :: 0 <= i < |text| ==> !OccursAt(text + "*/", "*/", i)
  }

  predicate AreGapParts(gap: seq<GapPart>) { forall g :: g in gap ==> IsGapPart(g) }

  /** A token, a space, and more white space and comments. */
  datatype Spaced = Spaced(token: Written, gap: seq<GapPart>)

  function SourceText(ws: seq<Spaced>): (s: string)
  {
    if ws == [] then "" else WrittenText(ws[0].token) + (" " + (GapText(ws[0].gap) + SourceText(ws[1..])))
  }

  function SpacedLength(w: Spaced): (n: nat) { |WrittenText(w.token)| + 1 + |GapText(w.gap)| }

  /** The tokens the source should be scanned to, the first of them at `at`. */
  function TokensOf(ws: seq<Spaced>, at: nat): (tokens: seq<Token>)
  {
    if ws == [] then [] else [TokenOf(ws[0].token, at)] + TokensOf(ws[1..], at + SpacedLength(ws[0]))
  }

  predicate AreWritable(ws: seq<Spaced>, at: nat, prev: seq<Token>)
  {
    ws == [] ||
    (&& IsWritable(ws[0].token, prev) && AreGapParts(ws[0].gap)
     && AreWritable(ws[1..], at + SpacedLength(ws[0]), prev + [TokenOf(ws[0].token, at)]))
  }

  // ----- gaps -----------------------------------------------------------------------------------

  lemma SpaceIsGap(c: char, rest: string, prev: seq<Token>)
    requires IsSpace(c)
    ensures Lex([c] + rest, prev) == Gap(1)
  {
    hide IsSpace;
  }

  lemma {:induction false} LineEnds(text: string, rest: string)
    requires '\n' !in text
    ensures RunLength(text + ("\n" + rest), LineChars) == |text|
  {
    var s := text + ("\n" + rest);
    if text == "" {
      assert s[0] == '\n';
    } else {
      assert s[1..] == text[1..] + ("\n" + rest) && text[0] in text;
      LineEnds(text[1..], rest);
    }
  }

  lemma SlashIsNoSpace()
    ensures !IsSpace('/')
  {
  }

  lemma LineCommentIsGap(text: string, rest: string, prev: seq<Token>)
    requires '\n' !in text
    ensures Lex("//" + (text + ("\n" + rest)), prev) == Gap(2 + |text|)
  {
    hide IsSpace, RunLength;
    var s := "//" + (text + ("\n" + rest));
    assert s == ("//" + text) + ("\n" + rest);
    LineEnds("//" + text, rest);
    SlashIsNoSpace();
    assert s[..2] == "//";
  }

  lemma MarkInside(a: string, text: string, end: string, rest: string, i: nat)
    requires |a| == 2 && |end| == 2 && 2 <= i <= 2 + |text|
    ensures (a + (text + (end + rest)))[i..i + 2] == (text + end)[i - 2..i]
  {
  }

  lemma BlockCommentEnds(text: string, rest: string)
    requires IsGapPart(BlockComment(text))
    ensures IndexFrom("/*" + (text + ("*/" + rest)), "*/", 2) == 2 + |text|
  {
    var (start, end) := ("/*", "*/");
    var s := start + (text + (end + rest));
    var at := 2 + |text|;
    var r := IndexFrom(s, end, 2);
    MarkInside(start, text, end, rest, at);
    assert (text + end)[at - 2..at] == end && OccursAt(s, end, at);
    assert 2 <= r <= at;
    if r < at {
      MarkInside(start, text, end, rest, r);
      assert OccursAt(text + end, end, r - 2);
    }
  }

  lemma BlockCommentIsGap(text: string, rest: string, prev: seq<Token>)
    requires IsGapPart(BlockComment(text))
    ensures Lex("/*" + (text + ("*/" + rest)), prev) == Gap(|text| + 4)
  {
    hide IsSpace, RunLength, IndexFrom, IsGapPart;
    var s := "/*" + (text + ("*/" + rest));
    BlockCommentEnds(text, rest);
    SlashIsNoSpace();
    assert s[..2] == "/*" && s[1] == '*';
  }

  lemma StepsOver(part: string, rest: string, at: nat, prev: seq<Token>)
    requires part != "" && Lex(part + rest, prev) == Gap(|part|)
    ensures Tokens(part + rest, at, prev) == Tokens(rest, at + |part|, prev)
  {
    hide Lex, Tokens;
    GapStep(part + rest, at, prev);
    assert (part + rest)[|part|..] == rest;
  }

  lemma LineCommentIsSkipped(text: string, rest: string, at: nat, prev: seq<Token>)
    requires '\n' !in text
    ensures Tokens("//" + (text + "\n") + rest, at, prev) == Tokens(rest, at + |text| + 3, prev)
  {
    hide Lex, Tokens, IsSpace;
    var (comment, behind) := ("//" + text, "\n" + rest);
    LineCommentIsGap(text, rest, prev);
    assert "//" + (text + "\n") + rest == comment + behind == "//" + (text + behind);
    StepsOver(comment, behind, at, prev);
    LineFeedIsSpace();
    SpaceIsGap('\n', rest, prev);
    StepsOver("\n", rest, at + |comment|, prev);
  }

  lemma BlockCommentIsSkipped(text: string, rest: string, at: nat, prev: seq<Token>)
    requires IsGapPart(BlockComment(text))
    ensures Tokens("/*" + (text + "*/") + rest, at, prev) == Tokens(rest, at + |text| + 4, prev)
  {
    hide Lex, Tokens, IsGapPart;
    var comment := "/*" + (text + "*/");
    BlockCommentIsGap(text, rest, prev);
    assert comment + rest == "/*" + (text + ("*/" + rest));
    StepsOver(comment, rest, at, prev);
  }

  lemma GapPartIsSkipped(g: GapPart, rest: string, at: nat, prev: seq<Token>)
    requires IsGapPart(g)
    ensures Tokens(GapPartText(g) + rest, at, prev) == Tokens(rest, at + |GapPartText(g)|, prev)
  {
    hide Lex, Tokens, IsSpace, OccursAt;
    match g
    case Space(c) =>
      SpaceIsGap(c, rest, prev);
      StepsOver([c], rest, at, prev);
    case LineComment(text) => LineCommentIsSkipped(text, rest, at, prev);
    case BlockComment(text) => BlockCommentIsSkipped(text, rest, at, prev);
  }

  lemma LineFeedIsSpace()
    ensures IsSpace('\n') && IsSpace(' ')
  {
  }

  /** White space and comments are no tokens. */
  lemma {:induction false} GapIsSkipped(gap: seq<GapPart>, rest: string, at: nat, prev: seq<Token>)
    requires AreGapParts(gap)
    ensures Tokens(GapText(gap) + rest, at, prev) == Tokens(rest, at + |GapText(gap)|, prev)
    decreases |gap|
  {
    hide Tokens, IsGapPart, GapPartText;
    if gap == [] {
      assert "" + rest == rest;
    } else {
      assert gap[0] in gap;
      var others := GapText(gap[1..]) + rest;
      assert GapText(gap) + rest == GapPartText(gap[0]) + others;
      GapPartIsSkipped(gap[0], others, at, prev);
      GapIsSkipped(gap[1..], rest, at + |GapPartText(gap[0])|, prev);
    }
  }

  /** A block comment without an end mark takes the rest of the source. */
  lemma OpenCommentIsGap(text: string, prev: seq<Token>)
    requires forall i :: !OccursAt(text, "*/", i)
    ensures Lex("/*" + text, prev) == Gap(|text| + 2)
  {
    hide IsSpace, RunLength;
    var s := "/*" + text;
    SlashIsNoSpace();
    assert s[..2] == "/*" && s[1] == '*';
    forall i | 2 <= i ensures !OccursAt(s, "*/", i) {
      assert !OccursAt(text, "*/", i - 2);
      if i + 2 <= |s| { assert s[i..i + 2] == text[i - 2..i]; }
    }
    var r := IndexFrom(s, "*/", 2);
    assert r < 0;
  }

  // ----- where a regular expression may start ---------------------------------------------------

  lemma RegexPreceder(c: char)
    ensures c in RegexPreceders()
            <==> c in ['(', '[', '{', '}', ',', ';', ':', '?', '=', '!', '&', '|', '+', '-', '*', '%', '<', '>', '~', '^']
  {
    var p := RegexPreceders();
    assert p[0] == '(' && p[1] == ',' && p[2] == '=' && p[3] == ':' && p[4] == '[' && p[5] == '!' && p[6] == '&' && p[7] == '|';
    assert p[8] == '?' && p[9] == '{' && p[10] == '}' && p[11] == ';' && p[12] == '+' && p[13] == '-' && p[14] == '*';
    assert p[15] == '%' && p[16] == '<' && p[17] == '>' && p[18] == '~' && p[19] == '^';
  }

  lemma AllowedExactlyWhen(prev: seq<Token>)
    ensures RegexAllowed(prev) <==> ExpressionStarts(prev)
  {
    hide RegexPreceders;
    if prev != [] && prev[|prev| - 1].text != "" { RegexPreceder(prev[|prev| - 1].text[0]); }
    AllowedAre(prev);
  }

  lemma AllowedAre(prev: seq<Token>)
    requires prev != [] && prev[|prev| - 1].text != "" ==>
      (prev[|prev| - 1].text[0] in RegexPreceders()
       <==> prev[|prev| - 1].text[0] in ['(', '[', '{', '}', ',', ';', ':', '?', '=', '!', '&', '|', '+', '-', '*', '%', '<', '>', '~', '^'])
    ensures RegexAllowed(prev) <==> ExpressionStarts(prev)
  {
    hide RegexPreceders;
    if prev != [] && |prev[|prev| - 1].text| == 1 { assert prev[|prev| - 1].text == [prev[|prev| - 1].text[0]]; }
  }

  /** A slash that starts no comment starts a regular expression exactly where an expression may start. */
  lemma RegexStartsExactlyWhen(s: string, prev: seq<Token>)
    requires |s| > 1 && s[0] == '/' && s[1] != '/' && s[1] != '*'
    ensures Lex(s, prev).kind == Regex <==> ExpressionStarts(prev)
  {
    hide RegexPreceders, RegexAllowed, ExpressionStarts;
    AllowedExactlyWhen(prev);
    SlashIsNoSpace();
  }

  /** One written token, and what is behind it. */
  lemma WrittenStep(w: Written, rest: string, at: nat, prev: seq<Token>)
    requires IsWritable(w, prev)
    ensures var (n, t) := (|WrittenText(w)|, TokenOf(w, at));
      Tokens(WrittenText(w) + (" " + rest), at, prev) == [t] + Tokens(rest, at + n + 1, prev + [t])
  {
    hide IsWritable, WrittenText, Lex, Tokens;
    var s, n := WrittenText(w) + (" " + rest), |WrittenText(w)|;
    WrittenReads(w, rest, prev);
    assert s[n..] == " " + rest && (" " + rest)[1..] == rest;
    LexemeStep(s, at, prev);
    LineFeedIsSpace();
    assert " " + rest == [' '] + rest;
    SpaceIsGap(' ', rest, prev + [TokenOf(w, at)]);
    GapStep(" " + rest, at + n, prev + [TokenOf(w, at)]);
  }

  /** Scanning written source gives its tokens at their places, whatever the literals, the holes and the regular
      expressions hold. */
  lemma {:induction false} WrittenReadsBack(ws: seq<Spaced>, at: nat, prev: seq<Token>)
    requires AreWritable(ws, at, prev)
    ensures Tokens(SourceText(ws), at, prev) == TokensOf(ws, at)
    decreases |ws|
  {
    hide IsWritable, WrittenText, Tokens, TokenOf, GapText, AreGapParts;
    if ws == [] {
      NoTokens(at, prev);
    } else {
      var (w, rest, more) := (ws[0].token, SourceText(ws[1..]), prev + [TokenOf(ws[0].token, at)]);
      WrittenStep(w, GapText(ws[0].gap) + rest, at, prev);
      GapIsSkipped(ws[0].gap, rest, at + |WrittenText(w)| + 1, more);
      WrittenReadsBack(ws[1..], at + SpacedLength(ws[0]), more);
    }
  }
}
