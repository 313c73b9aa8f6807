/** The tokenizer of the text scanner: strings, templates, identifiers, numbers, regular expressions, punctuation. */
module JsTokens {
  import opened Text
  import opened Wrappers

  datatype Kind = Str | Tpl | Regex | Ident | Num | Punc

  datatype Token = Token(kind: Kind, text: string, start: nat)

  /** What the scanner takes next: white space or a comment, or a token; `n` characters either way. */
  datatype Lexed = Gap(n: nat) | Lexeme(kind: Kind, text: string, n: nat)

  /** A text read, and how many characters were read for it. */
  datatype Read = Read(text: string, n: nat)

  predicate IsLetter(c: char) { 'a' <= c <= 'z' || 'A' <= c <= 'Z' }
  predicate IsWord(c: char) { IsLetter(c) || IsDigit(c) || c == '_' }
  predicate StartsIdent(c: char) { IsLetter(c) || c == '_' || c == '$' }

  function RegexPreceders(): (chars: string) { "(,=:[!&|?{};+-*%<>~^" }

  predicate IsRegexKeyword(text: string)
  {
    text in ["return", "typeof", "case", "do", "else", "in", "of", "new", "delete", "void", "throw", "instanceof", "yield",
             "await"]
  }

  /** A slash here starts a regular expression. */
  predicate RegexAllowed(prev: seq<Token>)
  {
    prev == [] ||
    var last := prev[|prev| - 1];
    (last.kind == Punc && |last.text| == 1 && last.text[0] in RegexPreceders()) || (last.kind == Ident && IsRegexKeyword(last.text))
  }

  /** The character after a backslash, resolved; at the end of the source the scanner adds the word it reads there. */
  function Unescaped(s: string): (r: string)
  {
    if s == "" then "undefined"
    else match s[0]
      case 'n' => "\n"
      case 'r' => "\r"
      case 't' => "\t"
      case 'b' => "\U{0008}"
      case 'f' => "\U{000C}"
      case 'v' => "\U{000B}"
      case '0' => "\0"
      case c => [c]
  }

  // ----- one token ------------------------------------------------------------------------------

  /** A string literal after its opening quote, up to the closing quote, a line break or the end. */
  function StringTail(s: string, quote: char): (r: Read)
    ensures r.n <= |s|
    decreases |s|
  {
    if s == "" || s[0] == quote then Read("", 0)
    else if s[0] == '\\' then
      var n := Min(2, |s|);
      var rest := StringTail(s[n..], quote);
      Read(Unescaped(s[1..]) + rest.text, n + rest.n)
    else if s[0] == '\n' then Read("", 0)
    else
      var rest := StringTail(s[1..], quote);
      Read([s[0]] + rest.text, 1 + rest.n)
  }

  /** A quoted part of a template hole after its opening quote: how far to the closing one. */
  function QuotedLength(s: string, quote: char): (n: nat)
    ensures n <= |s|
    decreases |s|
  {
    if s == "" || s[0] == quote then 0
    else
      var n := if s[0] == '\\' then Min(2, |s|) else 1;
      n + QuotedLength(s[n..], quote)
  }

  /** A template hole after its opening brace: how far to just behind the brace that closes it. */
  function HoleLength(s: string, depth: nat): (n: nat)
    ensures n <= |s|
    decreases |s|
  {
    if s == "" || depth == 0 then 0
    else if s[0] == '{' then 1 + HoleLength(s[1..], depth + 1)
    else if s[0] == '}' then 1 + HoleLength(s[1..], depth - 1)
    else if s[0] in "\"'`" then
      var n := Min(|s|, 1 + QuotedLength(s[1..], s[0]) + 1);
      n + HoleLength(s[n..], depth)
    else 1 + HoleLength(s[1..], depth)
  }

  function HoleMark(): (text: string) { "${…}" }

  /** What a template literal goes on with: an escape, a hole, which reads as a mark, or a character. */
  function TemplatePiece(s: string): (r: Read)
    requires s != ""
    ensures 1 <= r.n <= |s|
  {
    if s[0] == '\\' then Read(Unescaped(s[1..]), Min(2, |s|))
    else if s[0] == '$' && |s| > 1 && s[1] == '{' then Read(HoleMark(), 2 + HoleLength(s[2..], 1))
    else Read([s[0]], 1)
  }

  /** A template literal after its opening backtick. */
  function TemplateTail(s: string): (r: Read)
    ensures r.n <= |s|
    decreases |s|
  {
    hide TemplatePiece;
    if s == "" || s[0] == '`' then Read("", 0)
    else
      var piece := TemplatePiece(s);
      var rest := TemplateTail(s[piece.n..]);
      Read(piece.text + rest.text, piece.n + rest.n)
  }

  /** A regular expression after its opening slash: how far to the closing one, the line's end or the end. */
  function RegexLength(s: string, inClass: bool): (n: nat)
    ensures n <= |s|
    decreases |s|
  {
    if s == "" || s[0] == '\n' then 0
    else if s[0] == '\\' then
      var n := Min(2, |s|);
      n + RegexLength(s[n..], inClass)
    else if s[0] == '/' && !inClass then 0
    else 1 + RegexLength(s[1..], if s[0] == '[' then true else if s[0] == ']' then false else inClass)
  }

  /** How many characters from the start are among those `run` names. */
  function RunLength(s: string, run: Run): (n: nat)
    ensures n <= |s|
    ensures forall i :: 0 <= i < n ==> InRun(s[i], run)
    ensures n < |s| ==> !InRun(s[n], run)
  {
    if s == "" || !InRun(s[0], run) then 0 else 1 + RunLength(s[1..], run)
  }

  datatype Run = Letters | IdentChars | NumChars | LineChars

  predicate InRun(c: char, run: Run)
  {
    match run
    case Letters => IsLetter(c)
    case IdentChars => IsWord(c) || c == '$'
    case NumChars => IsWord(c) || c == '.'
    case LineChars => c != '\n'
  }

  function BlockCommentLength(s: string): (n: nat)
    requires |s| >= 2
    ensures 2 <= n <= |s|
  {
    var e := IndexFrom(s, "*/", 2);
    if e < 0 then |s| else e + 2
  }

  function RegexToken(s: string): (r: Lexed)
    requires s != ""
    ensures r.Lexeme? && 1 <= r.n <= |s|
  {
    var body := Min(|s|, 1 + RegexLength(s[1..], false) + 1);
    var n := body + RunLength(s[body..], Letters);
    Lexeme(Regex, s[..n], n)
  }

  function Lex(s: string, prev: seq<Token>): (r: Lexed)
    requires s != ""
    ensures 1 <= r.n <= |s|
  {
    var c := s[0];
    if IsSpace(c) then Gap(1)
    else if StartsWith(s, "//") then Gap(RunLength(s, LineChars))
    else if StartsWith(s, "/*") then Gap(BlockCommentLength(s))
    else if c == '"' || c == '\'' then
      var r := StringTail(s[1..], c);
      Lexeme(Str, r.text, Min(|s|, 1 + r.n + 1))
    else if c == '`' then
      var r := TemplateTail(s[1..]);
      Lexeme(Tpl, r.text, Min(|s|, 1 + r.n + 1))
    else if c == '/' && RegexAllowed(prev) then RegexToken(s)
    else LexPlain(s)
  }

  /** An identifier, a number or punctuation. */
  function LexPlain(s: string): (r: Lexed)
    requires s != ""
    ensures r.Lexeme? && 1 <= r.n <= |s|
  {
    var c := s[0];
    if StartsIdent(c) then
      var n := 1 + RunLength(s[1..], IdentChars);
      Lexeme(Ident, s[..n], n)
    else if IsDigit(c) then
      var n := 1 + RunLength(s[1..], NumChars);
      Lexeme(Num, s[..n], n)
    else if StartsWith(s, "=>") then Lexeme(Punc, "=>", 2)
    else if StartsWith(s, "?.") then Lexeme(Punc, ".", 2)
    else Lexeme(Punc, [c], 1)
  }

  /** The tokens of `s`, which starts at `at` in the source, after the tokens `prev`. */
  function Tokens(s: string, at: nat, prev: seq<Token>): (tokens: seq<Token>)
    decreases |s|
  {
    if s == "" then []
    else
      match Lex(s, prev)
      case Gap(n) => Tokens(s[n..], at + n, prev)
      case Lexeme(kind, text, n) =>
        var t := Token(kind, text, at);
        [t] + Tokens(s[n..], at + n, prev + [t])
  }

  // ----- the scanner's loops --------------------------------------------------------------------

  /** Suffixes of a suffix. */
  lemma Suffix(source: string, j: nat, n: nat)
    requires j + n <= |source|
    ensures source[j..][n..] == source[j + n..]
  {
  }

  lemma StringStep(source: string, j: nat, quote: char)
    requires j < |source|
    ensures var (r, c) := (StringTail(source[j..], quote), source[j]);
      if c == quote then r == Read("", 0)
      else if c == '\\' then
        var n := Min(2, |source| - j);
        var rest := StringTail(source[j + n..], quote);
        r == Read(Unescaped(source[j + 1..]) + rest.text, n + rest.n)
      else if c == '\n' then r == Read("", 0)
      else var rest := StringTail(source[j + 1..], quote); r == Read([c] + rest.text, 1 + rest.n)
  {
    hide Unescaped;
    Suffix(source, j, 1);
    Suffix(source, j, Min(2, |source| - j));
  }

  lemma NothingRead(quote: char)
    ensures StringTail("", quote) == Read("", 0) && TemplateTail("") == Read("", 0)
    ensures QuotedLength("", quote) == 0 && forall depth :: HoleLength("", depth) == 0
  {
  }

  method ReadString(source: string, start: nat, quote: char) returns (text: string, j: nat)
    requires start <= |source|
    ensures var r := StringTail(source[start..], quote); text == r.text && j == start + r.n
  {
    hide StringTail, Unescaped;
    j, text := start, "";
    NothingRead(quote);
    ghost var whole := StringTail(source[start..], quote);
    while j < |source| && source[j] != quote
      invariant start <= j <= |source|
      invariant var r := StringTail(source[j..], quote); whole.text == text + r.text && whole.n == j - start + r.n
    {
      StringStep(source, j, quote);
      if source[j] == '\\' {
        text := text + Unescaped(source[j + 1..]);
        j := j + Min(2, |source| - j);
      } else if source[j] == '\n' {
        assert text + "" == text;
        break;
      } else {
        text := text + [source[j]];
        j := j + 1;
      }
    }
    if j < |source| { StringStep(source, j, quote); }
    assert text + "" == text;
  }

  lemma QuotedStep(source: string, j: nat, quote: char)
    requires j < |source|
    ensures var n := if source[j] == '\\' then Min(2, |source| - j) else 1;
      QuotedLength(source[j..], quote) == if source[j] == quote then 0 else n + QuotedLength(source[j + n..], quote)
  {
    Suffix(source, j, if source[j] == '\\' then Min(2, |source| - j) else 1);
  }

  method SkipQuoted(source: string, start: nat, quote: char) returns (j: nat)
    requires start <= |source|
    ensures j == start + QuotedLength(source[start..], quote)
  {
    hide QuotedLength;
    j := start;
    NothingRead(quote);
    while j < |source| && source[j] != quote
      invariant start <= j <= |source|
      invariant j - start + QuotedLength(source[j..], quote) == QuotedLength(source[start..], quote)
    {
      QuotedStep(source, j, quote);
      j := j + if source[j] == '\\' then Min(2, |source| - j) else 1;
    }
    if j < |source| { QuotedStep(source, j, quote); }
  }

  lemma HoleStep(source: string, j: nat, depth: nat)
    requires j < |source| && depth > 0
    ensures var (n, c) := (HoleLength(source[j..], depth), source[j]);
      if c == '{' then n == 1 + HoleLength(source[j + 1..], depth + 1)
      else if c == '}' then n == 1 + HoleLength(source[j + 1..], depth - 1)
      else if c in "\"'`" then
        var end := Min(|source|, j + 1 + QuotedLength(source[j + 1..], c) + 1);
        n == end - j + HoleLength(source[end..], depth)
      else n == 1 + HoleLength(source[j + 1..], depth)
  {
    hide QuotedLength;
    Suffix(source, j, 1);
    Suffix(source, j, Min(|source| - j, 1 + QuotedLength(source[j + 1..], source[j]) + 1));
  }

  lemma ClosedHole(s: string)
    ensures HoleLength(s, 0) == 0
  {
  }

  method SkipHole(source: string, start: nat) returns (j: nat)
    requires start <= |source|
    ensures j == start + HoleLength(source[start..], 1)
  {
    hide HoleLength, QuotedLength;
    var depth: nat := 1;
    j := start;
    NothingRead('"');
    while j < |source| && depth > 0
      invariant start <= j <= |source|
      invariant j - start + HoleLength(source[j..], depth) == HoleLength(source[start..], 1)
    {
      HoleStep(source, j, depth);
      var d := source[j];
      if d == '{' {
        depth := depth + 1;
      } else if d == '}' {
        depth := depth - 1;
      } else if d in "\"'`" {
        j := SkipQuoted(source, j + 1, d);
      }
      j := Min(j + 1, |source|);
    }
    ClosedHole(source[j..]);
  }

  lemma TemplateStep(source: string, j: nat)
    requires j < |source|
    ensures var r := TemplateTail(source[j..]);
      if source[j] == '`' then r == Read("", 0)
      else
        var piece := TemplatePiece(source[j..]);
        var rest := TemplateTail(source[j + piece.n..]);
        r == Read(piece.text + rest.text, piece.n + rest.n)
  {
    hide TemplatePiece;
    Suffix(source, j, TemplatePiece(source[j..]).n);
  }

  lemma PieceAt(source: string, j: nat)
    requires j < |source|
    ensures TemplatePiece(source[j..])
         == if source[j] == '\\' then Read(Unescaped(source[j + 1..]), Min(2, |source| - j))
            else if source[j] == '$' && j + 1 < |source| && source[j + 1] == '{' then
              Read(HoleMark(), 2 + HoleLength(source[j + 2..], 1))
            else Read([source[j]], 1)
  {
    hide Unescaped, HoleMark, HoleLength;
    Suffix(source, j, 1);
    if j + 2 <= |source| { Suffix(source, j, 2); }
  }

  lemma Assoc(a: string, b: string, c: string)
    ensures a + (b + c) == (a + b) + c && a + "" == a
  {
  }

  method ReadTemplate(source: string, start: nat) returns (text: string, j: nat)
    requires start <= |source|
    ensures var r := TemplateTail(source[start..]); text == r.text && j == start + r.n
  {
    hide HoleMark, HoleLength, Unescaped, TemplateTail, TemplatePiece;
    j, text := start, "";
    NothingRead('`');
    ghost var whole := TemplateTail(source[start..]);
    while j < |source| && source[j] != '`'
      invariant start <= j <= |source|
      invariant var r := TemplateTail(source[j..]); whole.text == text + r.text && whole.n == j - start + r.n
    {
      TemplateStep(source, j);
      PieceAt(source, j);
      var piece, next := [source[j]], j + 1;
      if source[j] == '\\' {
        piece, next := Unescaped(source[j + 1..]), j + Min(2, |source| - j);
      } else if source[j] == '$' && j + 1 < |source| && source[j + 1] == '{' {
        next := SkipHole(source, j + 2);
        piece := HoleMark();
      }
      Assoc(text, piece, TemplateTail(source[next..]).text);
      text, j := text + piece, next;
    }
    if j < |source| { TemplateStep(source, j); }
    Assoc(text, "", "");
  }

  method SkipRun(source: string, start: nat, run: Run) returns (j: nat)
    requires start <= |source|
    ensures j == start + RunLength(source[start..], run)
  {
    j := start;
    while j < |source| && InRun(source[j], run)
      invariant start <= j <= |source|
      invariant j - start + RunLength(source[j..], run) == RunLength(source[start..], run)
    {
      assert source[j..][1..] == source[j + 1..];
      j := j + 1;
    }
  }

  lemma RegexStep(source: string, j: nat, inClass: bool)
    requires j < |source|
    ensures var (r, c) := (RegexLength(source[j..], inClass), source[j]);
      if c == '\n' || (c == '/' && !inClass) then r == 0
      else if c == '\\' then var n := Min(2, |source| - j); r == n + RegexLength(source[j + n..], inClass)
      else r == 1 + RegexLength(source[j + 1..], if c == '[' then true else if c == ']' then false else inClass)
  {
    Suffix(source, j, 1);
    Suffix(source, j, Min(2, |source| - j));
  }

  lemma NoRegexLeft()
    ensures forall inClass :: RegexLength("", inClass) == 0
  {
  }

  method SkipRegex(source: string, start: nat) returns (j: nat)
    requires start <= |source|
    ensures j == start + RegexLength(source[start..], false)
  {
    hide RegexLength;
    var inClass := false;
    j := start;
    NoRegexLeft();
    while j < |source| && source[j] != '\n'
      invariant start <= j <= |source|
      invariant j - start + RegexLength(source[j..], inClass) == RegexLength(source[start..], false)
    {
      var d := source[j];
      RegexStep(source, j, inClass);
      if d == '\\' {
        j := j + Min(2, |source| - j);
        continue;
      }
      if d == '[' {
        inClass := true;
      } else if d == ']' {
        inClass := false;
      } else if d == '/' && !inClass {
        break;
      }
      j := j + 1;
    }
    if j < |source| { RegexStep(source, j, inClass); }
  }

  /** One round of the scanner: the gap or token at `i`. */
  method Scan(source: string, i: nat, tokens: seq<Token>) returns (r: Lexed)
    requires i < |source|
    ensures r == Lex(source[i..], tokens)
  {
    hide StringTail, TemplateTail, RegexLength, RegexAllowed, IsSpace, RunLength, IndexFrom, LexPlain, RegexToken;
    var c := source[i];
    ghost var s := source[i..];
    assert s[1..] == source[i + 1..] && (|s| > 1 ==> s[1] == source[i + 1]);
    if IsSpace(c) { return Gap(1); }
    if i + 1 < |source| && c == '/' && source[i + 1] == '/' {
      var end := SkipRun(source, i, LineChars);
      return Gap(end - i);
    }
    if i + 1 < |source| && c == '/' && source[i + 1] == '*' {
      var e := IndexFrom(source, "*/", i + 2);
      FoundInSuffix(source, i);
      return Gap((if e < 0 then |source| else e + 2) - i);
    }
    if c == '"' || c == '\'' {
      var text, end := ReadString(source, i + 1, c);
      return Lexeme(Str, text, Min(|source| - i, end + 1 - i));
    }
    if c == '`' {
      var text, end := ReadTemplate(source, i + 1);
      return Lexeme(Tpl, text, Min(|source| - i, end + 1 - i));
    }
    if c == '/' && RegexAllowed(tokens) {
      r := ScanRegex(source, i);
      return;
    }
    r := ScanPlain(source, i);
  }

  method ScanRegex(source: string, i: nat) returns (r: Lexed)
    requires i < |source|
    ensures r == RegexToken(source[i..])
  {
    hide RegexLength, RunLength;
    ghost var s := source[i..];
    Suffix(source, i, 1);
    var body := SkipRegex(source, i + 1);
    var behind := Min(body + 1, |source|);
    Suffix(source, i, behind - i);
    var end := SkipRun(source, behind, Letters);
    assert source[i..end] == s[..end - i];
    r := Lexeme(Regex, source[i..end], end - i);
  }

  method ScanPlain(source: string, i: nat) returns (r: Lexed)
    requires i < |source|
    ensures r == LexPlain(source[i..])
  {
    hide RunLength;
    var c := source[i];
    ghost var s := source[i..];
    assert s[1..] == source[i + 1..] && (|s| > 1 ==> s[1] == source[i + 1]);
    if StartsIdent(c) {
      var end := SkipRun(source, i + 1, IdentChars);
      assert source[i..end] == s[..end - i];
      return Lexeme(Ident, source[i..end], end - i);
    }
    if IsDigit(c) {
      var end := SkipRun(source, i + 1, NumChars);
      assert source[i..end] == s[..end - i];
      return Lexeme(Num, source[i..end], end - i);
    }
    if c == '=' && i + 1 < |source| && source[i + 1] == '>' { return Lexeme(Punc, "=>", 2); }
    if c == '?' && i + 1 < |source| && source[i + 1] == '.' { return Lexeme(Punc, ".", 2); }
    return Lexeme(Punc, [c], 1);
  }

  /** Where a text occurs in a suffix is where it occurs in the whole. */
  lemma FoundInSuffix(source: string, i: nat)
    requires i + 2 <= |source|
    ensures var (e, n) := (IndexFrom(source, "*/", i + 2), IndexFrom(source[i..], "*/", 2));
      (e < 0 <==> n < 0) && (e >= 0 ==> e == i + n)
  {
    var s := source[i..];
    forall at | 0 <= at ensures OccursAt(s, "*/", at) <==> OccursAt(source, "*/", i + at) {
      if at + 2 <= |s| { assert s[at..at + 2] == source[i + at..i + at + 2]; }
    }
    var e := IndexFrom(source, "*/", i + 2);
    if e >= 0 { assert OccursAt(s, "*/", e - i); }
  }

  lemma LexemeStep(s: string, at: nat, prev: seq<Token>)
    requires s != "" && Lex(s, prev).Lexeme?
    ensures var r := Lex(s, prev); var t := Token(r.kind, r.text, at);
      Tokens(s, at, prev) == [t] + Tokens(s[r.n..], at + r.n, prev + [t])
  {
    hide Lex;
  }

  lemma GapStep(s: string, at: nat, prev: seq<Token>)
    requires s != "" && Lex(s, prev).Gap?
    ensures var r := Lex(s, prev); Tokens(s, at, prev) == Tokens(s[r.n..], at + r.n, prev)
  {
    hide Lex;
  }

  lemma TokensStep(source: string, i: nat, prev: seq<Token>)
    requires i < |source|
    ensures var r := Lex(source[i..], prev);
      if r.Gap? then Tokens(source[i..], i, prev) == Tokens(source[i + r.n..], i + r.n, prev)
      else var t := Token(r.kind, r.text, i); Tokens(source[i..], i, prev) == [t] + Tokens(source[i + r.n..], i + r.n, prev + [t])
  {
    hide Lex, Tokens;
    var r := Lex(source[i..], prev);
    Suffix(source, i, r.n);
    if r.Gap? {
      GapStep(source[i..], i, prev);
    } else {
      LexemeStep(source[i..], i, prev);
    }
  }

  method Tokenize(source: string) returns (tokens: seq<Token>)
    ensures tokens == Tokens(source, 0, [])
  {
    hide Lex, Tokens;
    tokens := [];
    var i := 0;
    assert source[0..] == source;
    while i < |source|
      invariant 0 <= i <= |source|
      invariant tokens + Tokens(source[i..], i, tokens) == Tokens(source, 0, [])
    {
      var r := Scan(source, i, tokens);
      TokensStep(source, i, tokens);
      if r.Lexeme? {
        tokens := tokens + [Token(r.kind, r.text, i)];
      }
      i := i + r.n;
    }
    NoTokens(i, tokens);
    assert source[i..] == "" && tokens + [] == tokens;
  }

  lemma NoTokens(at: nat, prev: seq<Token>)
    ensures Tokens("", at, prev) == []
  {
  }

  // ----- spans ----------------------------------------------------------------------------------

  /** Where each of the tokens ends, the closing quotes of literals included. */
  function Ends(s: string, at: nat, prev: seq<Token>): (ends: seq<nat>)
    ensures |ends| == |Tokens(s, at, prev)|
    decreases |s|
  {
    hide Lex;
    if s == "" then []
    else
      match Lex(s, prev)
      case Gap(n) => Ends(s[n..], at + n, prev)
      case Lexeme(kind, text, n) => [at + n] + Ends(s[n..], at + n, prev + [Token(kind, text, at)])
  }

  /** Each token is read between its start and its end, in `[from, to]`, and the next one starts behind that. */
  predicate AreSpans(tokens: seq<Token>, ends: seq<nat>, from: nat, to: nat)
  {
    && |ends| == |tokens|
    && (forall k :: 0 <= k < |tokens| ==> from <= tokens[k].start < ends[k] <= to)
    && (forall j, k :: 0 <= j < k < |tokens| ==> ends[j] <= tokens[k].start)
  }

  /** The spans of the tokens, literals and regular expressions included, do not overlap. */
  lemma {:induction false} SpansAreApart(s: string, at: nat, prev: seq<Token>)
    ensures AreSpans(Tokens(s, at, prev), Ends(s, at, prev), at, at + |s|)
    decreases |s|
  {
    hide Lex, AreSpans, Tokens, Ends;
    if s == "" {
      NoTokens(at, prev);
      NoSpans(at);
    } else {
      EndsStep(s, at, prev);
      var r := Lex(s, prev);
      var rest := s[r.n..];
      if r.Gap? {
        GapStep(s, at, prev);
        SpansAreApart(rest, at + r.n, prev);
        WiderSpans(Tokens(rest, at + r.n, prev), Ends(rest, at + r.n, prev), at, at + r.n, at + |s|);
      } else {
        LexemeStep(s, at, prev);
        var t := Token(r.kind, r.text, at);
        SpansAreApart(rest, at + r.n, prev + [t]);
        FirstThenRest(t, at + r.n, Tokens(rest, at + r.n, prev + [t]), Ends(rest, at + r.n, prev + [t]), at + |s|);
      }
    }
  }

  lemma NoSpans(at: nat)
    ensures AreSpans([], [], at, at)
  {
  }

  lemma WiderSpans(tokens: seq<Token>, ends: seq<nat>, from: nat, later: nat, to: nat)
    requires AreSpans(tokens, ends, later, to) && from <= later
    ensures AreSpans(tokens, ends, from, to)
  {
  }

  lemma FirstThenRest(t: Token, end: nat, rest: seq<Token>, ends: seq<nat>, to: nat)
    requires t.start < end <= to && AreSpans(rest, ends, end, to)
    ensures AreSpans([t] + rest, [end] + ends, t.start, to)
  {
  }

  /** A token whose text stands in the source as it is. */
  predicate IsVerbatim(t: Token) { t.kind in {Regex, Ident, Num} || (t.kind == Punc && t.text != ".") }

  /** The token is what the source reads as between its start and its end, after the tokens before it; if it is verbatim,
      it stands there as it is. */
  predicate IsInPlace(s: string, at: nat, before: seq<Token>, t: Token, end: nat)
  {
    && at <= t.start < end <= at + |s|
    && Lex(s[t.start - at..], before) == Lexeme(t.kind, t.text, end - t.start)
    && (IsVerbatim(t) ==> s[t.start - at..end - at] == t.text)
  }

  lemma FurtherBack(s: string, at: nat, n: nat, before: seq<Token>, t: Token, end: nat)
    requires n <= |s| && IsInPlace(s[n..], at + n, before, t, end)
    ensures IsInPlace(s, at, before, t, end)
  {
    hide Lex, IsVerbatim;
    SuffixSlice(s, n, t.start - at - n, end - at - n);
  }

  lemma FirstInPlace(s: string, before: seq<Token>, t: Token, n: nat)
    requires 1 <= n <= |s| && Lex(s, before) == Lexeme(t.kind, t.text, n) && (IsVerbatim(t) ==> s[..n] == t.text)
    ensures IsInPlace(s, t.start, before, t, t.start + n)
  {
    hide Lex, IsVerbatim;
    assert s[0..] == s;
  }

  lemma BeforeFirst(prev: seq<Token>, tokens: seq<Token>)
    ensures prev + tokens[..0] == prev
  {
  }

  lemma BeforeLater(prev: seq<Token>, t: Token, later: seq<Token>, k: nat)
    requires k <= |later|
    ensures prev + ([t] + later)[..k + 1] == (prev + [t]) + later[..k]
  {
  }

  lemma EndsStep(s: string, at: nat, prev: seq<Token>)
    requires s != ""
    ensures var r := Lex(s, prev);
      Ends(s, at, prev) == if r.Gap? then Ends(s[r.n..], at + r.n, prev)
                           else [at + r.n] + Ends(s[r.n..], at + r.n, prev + [Token(r.kind, r.text, at)])
  {
    hide Lex, Tokens;
  }

  /** Every token of the source is in its place. */
  lemma {:induction false} TokenInPlace(s: string, at: nat, prev: seq<Token>, k: nat)
    requires k < |Tokens(s, at, prev)|
    ensures var tokens := Tokens(s, at, prev); IsInPlace(s, at, prev + tokens[..k], tokens[k], Ends(s, at, prev)[k])
    decreases |s|
  {
    hide Lex, IsInPlace, IsVerbatim, Tokens, Ends;
    NoTokens(at, prev);
    EndsStep(s, at, prev);
    var (r, tokens, end) := (Lex(s, prev), Tokens(s, at, prev), Ends(s, at, prev)[k]);
    var rest := s[r.n..];
    if r.Gap? {
      GapStep(s, at, prev);
      TokenInPlace(rest, at + r.n, prev, k);
      FurtherBack(s, at, r.n, prev + tokens[..k], tokens[k], end);
    } else {
      LexemeStep(s, at, prev);
      var first := Token(r.kind, r.text, at);
      var later := Tokens(rest, at + r.n, prev + [first]);
      if k > 0 {
        TokenInPlace(rest, at + r.n, prev + [first], k - 1);
        BeforeLater(prev, first, later, k - 1);
        FurtherBack(s, at, r.n, prev + tokens[..k], tokens[k], end);
      } else {
        BeforeFirst(prev, tokens);
        if IsVerbatim(first) { VerbatimText(s, at, prev); }
        FirstInPlace(s, prev, first, r.n);
      }
    }
  }

  lemma SuffixSlice(s: string, n: nat, i: nat, j: nat)
    requires n <= |s| && i <= j <= |s| - n
    ensures s[n..][i..] == s[n + i..] && s[n..][i..j] == s[n + i..n + j]
  {
  }

  lemma VerbatimText(s: string, at: nat, prev: seq<Token>)
    requires s != "" && Lex(s, prev).Lexeme? && IsVerbatim(Token(Lex(s, prev).kind, Lex(s, prev).text, at))
    ensures var r := Lex(s, prev); r.n == |r.text| && r.text == s[..r.n]
  {
    hide StringTail, TemplateTail, RegexLength, RegexAllowed, IsSpace, RunLength, IndexFrom;
  }
}
