/** One entry of a .properties bundle: how a value is escaped, and how UI5's parser reads an entry back. */
module PropertyValues {
  import opened Text
  import opened Wrappers

  // ----- printing -------------------------------------------------------------------------------

  /** `s.replace(/c/g, with)`. */
  function Replace(s: string, c: char, with: string): (r: string)
  {
    if s == "" then "" else (if s[0] == c then with else [s[0]]) + Replace(s[1..], c, with)
  }

  function EscapeValue(value: string): (r: string)
  {
    var escaped := Replace(Replace(Replace(Replace(value, '\\', "\\\\"), '\n', "\\n"), '\r', "\\r"), '\t', "\\t");
    if StartsWith(escaped, " ") then "\\" + escaped else escaped
  }

  // ----- parsing --------------------------------------------------------------------------------

  predicate IsUnicodeEscape(s: string)
  {
    |s| >= 6 && s[1] == 'u' && IsHex(s[2]) && IsHex(s[3]) && IsHex(s[4]) && IsHex(s[5])
  }

  function HexValue(c: char): (v: nat)
    requires IsHex(c)
  {
    if '0' <= c <= '9' then c as int - '0' as int
    else if 'a' <= c <= 'f' then 10 + (c as int - 'a' as int)
    else 10 + (c as int - 'A' as int)
  }

  /** `String.fromCharCode`; a lone surrogate, which is no character here, becomes U+FFFD. */
  function FromCharCode(h1: char, h2: char, h3: char, h4: char): (c: char)
    requires IsHex(h1) && IsHex(h2) && IsHex(h3) && IsHex(h4)
  {
    var code := ((HexValue(h1) * 16 + HexValue(h2)) * 16 + HexValue(h3)) * 16 + HexValue(h4);
    if code < 0xD800 || 0xE000 <= code < 0x1_0000 then code as char else '\U{FFFD}'
  }

  function Translate(c: char): (t: char)
  {
    if c == 'n' then '\n' else if c == 't' then '\t' else if c == 'r' then '\r' else if c == 'f' then '\U{000C}' else c
  }

  /** The escapes of a value resolved, left to right. */
  function Unescape(s: string): (r: string)
    decreases |s|
  {
    if s == "" then ""
    else if s[0] != '\\' || |s| == 1 then [s[0]] + Unescape(s[1..])
    else if IsUnicodeEscape(s) then [FromCharCode(s[2], s[3], s[4], s[5])] + Unescape(s[6..])
    else if IsLineTerminator(s[1]) then [s[0]] + Unescape(s[1..])
    else [Translate(s[1])] + Unescape(s[2..])
  }

  predicate IsKeyChar(c: char)
  {
    'A' <= c <= 'Z' || 'a' <= c <= 'z' || '0' <= c <= '9' || c in "_.-"
  }

  /** A generated key: `schema.` and at least one key character. */
  predicate IsKey(key: string)
  {
    |key| > 7 && key[..7] == "schema." && forall i :: 7 <= i < |key| ==> IsKeyChar(key[i])
  }

  /** How many characters of `s` from the start on are key characters. */
  function KeyRun(s: string): (n: nat)
    ensures n <= |s|
  {
    if s == "" || !IsKeyChar(s[0]) then 0 else 1 + KeyRun(s[1..])
  }

  /** `/^\s*(schema\.[A-Za-z0-9_.-]+)\s*[=:]/`: the key, and what follows the separator. */
  function MatchKey(line: string): (m: Option<(string, string)>)
  {
    var t := TrimStart(line);
    if !StartsWith(t, "schema.") then None
    else
      var n := 7 + KeyRun(t[7..]);
      var rest := TrimStart(t[n..]);
      if n == 7 || rest == "" || rest[0] !in "=:" then None else Some((t[..n], rest[1..]))
  }

  /** A first line with its continuation lines: each backslash at an end is dropped, each indent too. */
  function JoinContinued(joined: string, lines: seq<string>): (r: string)
    decreases |lines|
  {
    if lines == [] then joined
    else JoinContinued((if joined == "" then "" else joined[..|joined| - 1]) + TrimStart(lines[0]), lines[1..])
  }

  /** The value of one raw entry, as UI5's parser reads it. */
  function ParseValue(raw: string): (value: string)
  {
    var lines := Lines(raw);
    var joined := JoinContinued(lines[0], lines[1..]);
    match MatchKey(joined)
    case None => Unescape(joined)
    case Some((_, rest)) => Unescape(TrimStart(rest))
  }

  /** An entry as the generator prints it. */
  function PrintEntry(key: string, value: string): (raw: string) { key + "=" + EscapeValue(value) }

  // ----- escaping character by character --------------------------------------------------------

  function EscapeChar(c: char): (r: string)
  {
    if c == '\\' then "\\\\" else if c == '\n' then "\\n" else if c == '\r' then "\\r" else if c == '\t' then "\\t" else [c]
  }

  function EscapeChars(s: string): (r: string)
  {
    if s == "" then "" else EscapeChar(s[0]) + EscapeChars(s[1..])
  }

  lemma {:induction false} ReplaceConcat(a: string, b: string, c: char, with: string)
    ensures Replace(a + b, c, with) == Replace(a, c, with) + Replace(b, c, with)
    decreases |a|
  {
    if a == "" {
      assert a + b == b;
    } else {
      assert (a + b)[1..] == a[1..] + b;
      ReplaceConcat(a[1..], b, c, with);
    }
  }

  /** The four replacements do not touch each other's output. */
  lemma {:induction false} ReplacementsAreCharwise(s: string)
    ensures Replace(Replace(Replace(Replace(s, '\\', "\\\\"), '\n', "\\n"), '\r', "\\r"), '\t', "\\t") == EscapeChars(s)
  {
    if s != "" {
      var rest := s[1..];
      ReplacementsAreCharwise(rest);
      var a := if s[0] == '\\' then "\\\\" else [s[0]];
      var b := Replace(a, '\n', "\\n");
      var c := Replace(b, '\r', "\\r");
      ReplaceConcat(a, Replace(rest, '\\', "\\\\"), '\n', "\\n");
      ReplaceConcat(b, Replace(Replace(rest, '\\', "\\\\"), '\n', "\\n"), '\r', "\\r");
      ReplaceConcat(c, Replace(Replace(Replace(rest, '\\', "\\\\"), '\n', "\\n"), '\r', "\\r"), '\t', "\\t");
      OneCharReplaced(s[0]);
    }
  }

  lemma OneCharReplaced(x: char)
    ensures var a := if x == '\\' then "\\\\" else [x];
            Replace(Replace(Replace(a, '\n', "\\n"), '\r', "\\r"), '\t', "\\t") == EscapeChar(x)
  {
    TwoChars('\\', '\\');
    TwoChars('\\', 'n');
    TwoChars('\\', 'r');
    OneChar(x);
  }

  lemma OneChar(x: char)
    ensures forall c, with :: Replace([x], c, with) == if x == c then with else [x]
  {
    forall c: char, with: string ensures Replace([x], c, with) == if x == c then with else [x] {
      assert Replace([x][1..], c, with) == "";
    }
  }

  lemma TwoChars(x: char, y: char)
    ensures forall c, with :: x != c && y != c ==> Replace([x, y], c, with) == [x, y]
  {
    forall c: char, with: string | x != c && y != c ensures Replace([x, y], c, with) == [x, y] {
      assert [x, y] == [x] + [y];
      OneChar(x);
      OneChar(y);
      ReplaceConcat([x], [y], c, with);
    }
  }

  lemma EscapeIsCharwise(value: string)
    ensures EscapeValue(value) == if value != "" && value[0] == ' ' then "\\" + EscapeChars(value) else EscapeChars(value)
  {
    hide Replace, EscapeChar;
    ReplacementsAreCharwise(value);
    if value != "" { FirstEscaped(value); }
  }

  lemma FirstEscaped(value: string)
    requires value != ""
    ensures EscapeChars(value) != "" && (EscapeChars(value)[0] == ' ' <==> value[0] == ' ')
  {
  }

  // ----- round trip -----------------------------------------------------------------------------

  lemma EscapeCharReadsBack(c: char, rest: string)
    ensures Unescape(EscapeChar(c) + rest) == [c] + Unescape(rest)
  {
    var s := EscapeChar(c) + rest;
    if |EscapeChar(c)| == 2 {
      assert s[2..] == rest;
    } else {
      assert s[1..] == rest;
    }
  }

  lemma {:induction false} EscapedCharsReadBack(s: string)
    ensures Unescape(EscapeChars(s)) == s
  {
    if s != "" {
      EscapeCharReadsBack(s[0], EscapeChars(s[1..]));
      EscapedCharsReadBack(s[1..]);
      assert s == [s[0]] + s[1..];
    }
  }

  /** Resolving the escapes undoes escaping, for every value. */
  lemma UnescapeUndoesEscape(value: string)
    ensures Unescape(EscapeValue(value)) == value
  {
    EscapeIsCharwise(value);
    EscapedCharsReadBack(value);
    if value != "" && value[0] == ' ' {
      var e := EscapeChars(value);
      assert e == " " + EscapeChars(value[1..]);
      var s := "\\" + e;
      assert s[1] == ' ' && s[2..] == e[1..] == EscapeChars(value[1..]);
      EscapedCharsReadBack(value[1..]);
      assert value == " " + value[1..];
    }
  }

  lemma {:induction false} KeyRunOfKey(chars: string, rest: string)
    requires (forall i :: 0 <= i < |chars| ==> IsKeyChar(chars[i])) && (rest == "" || !IsKeyChar(rest[0]))
    ensures KeyRun(chars + rest) == |chars|
    decreases |chars|
  {
    if chars == "" {
      assert chars + rest == rest;
    } else {
      assert (chars + rest)[1..] == chars[1..] + rest;
      KeyRunOfKey(chars[1..], rest);
    }
  }

  /** A printed entry is recognised by its key, and everything after the separator is its value. */
  lemma PrintedKeyMatches(key: string, rest: string)
    requires IsKey(key)
    ensures MatchKey(key + "=" + rest) == Some((key, rest))
  {
    var line := key + "=" + rest;
    assert line[0] == key[0] == key[..7][0] == 's';
    assert TrimStart(line) == line;
    assert line[..7] == key[..7] && StartsWith(line, "schema.");
    assert line[7..] == key[7..] + ("=" + rest);
    KeyRunOfKey(key[7..], "=" + rest);
    assert line[..|key|] == key && line[|key|..] == "=" + rest;
    assert TrimStart("=" + rest) == "=" + rest && ("=" + rest)[1..] == rest;
  }

  lemma {:induction false} EscapedIsLine(s: string)
    ensures IsLine(EscapeChars(s))
  {
    if s != "" { EscapedIsLine(s[1..]); }
  }

  lemma PrintedIsLine(key: string, value: string)
    requires IsKey(key)
    ensures IsLine(PrintEntry(key, value))
  {
    EscapeIsCharwise(value);
    EscapedIsLine(value);
    forall i | 0 <= i < |key| ensures key[i] != '\n' {
      if i < 7 { assert key[i] == key[..7][i]; }
    }
  }

  lemma ParsePrinted(key: string, value: string)
    requires IsKey(key)
    ensures ParseValue(PrintEntry(key, value)) == Unescape(TrimStart(EscapeValue(value)))
  {
    PrintedIsLine(key, value);
    LinesOfLine(PrintEntry(key, value));
    PrintedKeyMatches(key, EscapeValue(value));
  }

  /** Leading white space the printer does not escape. */
  predicate StartsUnescapedSpace(value: string)
  {
    value != "" && IsSpace(value[0]) && value[0] !in " \t\n\r"
  }

  /** White space at the start of a value that printing leaves bare. */
  predicate IsBareSpace(c: char) { IsSpace(c) && c !in "\n\r\t" }

  /** What reading a printed value drops. */
  function CutStart(value: string): (r: string)
    ensures |r| <= |value|
  {
    if value != "" && IsBareSpace(value[0]) then CutStart(value[1..]) else value
  }

  lemma {:induction false} TrimEscaped(s: string)
    ensures TrimStart(EscapeChars(s)) == EscapeChars(CutStart(s))
  {
    if s != "" {
      var e := EscapeChars(s);
      assert e[0] == EscapeChar(s[0])[0];
      if IsBareSpace(s[0]) {
        assert e[1..] == EscapeChars(s[1..]);
        TrimEscaped(s[1..]);
      }
    }
  }

  /** Exactly what reading a printed entry gives: the value, without bare white space it starts with unless that
      is led by a space. */
  lemma ParseOfPrinted(key: string, value: string)
    requires IsKey(key)
    ensures ParseValue(PrintEntry(key, value)) == if value != "" && value[0] == ' ' then value else CutStart(value)
  {
    hide ParseValue, PrintEntry, EscapeValue, EscapeChars, Unescape, IsKey, IsSpace;
    ParsePrinted(key, value);
    EscapeIsCharwise(value);
    if value != "" && value[0] == ' ' {
      BackslashStaysFirst(EscapeChars(value));
      UnescapeUndoesEscape(value);
    } else {
      TrimEscaped(value);
      EscapedCharsReadBack(CutStart(value));
    }
  }

  lemma BackslashStaysFirst(s: string)
    ensures TrimStart("\\" + s) == "\\" + s
  {
  }

  lemma CutIsClean(value: string)
    ensures !StartsUnescapedSpace(CutStart(value)) && (CutStart(value) != "" ==> CutStart(value)[0] != ' ')
  {
  }

  /** Reading an entry undoes printing it, exactly when the value does not start with white space other than
      space, tab, line feed or carriage return. */
  lemma ParseUndoesPrint(key: string, value: string)
    requires IsKey(key)
    ensures ParseValue(PrintEntry(key, value)) == value <==> !StartsUnescapedSpace(value)
  {
    hide ParseValue, PrintEntry, IsSpace;
    ParseOfPrinted(key, value);
  }

  // ----- continuation lines ---------------------------------------------------------------------

  /** How many backslashes `s` ends in. */
  function TrailingBackslashes(s: string): (n: nat)
    ensures n <= |s|
  {
    if s == "" || s[|s| - 1] != '\\' then 0 else 1 + TrailingBackslashes(s[..|s| - 1])
  }

  /** The line continues on the next one. */
  predicate Continues(line: string) { TrailingBackslashes(line) % 2 == 1 }

  lemma {:induction false} EscapeCharsConcat(a: string, b: string)
    ensures EscapeChars(a + b) == EscapeChars(a) + EscapeChars(b)
    decreases |a|
  {
    if a == "" {
      assert a + b == b;
    } else {
      assert (a + b)[1..] == a[1..] + b;
      EscapeCharsConcat(a[1..], b);
    }
  }

  lemma TwoMoreBackslashes(e: string)
    ensures TrailingBackslashes(e + "\\\\") == TrailingBackslashes(e) + 2
  {
    var two := e + "\\\\";
    assert two[..|two| - 1] == e + "\\" && (e + "\\")[..|e|] == e;
  }

  lemma EscapeOfLast(s: string)
    requires s != ""
    ensures EscapeChars(s) == EscapeChars(s[..|s| - 1]) + EscapeChar(s[|s| - 1])
  {
    hide EscapeChar;
    var before, last := s[..|s| - 1], s[|s| - 1];
    EscapeCharsConcat(before, [last]);
    assert before + [last] == s;
    assert EscapeChars([last]) == EscapeChar(last) by { assert [last][1..] == ""; }
  }

  lemma EscapeOfNothing()
    ensures EscapeChars("") == ""
  {
  }

  lemma {:induction false} EscapedEndsEven(s: string)
    ensures TrailingBackslashes(EscapeChars(s)) % 2 == 0
  {
    hide EscapeChars;
    if s == "" {
      EscapeOfNothing();
    } else {
      EscapedEndsEven(s[..|s| - 1]);
      EscapeOfLast(s);
      TwoMoreBackslashes(EscapeChars(s[..|s| - 1]));
    }
  }

  lemma {:induction false} TrailingAfterOther(prefix: string, s: string)
    requires prefix != "" && prefix[|prefix| - 1] != '\\'
    ensures TrailingBackslashes(prefix + s) == TrailingBackslashes(s)
    decreases |s|
  {
    if s == "" {
      assert prefix + s == prefix;
    } else if s[|s| - 1] == '\\' {
      assert (prefix + s)[..|prefix + s| - 1] == prefix + s[..|s| - 1];
      TrailingAfterOther(prefix, s[..|s| - 1]);
    }
  }

  /** An escaped value ends in an even number of backslashes, so a printed entry never runs on. */
  lemma PrintedNeverContinues(key: string, value: string)
    ensures !Continues(PrintEntry(key, value))
  {
    EscapeIsCharwise(value);
    EscapedEndsEven(value);
    if value != "" && value[0] == ' ' {
      var rest := EscapeChars(value[1..]);
      assert EscapeChars(value) == " " + rest;
      TrailingAfterOther(" ", rest);
      TrailingAfterOther("\\ ", rest);
      assert "\\" + (" " + rest) == "\\ " + rest;
    }
    TrailingAfterOther(key + "=", EscapeValue(value));
  }
}
