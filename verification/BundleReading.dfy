/** What is read of any bundle: which lines are its own, which are entries, and what the value of an entry is. */
module BundleReading {
  import opened Text
  import opened PropertyValues
  import opened PropertiesBundle
  import opened BundleRuns
  import opened Wrappers

  // ----- the line of a key ----------------------------------------------------------------------

  /** White space, a key, white space, a separator and a value. */
  ghost predicate IsKeyed(line: string, key: string, rest: string)
  {
    IsKey(key) && exists before, between, separator ::
      && IsBlank(before) && IsBlank(between) && separator in ["=", ":"]
      && line == before + (key + (between + (separator + rest)))
  }

  lemma SeparatorIsNoKeyChar(c: char)
    requires IsSpace(c) || c in "=:"
    ensures !IsKeyChar(c)
  {
  }

  lemma KeyIsNoSpace(key: string, rest: string)
    requires IsKey(key)
    ensures TrimStart(key + rest) == key + rest && StartsWith(key + rest, "schema.")
  {
    assert key[0] == key[..7][0] == 's';
    assert (key + rest)[..7] == key[..7];
  }

  lemma MatchesKeyed(before: string, key: string, between: string, separator: string, rest: string)
    requires IsKey(key) && IsBlank(before) && IsBlank(between) && separator in ["=", ":"]
    ensures MatchKey(before + (key + (between + (separator + rest)))) == Some((key, rest))
  {
    hide IsSpace, IsKeyChar, TrimStart;
    var behind := between + (separator + rest);
    var t := key + behind;
    TrimStartBlank(before, t);
    KeyIsNoSpace(key, behind);
    assert behind[0] == if between == "" then separator[0] else between[0];
    SeparatorIsNoKeyChar(behind[0]);
    assert t[7..] == key[7..] + behind;
    KeyRunOfKey(key[7..], behind);
    assert t[..|key|] == key && t[|key|..] == behind;
    TrimStartBlank(between, separator + rest);
    SeparatorStays(separator, rest);
    assert (separator + rest)[1..] == rest;
  }

  lemma SeparatorStays(separator: string, rest: string)
    requires separator in ["=", ":"]
    ensures TrimStart(separator + rest) == separator + rest
  {
  }

  lemma KeyRunIsKey(t: string)
    requires StartsWith(t, "schema.") && KeyRun(t[7..]) > 0
    ensures IsKey(t[..7 + KeyRun(t[7..])])
  {
    KeyRunChars(t[7..]);
    var key := t[..7 + KeyRun(t[7..])];
    assert key[..7] == t[..7];
    forall i | 7 <= i < |key| ensures IsKeyChar(key[i]) { assert key[i] == t[7..][i - 7]; }
  }

  lemma {:induction false} KeyRunChars(s: string)
    ensures forall i :: 0 <= i < KeyRun(s) ==> IsKeyChar(s[i])
  {
    if s != "" && IsKeyChar(s[0]) { KeyRunChars(s[1..]); }
  }

  lemma MatchedIsKeyed(line: string)
    requires MatchKey(line).Some?
    ensures IsKeyed(line, MatchKey(line).value.0, MatchKey(line).value.1)
  {
    hide IsSpace, IsKeyChar, TrimStart, IsKey, IsBlank, KeyRun;
    var t := TrimStart(line);
    var (key, rest) := MatchKey(line).value;
    var before := line[..|line| - |t|];
    TrimStartParts(line);
    KeyRunIsKey(t);
    var behind := t[|key|..];
    var u := TrimStart(behind);
    var between := behind[..|behind| - |u|];
    TrimStartParts(behind);
    var separator := [u[0]];
    assert separator == "=" || separator == ":";
    assert u == separator + rest && behind == between + u && t == key + behind && line == before + t;
  }

  /** A line is matched as a key's exactly when it is written so. */
  lemma MatchesExactlyWhen(line: string, key: string, rest: string)
    ensures MatchKey(line) == Some((key, rest)) <==> IsKeyed(line, key, rest)
  {
    hide MatchKey, IsKey, IsBlank;
    if MatchKey(line) == Some((key, rest)) { MatchedIsKeyed(line); }
    if IsKeyed(line, key, rest) {
      var before, between, separator :| IsBlank(before) && IsBlank(between) && separator in ["=", ":"]
        && line == before + (key + (between + (separator + rest)));
      MatchesKeyed(before, key, between, separator, rest);
    }
  }

  // ----- splitting any file ---------------------------------------------------------------------

  /** A line of the bundle's own, a line of the header, or an entry with all its lines. */
  datatype Stretch = Own(line: string) | Head(line: string) | Entry(key: string, raw: string)

  function StretchLines(s: Stretch): (lines: seq<string>) { if s.Entry? then Lines(s.raw) else [s.line] }

  function AllLines(stretches: seq<Stretch>): (lines: seq<string>)
  {
    if stretches == [] then [] else StretchLines(stretches[0]) + AllLines(stretches[1..])
  }

  function OwnOf(stretches: seq<Stretch>): (own: seq<string>)
  {
    if stretches == [] then [] else (if stretches[0].Own? then [stretches[0].line] else []) + OwnOf(stretches[1..])
  }

  function EntriesOf(stretches: seq<Stretch>): (entries: Pairs)
  {
    if stretches == [] then []
    else (if stretches[0].Entry? then [(stretches[0].key, stretches[0].raw)] else []) + EntriesOf(stretches[1..])
  }

  /** An own line is none of the header's and no key's; an entry's lines all continue, but the last only at the file's end. */
  ghost predicate IsStretch(s: Stretch, isLast: bool)
  {
    match s
    case Own(line) => line !in Header() && forall key, rest :: !IsKeyed(line, key, rest)
    case Head(line) => line in Header()
    case Entry(key, raw) => IsRaw(key, raw) && (Dangles(raw) ==> isLast)
  }

  ghost predicate AreStretches(stretches: seq<Stretch>)
  {
    forall i :: 0 <= i < |stretches| ==> IsStretch(stretches[i], i == |stretches| - 1)
  }

  lemma LineIsNoKey(line: string)
    ensures MatchKey(line).None? <==> forall key, rest :: !IsKeyed(line, key, rest)
  {
    hide MatchKey, IsKeyed;
    if MatchKey(line).Some? {
      MatchesExactlyWhen(line, MatchKey(line).value.0, MatchKey(line).value.1);
    }
    if key, rest :| IsKeyed(line, key, rest) { MatchesExactlyWhen(line, key, rest); }
  }

  lemma FirstStretch(s: Stretch, rest: seq<string>)
    requires IsStretch(s, rest == [])
    ensures OwnLines(StretchLines(s) + rest) == (if s.Own? then [s.line] else []) + OwnLines(rest)
    ensures RawEntries(StretchLines(s) + rest) == (if s.Entry? then [(s.key, s.raw)] else []) + RawEntries(rest)
  {
    hide Header, MatchKey, EntryLength, Join, OwnLines, RawEntries, Lines, IsKeyed;
    var all := StretchLines(s) + rest;
    match s
    case Own(line) =>
      LineIsNoKey(line);
      assert all[0] == line && all[1..] == rest;
      SplitStep(all, 1);
    case Head(line) =>
      assert all[0] == line && all[1..] == rest;
      SplitStep(all, 1);
    case Entry(key, raw) =>
      var lines := Lines(raw);
      EntryTakes(lines, rest);
      assert all[..|lines|] == lines && all[|lines|..] == rest && all[0] == lines[0];
      JoinOfLines(raw);
      KeyLineIsNotOwn(all[0]);
      SplitStep(all, |lines|);
  }

  /** Splitting gives the own lines and the entries of the file, in order. */
  lemma {:induction false} SplitsStretches(stretches: seq<Stretch>)
    requires AreStretches(stretches)
    ensures OwnLines(AllLines(stretches)) == OwnOf(stretches) && RawEntries(AllLines(stretches)) == EntriesOf(stretches)
    decreases |stretches|
  {
    hide OwnLines, RawEntries, IsStretch, StretchLines;
    if stretches == [] {
      SplitNothing();
    } else {
      var rest := stretches[1..];
      forall i | 0 <= i < |rest| ensures IsStretch(rest[i], i == |rest| - 1) { assert rest[i] == stretches[i + 1]; }
      SplitsStretches(rest);
      LinesAreThere(rest);
      FirstStretch(stretches[0], AllLines(rest));
    }
  }

  lemma LinesAreThere(stretches: seq<Stretch>)
    ensures AllLines(stretches) == [] <==> stretches == []
  {
  }

  /** Every file is made of such stretches. */
  lemma {:induction false} FileHasStretches(lines: seq<string>) returns (stretches: seq<Stretch>)
    requires AreLines(lines)
    ensures AreStretches(stretches) && AllLines(stretches) == lines
    decreases |lines|
  {
    hide Header, MatchKey, EntryLength, Lines, IsKeyed, IsRaw, Dangles, IsLine, Join;
    stretches := [];
    if lines != [] {
      var n := if IsKeyLine(lines[0]) then EntryLength(lines) else 1;
      var rest := FileHasStretches(lines[n..]);
      var first := StretchAt(lines, n);
      LinesAreThere(rest);
      stretches := [first] + rest;
      assert stretches[1..] == rest;
      forall i | 0 <= i < |stretches| ensures IsStretch(stretches[i], i == |stretches| - 1) {
        if i > 0 { assert stretches[i] == rest[i - 1]; }
      }
      assert lines == lines[..n] + lines[n..];
    }
  }

  lemma StretchAt(lines: seq<string>, n: nat) returns (s: Stretch)
    requires AreLines(lines) && lines != [] && n == if IsKeyLine(lines[0]) then EntryLength(lines) else 1
    ensures IsStretch(s, n == |lines|) && StretchLines(s) == lines[..n]
  {
    hide Header, MatchKey, EntryLength, Lines, IsKeyed, IsRaw, Dangles, IsLine, Join;
    LineIsNoKey(lines[0]);
    if IsKeyLine(lines[0]) {
      EntryIsRaw(lines);
      FirstLines(lines, n);
      LinesOfJoin(lines[..n]);
      s := Entry(MatchKey(lines[0]).value.0, Join(lines[..n]));
    } else {
      s := if lines[0] in Header() then Head(lines[0]) else Own(lines[0]);
      assert lines[..1] == [lines[0]];
    }
  }

  /** What splitting finds in any file: its own lines up to the last that is not blank, and for every key its last entry. */
  lemma SplitOfFile(text: string) returns (stretches: seq<Stretch>)
    ensures AreStretches(stretches) && AllLines(stretches) == Lines(text)
    ensures SplitOf(text) == Bundle(DropBlankEnd(OwnOf(stretches)), ToMap(EntriesOf(stretches)))
  {
    hide Lines, OwnLines, RawEntries, AreStretches, AreLines, DropBlankEnd, ToMap;
    LinesAreLines(text);
    stretches := FileHasStretches(Lines(text));
    SplitsStretches(stretches);
  }

  /** Dropping the end leaves everything up to the last line that is not blank. */
  lemma {:induction false} DropsBlankEnd(own: seq<string>)
    ensures var n := |DropBlankEnd(own)|;
      && n <= |own| && DropBlankEnd(own) == own[..n]
      && (forall i :: n <= i < |own| ==> IsBlank(own[i])) && (n > 0 ==> !IsBlank(own[n - 1]))
  {
    hide Trim, IsBlank;
    if own != [] {
      var last := own[|own| - 1];
      TrimBlank(last);
      if Trim(last) == "" { DropsBlankEnd(own[..|own| - 1]); }
    }
  }

  // ----- values ---------------------------------------------------------------------------------

  function HexDigit(d: nat, capital: bool): (c: char)
    requires d < 16
  {
    if capital then "0123456789ABCDEF"[d] else "0123456789abcdef"[d]
  }

  function HexCode(n: nat, capital: bool): (s: string)
    requires n < 0x1_0000
  {
    [HexDigit(n / 4096, capital), HexDigit(n / 256 % 16, capital), HexDigit(n / 16 % 16, capital), HexDigit(n % 16, capital)]
  }

  lemma HexDigitValue(d: nat, capital: bool)
    requires d < 16
    ensures IsHex(HexDigit(d, capital)) && HexValue(HexDigit(d, capital)) == d
  {
  }

  /** A Unicode escape, in small letters or capitals, reads as the character with that code. */
  lemma UnicodeReads(n: nat, capital: bool, rest: string)
    requires n < 0xD800 || 0xE000 <= n < 0x1_0000
    ensures Unescape("\\u" + HexCode(n, capital) + rest) == [n as char] + Unescape(rest)
  {
    hide HexDigit, HexValue;
    var (a, b, c, d) := (n / 4096, n / 256 % 16, n / 16 % 16, n % 16);
    HexDigitValue(a, capital);
    HexDigitValue(b, capital);
    HexDigitValue(c, capital);
    HexDigitValue(d, capital);
    var s := "\\u" + HexCode(n, capital) + rest;
    assert s[0] == '\\' && s[1] == 'u' && s[2..6] == HexCode(n, capital) && s[6..] == rest;
    assert s[2] == HexCode(n, capital)[0] && s[3] == HexCode(n, capital)[1] && s[4] == HexCode(n, capital)[2] && s[5] == HexCode(n, capital)[3];
    FourDigits(n);
  }

  lemma FourDigits(n: nat)
    requires n < 0x1_0000
    ensures ((n / 4096 * 16 + n / 256 % 16) * 16 + n / 16 % 16) * 16 + n % 16 == n
  {
    assert n / 16 == n / 256 * 16 + n / 16 % 16 by { assert n / 16 / 16 == n / 256; }
    assert n / 256 == n / 4096 * 16 + n / 256 % 16 by { assert n / 256 / 16 == n / 4096; }
  }

  /** The other escapes: a letter for white space, and any other character for itself. */
  lemma LetterReads(c: char, rest: string)
    requires c != 'u' && !IsLineTerminator(c)
    ensures Unescape("\\" + [c] + rest)
         == [match c case 'n' => '\n' case 't' => '\t' case 'r' => '\r' case 'f' => '\U{000C}' case _ => c] + Unescape(rest)
  {
    var s := "\\" + [c] + rest;
    assert s[0] == '\\' && s[1] == c && s[2..] == rest;
  }

  /** Pieces of a value over several lines: each but the last ends in a backslash, each but the first may be indented. */
  function Continued(pieces: seq<string>, indents: seq<string>): (lines: seq<string>)
    requires |indents| == |pieces| > 0
  {
    if |pieces| == 1 then [indents[0] + pieces[0]]
    else [indents[0] + pieces[0] + "\\"] + Continued(pieces[1..], indents[1..])
  }

  function Together(pieces: seq<string>): (s: string) { if pieces == [] then "" else pieces[0] + Together(pieces[1..]) }

  predicate StartClean(pieces: seq<string>)
  {
    forall i :: 0 <= i < |pieces| ==> pieces[i] != "" && !IsSpace(pieces[i][0])
  }

  lemma {:induction false} JoinsPieces(joined: string, pieces: seq<string>, indents: seq<string>)
    requires |indents| == |pieces| > 0 && StartClean(pieces) && forall i :: 0 <= i < |indents| ==> IsBlank(indents[i])
    ensures JoinContinued(joined + "\\", Continued(pieces, indents)) == joined + Together(pieces)
    decreases |pieces|
  {
    hide IsSpace, IsBlank;
    var (first, lines) := (pieces[0], Continued(pieces, indents));
    assert (joined + "\\")[..|joined|] == joined;
    if |pieces| == 1 {
      CleanStays(indents[0], first);
      assert lines[1..] == [] && Together(pieces[1..]) == "" && first + "" == first;
      assert JoinContinued(joined + TrimStart(lines[0]), []) == joined + first;
    } else {
      CleanStays(indents[0], first + "\\");
      assert indents[0] + first + "\\" == indents[0] + (first + "\\");
      assert lines[1..] == Continued(pieces[1..], indents[1..]);
      JoinsPieces(joined + first, pieces[1..], indents[1..]);
      assert joined + (first + "\\") == (joined + first) + "\\";
      assert (joined + first) + Together(pieces[1..]) == joined + (first + Together(pieces[1..]));
    }
  }

  lemma CleanStays(indent: string, s: string)
    requires IsBlank(indent) && s != "" && !IsSpace(s[0])
    ensures TrimStart(indent + s) == s
  {
    TrimStartBlank(indent, s);
  }

  /** An entry over several lines reads as the one with its pieces on one line. */
  lemma ContinuationIsJoined(start: string, pieces: seq<string>, indents: seq<string>)
    requires |indents| == |pieces| > 0 && StartClean(pieces) && forall i :: 0 <= i < |indents| ==> IsBlank(indents[i])
    requires IsLine(start) && AreLines(Continued(pieces, indents)) && IsLine(start + Together(pieces))
    ensures ParseValue(Join([start + "\\"] + Continued(pieces, indents))) == ParseValue(start + Together(pieces))
  {
    hide Lines, Join, MatchKey, Unescape, JoinContinued, StartClean, IsBlank, Together, Continued, TrimStart;
    var (first, more) := (start + "\\", Continued(pieces, indents));
    assert AreLines([first] + more);
    LinesOfJoin([first] + more);
    assert ([first] + more)[1..] == more;
    JoinsPieces(start, pieces, indents);
    var one := start + Together(pieces);
    LinesOfLine(one);
    NothingContinued(one);
    assert [one][1..] == [] && ([first] + more)[0] == first;
  }

  lemma NothingContinued(joined: string)
    ensures JoinContinued(joined, []) == joined
  {
  }
}
