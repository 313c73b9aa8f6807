/** JavaScript string operations the scripts share: `trim`, `split` and `join` on a line break,
    `startsWith`, `endsWith`. */
module Text {
  /** White space and line terminators of ECMAScript, what `trim` strips and `\s` matches. */
  predicate IsSpace(c: char)
  {
    || c in "\t\n\r "
    || c in ['\U{000B}', '\U{000C}', '\U{00A0}', '\U{1680}', '\U{2028}', '\U{2029}', '\U{202F}', '\U{205F}', '\U{3000}', '\U{FEFF}']
    || '\U{2000}' <= c <= '\U{200A}'
  }

  /** What `.` does not match, and `^` and `$` match beside with the flag `m`. */
  predicate IsLineTerminator(c: char) { c in ['\n', '\r', '\U{2028}', '\U{2029}'] }

  function TrimStart(s: string): (r: string)
    ensures |r| <= |s|
  {
    if s != "" && IsSpace(s[0]) then TrimStart(s[1..]) else s
  }

  function TrimEnd(s: string): (r: string)
  {
    if s != "" && IsSpace(s[|s| - 1]) then TrimEnd(s[..|s| - 1]) else s
  }

  function Trim(s: string): (r: string) { TrimEnd(TrimStart(s)) }

  predicate StartsWith(s: string, prefix: string) { prefix <= s }

  predicate EndsWith(s: string, suffix: string)
  {
    |suffix| <= |s| && s[|s| - |suffix|..] == suffix
  }

  predicate IsBlank(s: string) { forall i :: 0 <= i < |s| ==> IsSpace(s[i]) }

  /** `s` neither starts nor ends with white space: `trim` leaves it alone. */
  predicate IsTrimmed(s: string)
  {
    s == "" || (!IsSpace(s[0]) && !IsSpace(s[|s| - 1]))
  }

  lemma {:induction false} TrimStartParts(s: string)
    ensures |TrimStart(s)| <= |s|
    ensures TrimStart(s) == s[|s| - |TrimStart(s)|..]
    ensures IsBlank(s[..|s| - |TrimStart(s)|])
    ensures TrimStart(s) != "" ==> !IsSpace(TrimStart(s)[0])
    decreases |s|
  {
    hide IsSpace;
    if s != "" && IsSpace(s[0]) {
      TrimStartParts(s[1..]);
    }
  }

  lemma {:induction false} TrimEndParts(s: string)
    ensures |TrimEnd(s)| <= |s|
    ensures TrimEnd(s) == s[..|TrimEnd(s)|]
    ensures IsBlank(s[|TrimEnd(s)|..])
    ensures TrimEnd(s) != "" ==> !IsSpace(TrimEnd(s)[|TrimEnd(s)| - 1])
    decreases |s|
  {
    hide IsSpace;
    if s != "" && IsSpace(s[|s| - 1]) {
      var u := s[..|s| - 1];
      TrimEndParts(u);
      var n := |TrimEnd(u)|;
      assert s[..n] == u[..n] && s[n..] == u[n..] + [s[|s| - 1]];
    }
  }

  /** What `trim` returns is trimmed, a slice of the argument, and all of it but white space. */
  lemma TrimParts(s: string)
    ensures IsTrimmed(Trim(s))
    ensures exists i: nat, j: nat :: i <= j <= |s| && Trim(s) == s[i..j] && IsBlank(s[..i]) && IsBlank(s[j..])
  {
    hide TrimStart, TrimEnd, IsSpace;
    var t := TrimStart(s);
    TrimStartParts(s);
    TrimEndParts(t);
    var i := |s| - |t|;
    var j := i + |TrimEnd(t)|;
    assert s[i..j] == t[..|TrimEnd(t)|] && s[j..] == t[|TrimEnd(t)|..];
  }

  lemma {:induction false} TrimStartBlank(blank: string, s: string)
    requires IsBlank(blank)
    ensures TrimStart(blank + s) == TrimStart(s)
    decreases |blank|
  {
    if blank != "" {
      assert (blank + s)[1..] == blank[1..] + s;
      TrimStartBlank(blank[1..], s);
    } else {
      assert blank + s == s;
    }
  }

  lemma {:induction false} TrimEndBlank(s: string, blank: string)
    requires IsBlank(blank)
    ensures TrimEnd(s + blank) == TrimEnd(s)
    decreases |blank|
  {
    if blank != "" {
      assert (s + blank)[..|s + blank| - 1] == s + blank[..|blank| - 1];
      TrimEndBlank(s, blank[..|blank| - 1]);
    } else {
      assert s + blank == s;
    }
  }

  /** Trimming removes exactly the white space around a trimmed text. */
  lemma TrimAround(before: string, s: string, after: string)
    requires IsBlank(before) && IsBlank(after) && IsTrimmed(s)
    ensures Trim(before + s + after) == s
  {
    hide IsBlank, IsSpace;
    assert before + s + after == before + (s + after);
    TrimStartBlank(before, s + after);
    if s == "" {
      assert "" + after == after + "" == after;
      TrimStartBlank(after, "");
    } else {
      assert (s + after)[0] == s[0];
      TrimEndBlank(s, after);
    }
  }

  lemma TrimBlank(s: string)
    ensures Trim(s) == "" <==> IsBlank(s)
  {
    if IsBlank(s) {
      TrimAround(s, "", "");
      assert s + "" + "" == s;
    }
    TrimParts(s);
    var i: nat, j: nat :| i <= j <= |s| && Trim(s) == s[i..j] && IsBlank(s[..i]) && IsBlank(s[j..]);
    if Trim(s) == "" {
      forall k | 0 <= k < |s| ensures IsSpace(s[k]) {
        assert if k < i then s[k] == s[..i][k] else s[k] == s[j..][k - j];
      }
    }
  }

  lemma NothingIsBlank()
    ensures IsBlank("")
  {
  }

  lemma Regrouped(a: string, b: string, c: string)
    ensures (a + b) + c == a + (b + c)
  {
  }

  // ----- lines ----------------------------------------------------------------------------------

  /** `s.split('\n')`. */
  function Lines(s: string): (ls: seq<string>)
    ensures |ls| > 0
  {
    if s == "" then [""]
    else
      var rest := Lines(s[1..]);
      if s[0] == '\n' then [""] + rest else [[s[0]] + rest[0]] + rest[1..]
  }

  /** `ls.join('\n')`. */
  function Join(ls: seq<string>): (s: string)
  {
    if |ls| == 0 then "" else if |ls| == 1 then ls[0] else ls[0] + "\n" + Join(ls[1..])
  }

  predicate IsLine(s: string) { '\n' !in s }

  predicate AreLines(ls: seq<string>) { forall i :: 0 <= i < |ls| ==> IsLine(ls[i]) }

  lemma {:induction false} LinesAreLines(s: string)
    ensures AreLines(Lines(s))
  {
    if s != "" {
      LinesAreLines(s[1..]);
      var rest := Lines(s[1..]);
      assert IsLine(rest[0]) && AreLines(rest[1..]);
      assert s[0] != '\n' ==> IsLine([s[0]] + rest[0]);
    }
  }

  lemma {:induction false} JoinOfLines(s: string)
    ensures Join(Lines(s)) == s
  {
    if s != "" {
      JoinOfLines(s[1..]);
      var rest := Lines(s[1..]);
      if s[0] == '\n' {
        assert ([""] + rest)[1..] == rest;
      } else {
        assert ([[s[0]] + rest[0]] + rest[1..])[1..] == rest[1..];
      }
      assert s == [s[0]] + s[1..];
    }
  }

  lemma {:induction false} LinesOfLine(s: string)
    requires IsLine(s)
    ensures Lines(s) == [s]
  {
    if s != "" {
      assert IsLine(s[1..]) && s[0] in s;
      LinesOfLine(s[1..]);
      assert Lines(s[1..])[1..] == [];
      assert s == [s[0]] + s[1..];
    }
  }

  lemma {:induction false} LinesAfterLine(line: string, s: string)
    requires IsLine(line)
    ensures Lines(line + "\n" + s) == [line] + Lines(s)
    decreases |line|
  {
    var t := line + "\n" + s;
    if line == "" {
      assert t[1..] == s;
    } else {
      assert t[1..] == line[1..] + "\n" + s;
      assert line[0] in line && IsLine(line[1..]);
      LinesAfterLine(line[1..], s);
      assert [line[0]] + line[1..] == line;
      assert ([line[1..]] + Lines(s))[1..] == Lines(s);
    }
  }

  lemma {:induction false} LinesOfJoin(ls: seq<string>)
    requires |ls| > 0 && AreLines(ls)
    ensures Lines(Join(ls)) == ls
  {
    if |ls| == 1 {
      LinesOfLine(ls[0]);
    } else {
      LinesAfterLine(ls[0], Join(ls[1..]));
      LinesOfJoin(ls[1..]);
    }
  }

  lemma JoinFirst(ls: seq<string>)
    requires ls != []
    ensures Join(ls) == if |ls| == 1 then ls[0] else ls[0] + ("\n" + Join(ls[1..]))
  {
    assert |ls| > 1 ==> Join(ls) == ls[0] + "\n" + Join(ls[1..]);
  }

  lemma {:induction false} JoinConcat(a: seq<string>, b: seq<string>)
    requires |a| > 0 && |b| > 0
    ensures Join(a + b) == Join(a) + "\n" + Join(b)
    decreases |a|
  {
    if |a| == 1 {
      assert (a + b)[1..] == b;
    } else {
      assert (a + b)[1..] == a[1..] + b;
      JoinConcat(a[1..], b);
    }
  }

  /** How `Lines` starts. */
  function Before(c: char, lines: seq<string>): (ls: seq<string>)
    requires lines != []
  {
    if c == '\n' then [""] + lines else [[c] + lines[0]] + lines[1..]
  }

  lemma LinesStep(s: string)
    requires s != ""
    ensures Lines(s) == Before(s[0], Lines(s[1..]))
  {
  }

  lemma BreakBefore(lines: seq<string>)
    requires lines != []
    ensures Before('\n', lines) == [""] + lines
  {
  }

  lemma BeforeConcat(c: char, a: seq<string>, b: seq<string>)
    requires a != []
    ensures Before(c, a + b) == Before(c, a) + b
  {
  }

  lemma {:induction false} LinesConcat(s: string, t: string)
    ensures Lines(s + "\n" + t) == Lines(s) + Lines(t)
    decreases |s|
  {
    hide Lines, Before;
    var u := s + "\n" + t;
    LinesStep(u);
    if s == "" {
      assert u[1..] == t;
      LinesOfLine("");
      BreakBefore(Lines(t));
    } else {
      assert u[1..] == s[1..] + "\n" + t;
      LinesConcat(s[1..], t);
      LinesStep(s);
      BeforeConcat(s[0], Lines(s[1..]), Lines(t));
    }
  }

  lemma LinesPlusBreak(s: string)
    ensures Lines(s + "\n") == Lines(s) + [""]
  {
    LinesConcat(s, "");
    assert s + "\n" + "" == s + "\n";
  }

  // ----- searching ------------------------------------------------------------------------------

  predicate OccursAt(s: string, t: string, at: int)
  {
    0 <= at && at + |t| <= |s| && s[at..at + |t|] == t
  }

  /** The first occurrence of `t` in `s` from `at` on, or -1. */
  function IndexFrom(s: string, t: string, at: nat): (r: int)
    ensures r >= 0 ==> at <= r && OccursAt(s, t, r) && forall i :: at <= i < r ==> !OccursAt(s, t, i)
    ensures r < 0 ==> r == -1 && forall i :: at <= i ==> !OccursAt(s, t, i)
    decreases |s| - at
  {
    if at + |t| > |s| then -1
    else if s[at..at + |t|] == t then at
    else IndexFrom(s, t, at + 1)
  }

  /** `s.indexOf(t)`. */
  function IndexOf(s: string, t: string): (r: int) { IndexFrom(s, t, 0) }

  /** `s.includes(t)`. */
  predicate Includes(s: string, t: string) { IndexOf(s, t) >= 0 }

  /** `s.split(sep)` for a one-character separator. */
  function Split(s: string, sep: char): (parts: seq<string>)
    ensures |parts| > 0
  {
    if s == "" then [""]
    else
      var rest := Split(s[1..], sep);
      if s[0] == sep then [""] + rest else [[s[0]] + rest[0]] + rest[1..]
  }

  /** `w` stands at `i` between separators, or the ends of the text. */
  predicate StandsAt(s: string, sep: char, w: string, i: nat)
  {
    OccursAt(s, w, i) && sep !in w && (i == 0 || s[i - 1] == sep) && (i + |w| == |s| || s[i + |w|] == sep)
  }

  ghost predicate StandsLater(s: string, sep: char, w: string) { exists i: nat :: i > 0 && StandsAt(s, sep, w, i) }

  lemma StandsFurther(s: string, sep: char, w: string, i: nat)
    requires s != ""
    ensures StandsAt(s, sep, w, i + 1) <==> StandsAt(s[1..], sep, w, i) && (i == 0 ==> s[0] == sep)
  {
    if i + 1 + |w| <= |s| { assert s[1..][i..i + |w|] == s[i + 1..i + 1 + |w|]; }
  }

  lemma StandsFirst(s: string, sep: char, w: string)
    requires s != ""
    ensures s[0] == sep ==> (StandsAt(s, sep, w, 0) <==> w == "")
    ensures s[0] != sep ==> (StandsAt(s, sep, w, 0) <==> w != "" && w[0] == s[0] && StandsAt(s[1..], sep, w[1..], 0))
  {
    if w != "" && |w| <= |s| && w[0] == s[0] {
      assert w == [w[0]] + w[1..] && s[..|w|] == [s[0]] + s[1..][..|w| - 1];
    }
  }

  lemma StandsLaterThan(s: string, sep: char, w: string)
    requires s != ""
    ensures StandsLater(s, sep, w) <==> StandsLater(s[1..], sep, w) || (s[0] == sep && StandsAt(s[1..], sep, w, 0))
  {
    hide StandsAt;
    forall i: nat ensures StandsAt(s, sep, w, i + 1) <==> StandsAt(s[1..], sep, w, i) && (i == 0 ==> s[0] == sep) {
      StandsFurther(s, sep, w, i);
    }
    if i: nat :| i > 0 && StandsAt(s, sep, w, i) {
      assert StandsAt(s, sep, w, (i - 1) + 1);
      assert i > 1 ==> StandsAt(s[1..], sep, w, i - 1);
    }
    if i: nat :| i > 0 && StandsAt(s[1..], sep, w, i) {
      assert StandsAt(s, sep, w, i + 1) && i + 1 > 0;
    }
    if s[0] == sep && StandsAt(s[1..], sep, w, 0) { assert StandsAt(s, sep, w, 0 + 1); }
  }

  /** The parts of a text are what stands between separators in it; the first part is what stands at its start. */
  lemma {:induction false} SplitStands(s: string, sep: char, w: string)
    ensures w == Split(s, sep)[0] <==> StandsAt(s, sep, w, 0)
    ensures w in Split(s, sep)[1..] <==> StandsLater(s, sep, w)
  {
    if s != "" {
      SplitStands(s[1..], sep, w);
      if w != "" { SplitStands(s[1..], sep, w[1..]); }
      StandsFirst(s, sep, w);
      StandsLaterThan(s, sep, w);
      var rest := Split(s[1..], sep);
      if s[0] == sep {
        assert ([""] + rest)[1..] == rest && rest == [rest[0]] + rest[1..];
      } else {
        assert ([[s[0]] + rest[0]] + rest[1..])[1..] == rest[1..];
        assert w != "" ==> w == [w[0]] + w[1..];
      }
    }
  }

  /** `s.replace(/\s+/g, ' ')`. */
  function Collapse(s: string): (r: string)
    decreases |s|
  {
    if s == "" then ""
    else if IsSpace(s[0]) then " " + Collapse(TrimStart(s[1..]))
    else [s[0]] + Collapse(s[1..])
  }

  /** A word of a text: no white space in it. */
  predicate IsWord(w: string) { w != "" && forall i :: 0 <= i < |w| ==> !IsSpace(w[i]) }

  /** The words with the white space between them. */
  function Spread(words: seq<string>, gaps: seq<string>): (s: string)
    requires |words| == |gaps| + 1
  {
    if gaps == [] then words[0] else words[0] + (gaps[0] + Spread(words[1..], gaps[1..]))
  }

  predicate AreWords(words: seq<string>) { forall i :: 0 <= i < |words| ==> IsWord(words[i]) }

  predicate AreGaps(gaps: seq<string>) { forall i :: 0 <= i < |gaps| ==> gaps[i] != "" && IsBlank(gaps[i]) }

  /** Single spaces. */
  function Singles(n: nat): (gaps: seq<string>)
    ensures |gaps| == n
  {
    if n == 0 then [] else [" "] + Singles(n - 1)
  }

  lemma {:induction false} CollapseWord(w: string, rest: string)
    requires forall i :: 0 <= i < |w| ==> !IsSpace(w[i])
    ensures Collapse(w + rest) == w + Collapse(rest)
    decreases |w|
  {
    hide IsSpace;
    if w == "" {
      assert w + rest == rest;
    } else {
      assert (w + rest)[1..] == w[1..] + rest;
      CollapseWord(w[1..], rest);
    }
  }

  lemma CollapseGap(gap: string, rest: string)
    requires gap != "" && IsBlank(gap) && IsTrimmed(rest)
    ensures Collapse(gap + rest) == " " + Collapse(rest)
  {
    hide IsSpace;
    assert (gap + rest)[1..] == gap[1..] + rest;
    TrimStartBlank(gap[1..], rest);
  }

  lemma {:induction false} SpreadIsTrimmed(words: seq<string>, gaps: seq<string>)
    requires |words| == |gaps| + 1 && AreWords(words)
    ensures IsTrimmed(Spread(words, gaps)) && Spread(words, gaps) != ""
  {
    hide IsSpace;
    if gaps != [] {
      SpreadIsTrimmed(words[1..], gaps[1..]);
      var rest := Spread(words[1..], gaps[1..]);
      assert rest[|rest| - 1] == (words[0] + (gaps[0] + rest))[|words[0]| + |gaps[0]| + |rest| - 1];
    }
  }

  /** `replace` leaves one space between the words. */
  lemma {:induction false} CollapseWords(words: seq<string>, gaps: seq<string>)
    requires |words| == |gaps| + 1 && AreWords(words) && AreGaps(gaps)
    ensures Collapse(Spread(words, gaps)) == Spread(words, Singles(|gaps|))
    decreases |gaps|
  {
    hide IsSpace, Collapse, IsBlank, IsTrimmed;
    if gaps == [] {
      CollapseWord(words[0], "");
      CollapseNothing();
      assert words[0] + "" == words[0];
    } else {
      var rest := Spread(words[1..], gaps[1..]);
      CollapseWord(words[0], gaps[0] + rest);
      SpreadIsTrimmed(words[1..], gaps[1..]);
      CollapseGap(gaps[0], rest);
      CollapseWords(words[1..], gaps[1..]);
      assert Singles(|gaps|)[1..] == Singles(|gaps[1..]|);
    }
  }

  lemma CollapseNothing()
    ensures Collapse("") == ""
  {
  }
}
