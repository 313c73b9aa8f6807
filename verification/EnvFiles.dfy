/** The env files of the Docker setup: how one is read, and how one is rewritten keeping its comments. */
module EnvFiles {
  import opened Text

  datatype Assignment = Nothing | Assigns(key: string, value: string)

  type Env = map<string, string>

  /** What one line of an env file assigns. */
  function AssignmentOf(line: string): (a: Assignment)
  {
    var t := Trim(line);
    if t == "" || StartsWith(t, "#") then Nothing
    else
      var i := IndexOf(t, "=");
      if i > 0 then Assigns(Trim(t[..i]), Trim(t[i + 1..])) else Nothing
  }

  function Assign(env: Env, a: Assignment): (r: Env)
  {
    match a
    case Nothing => env
    case Assigns(key, value) => env[key := value]
  }

  /** Later assignments to a key win. */
  function EnvOfLines(lines: seq<string>): (env: Env)
  {
    if lines == [] then map[]
    else Assign(EnvOfLines(lines[..|lines| - 1]), AssignmentOf(lines[|lines| - 1]))
  }

  function EnvOf(content: string): (env: Env) { EnvOfLines(Lines(content)) }

  method ParseEnvFile(content: string) returns (env: Env)
    ensures env == EnvOf(content)
  {
    hide Lines, Trim, IndexFrom;
    var lines := Lines(content);
    env := map[];
    var i := 0;
    while i < |lines|
      invariant 0 <= i <= |lines| && env == EnvOfLines(lines[..i])
    {
      assert lines[..i + 1][..i] == lines[..i];
      var line := Trim(lines[i]);
      if line != "" && !StartsWith(line, "#") {
        var separator := IndexOf(line, "=");
        if separator > 0 {
          env := env[Trim(line[..separator]) := Trim(line[separator + 1..])];
        }
      }
      i := i + 1;
    }
    assert lines[..|lines|] == lines;
  }

  // ----- rewriting ------------------------------------------------------------------------------

  function Get(env: Env, key: string): (value: string) { if key in env then env[key] else "" }

  predicate NeedsQuotes(key: string, value: string) { key == "CLIENT_SECRET" && ('$' in value || '=' in value) }

  /** What the rewriting puts behind `key=`, if it changes the line. */
  function NewText(key: string, updates: Env): (text: Assignment)
  {
    if key in updates then
      Assigns(key, if NeedsQuotes(key, updates[key]) then "'" + updates[key] + "'" else updates[key])
    else if key == "cds.requires.db.credentials.user" && Get(updates, "POSTGRES_USER") !in ["", "admin_user"] then
      Assigns(key, updates["POSTGRES_USER"])
    else if key == "cds.requires.db.credentials.password" && Get(updates, "POSTGRES_PASSWORD") != "" then
      Assigns(key, updates["POSTGRES_PASSWORD"])
    else Nothing
  }

  function UpdateLine(line: string, updates: Env): (r: string)
  {
    var t := Trim(line);
    if t == "" || StartsWith(t, "#") then line
    else
      var i := IndexOf(line, "=");
      if i <= 0 then line
      else
        var text := NewText(Trim(line[..i]), updates);
        if text.Assigns? then text.key + "=" + text.value else line
  }

  function UpdateLines(lines: seq<string>, updates: Env): (r: seq<string>)
    ensures |r| == |lines|
  {
    if lines == [] then [] else UpdateLines(lines[..|lines| - 1], updates) + [UpdateLine(lines[|lines| - 1], updates)]
  }

  /** `template` with the values of `updates`, every other line as it is. */
  function UpdateEnv(template: string, updates: Env): (content: string)
  {
    Join(UpdateLines(Lines(template), updates))
  }

  /** An update a line of an env file can hold. */
  predicate AreLineValues(updates: Env)
  {
    "" !in updates && forall key :: key in updates ==> IsLine(updates[key])
  }

  /** The value the rewritten file assigns where the template assigned `value`. */
  function Updated(key: string, value: string, updates: Env): (r: string)
  {
    var text := NewText(key, updates);
    if text.Assigns? then Trim(text.value) else value
  }

  // ----- what the rewritten file says -----------------------------------------------------------

  lemma IndexOfEquals(key: string, rest: string)
    requires '=' !in key
    ensures IndexOf(key + "=" + rest, "=") == |key|
  {
    var s := key + "=" + rest;
    assert OccursAt(s, "=", |key|);
    forall k | 0 <= k < |key| ensures !OccursAt(s, "=", k) {
      assert s[k] == key[k] && s[k..k + 1][0] == s[k];
    }
  }

  lemma NoEquals(s: string)
    ensures IndexOf(s, "=") < 0 <==> '=' !in s
    ensures IndexOf(s, "=") >= 0 ==> var i := IndexOf(s, "=");
            i < |s| && s == s[..i] + "=" + s[i + 1..] && '=' !in s[..i]
  {
    var i := IndexOf(s, "=");
    if i >= 0 {
      assert OccursAt(s, "=", i) && s[i..i + 1][0] == s[i];
      forall k | 0 <= k < i ensures s[k] != '=' {
        if s[k] == '=' { assert s[k..k + 1] == "="; assert OccursAt(s, "=", k); }
      }
    } else {
      forall k | 0 <= k < |s| ensures s[k] != '=' {
        if s[k] == '=' { assert s[k..k + 1] == "="; assert OccursAt(s, "=", k); }
      }
    }
  }

  /** White space around a text does not move its first `=` relative to it. */
  lemma SeparatorInside(before: string, t: string, after: string)
    requires IsBlank(before) && IsBlank(after)
    ensures var line := before + t + after; var i := IndexOf(line, "=");
      && (i < 0 <==> IndexOf(t, "=") < 0)
      && (i >= 0 ==> IndexOf(t, "=") <= i < |line| && IndexOf(t, "=") < |t|
                     && Trim(line[..i]) == Trim(t[..IndexOf(t, "=")]))
  {
    hide Trim, IndexOf, IsBlank;
    BlankHasNoEquals(before);
    BlankHasNoEquals(after);
    NoEquals(t);
    NoEquals(before + t + after);
    if '=' in t {
      var i := IndexOf(t, "=");
      var (key, rest) := (before + t[..i], t[i + 1..] + after);
      assert before + t + after == key + "=" + rest;
      IndexOfEquals(key, rest);
      assert (key + "=" + rest)[..|key|] == key;
      TrimBlankBefore(before, t[..i]);
    }
  }

  lemma SameSeparator(line: string)
    ensures var (t, i) := (Trim(line), IndexOf(line, "="));
      && (i < 0 <==> IndexOf(t, "=") < 0)
      && (i >= 0 ==> IndexOf(t, "=") <= i < |line| && IndexOf(t, "=") < |t|
                     && Trim(line[..i]) == Trim(t[..IndexOf(t, "=")]))
  {
    hide Trim, IndexOf, IsBlank;
    var a, b := TrimAt(line);
    assert line == line[..a] + line[a..b] + line[b..];
    SeparatorInside(line[..a], line[a..b], line[b..]);
  }

  lemma TrimAt(s: string) returns (a: nat, b: nat)
    ensures a <= b <= |s| && Trim(s) == s[a..b] && IsBlank(s[..a]) && IsBlank(s[b..])
  {
    hide Trim, IsBlank;
    TrimParts(s);
    a, b :| a <= b <= |s| && Trim(s) == s[a..b] && IsBlank(s[..a]) && IsBlank(s[b..]);
  }

  lemma BlankHasNoEquals(s: string)
    requires IsBlank(s)
    ensures '=' !in s
  {
    assert !IsSpace('=');
  }

  lemma TrimBlankBefore(blank: string, s: string)
    requires IsBlank(blank)
    ensures Trim(blank + s) == Trim(s)
  {
    TrimStartBlank(blank, s);
  }

  /** A line as the rewriting writes it assigns exactly its value, trimmed, to its key. */
  lemma WrittenAssigns(key: string, value: string)
    requires IsTrimmed(key) && key != "" && key[0] != '#' && '=' !in key
    ensures AssignmentOf(key + "=" + value) == Assigns(key, Trim(value))
  {
    hide Trim, IndexOf, IsBlank, IsSpace;
    var a, b := TrimAt(value);
    var kept := if a == b then "" else value[..b];
    WrittenTrimmed(key, value, a, b);
    assert Trim(key + "=" + value) == key + "=" + kept;
    var t := key + "=" + kept;
    IndexOfEquals(key, kept);
    assert t[..|key|] == key && t[|key| + 1..] == kept && t[0] == key[0];
    TrimTrimmed(key);
  }

  lemma WrittenTrimmed(key: string, value: string, a: nat, b: nat)
    requires IsTrimmed(key) && key != "" && a <= b <= |value|
    requires Trim(value) == value[a..b] && IsBlank(value[..a]) && IsBlank(value[b..])
    ensures var kept := if a == b then "" else value[..b];
            Trim(key + "=" + value) == key + "=" + kept && Trim(kept) == Trim(value)
  {
    hide Trim, IsBlank, IsSpace;
    NotSpaces();
    TrimParts(value);
    if a == b {
      BlankJoin(value[..a], value[b..]);
      assert value == value[..a] + value[b..];
      assert ("" + (key + "=")) + value == key + "=" + value;
      NothingIsBlank();
      TrimAround("", key + "=", value);
      TrimTrimmed("");
    } else {
      var t := key + "=" + value[..b];
      assert t[|t| - 1] == value[b - 1] == value[a..b][b - a - 1];
      assert "" + t + value[b..] == key + "=" + value;
      NothingIsBlank();
      TrimAround("", t, value[b..]);
      assert value[..a] + value[a..b] + "" == value[..b];
      TrimAround(value[..a], value[a..b], "");
    }
  }

  lemma NotSpaces()
    ensures !IsSpace('=')
  {
  }

  lemma BlankJoin(a: string, b: string)
    requires IsBlank(a) && IsBlank(b)
    ensures IsBlank(a + b)
  {
    hide IsSpace;
  }

  lemma TrimTrimmed(s: string)
    requires IsTrimmed(s)
    ensures Trim(s) == s
  {
    hide IsSpace;
    NothingIsBlank();
    TrimAround("", s, "");
    assert "" + s + "" == s;
  }

  lemma NewTextKeepsKey(key: string, updates: Env)
    ensures NewText(key, updates).Assigns? ==> NewText(key, updates).key == key
  {
  }

  lemma NoUpdateForNoKey(updates: Env)
    requires "" !in updates
    ensures NewText("", updates).Nothing?
  {
  }

  lemma BlankEnds(s: string, a: nat, b: nat)
    requires a <= b <= |s| && IsBlank(s[..a]) && IsBlank(s[b..])
    ensures forall i :: 0 <= i < a || b <= i < |s| ==> IsSpace(s[i])
  {
    hide IsSpace;
    forall i | 0 <= i < a || b <= i < |s| ensures IsSpace(s[i]) {
      if i < a { assert s[i] == s[..a][i]; } else { assert s[i] == s[b..][i - b]; }
    }
  }

  /** The key of an assigning line can be written at the start of a line. */
  lemma KeyIsClean(line: string, n: nat)
    requires var t := Trim(line); 0 < n < |t| && !StartsWith(t, "#") && '=' !in t[..n]
    ensures var key := Trim(Trim(line)[..n]); IsTrimmed(key) && key != "" && key[0] != '#' && '=' !in key
  {
    hide Trim, IsSpace;
    var before := Trim(line)[..n];
    TrimParts(line);
    TrimParts(before);
    var a, b := TrimAt(before);
    assert before[0] == Trim(line)[0] != '#' by { assert Trim(line)[0] == '#' ==> "#" <= Trim(line); }
    BlankEnds(before, a, b);
  }

  lemma TrimIsLine(s: string)
    requires IsLine(s)
    ensures IsLine(Trim(s))
  {
    hide Trim, IsBlank;
    var i, j := TrimAt(s);
  }

  /** Every key keeps its place, with the value the update gives it. */
  function UpdatedEnv(env: Env, updates: Env): (r: Env)
  {
    map key | key in env :: Updated(key, env[key], updates)
  }

  // ----- any values, line breaks included -------------------------------------------------------

  /** `env` with the assignments of `lines` made in turn. */
  function AssignLines(env: Env, lines: seq<string>): (r: Env)
  {
    if lines == [] then env else Assign(AssignLines(env, lines[..|lines| - 1]), AssignmentOf(lines[|lines| - 1]))
  }

  /** What a template's assignment becomes: the key gets the first line of its text, and the text's other lines are lines
      of the file. */
  function Rewritten(env: Env, a: Assignment, updates: Env): (r: Env)
  {
    match a
    case Nothing => env
    case Assigns(key, value) =>
      var text := NewText(key, updates);
      if text.Nothing? then env[key := value]
      else AssignLines(env[key := Trim(Lines(text.value)[0])], Lines(text.value)[1..])
  }

  function Said(lines: seq<string>, updates: Env): (env: Env)
  {
    if lines == [] then map[]
    else Rewritten(Said(lines[..|lines| - 1], updates), AssignmentOf(lines[|lines| - 1]), updates)
  }

  lemma {:induction false} AssignInTurn(a: seq<string>, b: seq<string>)
    ensures EnvOfLines(a + b) == AssignLines(EnvOfLines(a), b)
    decreases |b|
  {
    hide AssignmentOf;
    if b == [] {
      assert a + b == a;
    } else {
      assert (a + b)[..|a + b| - 1] == a + b[..|b| - 1];
      AssignInTurn(a, b[..|b| - 1]);
    }
  }

  lemma AssignOne(env: Env, line: string)
    ensures AssignLines(env, [line]) == Assign(env, AssignmentOf(line))
  {
    hide AssignmentOf;
    assert [line][..0] == [];
  }

  lemma {:induction false} AssignFirst(env: Env, line: string, rest: seq<string>)
    ensures AssignLines(env, [line] + rest) == AssignLines(Assign(env, AssignmentOf(line)), rest)
    decreases |rest|
  {
    hide AssignmentOf;
    if rest == [] {
      AssignOne(env, line);
      assert [line] + rest == [line];
    } else {
      assert ([line] + rest)[..|rest|] == [line] + rest[..|rest| - 1];
      AssignFirst(env, line, rest[..|rest| - 1]);
    }
  }

  lemma OnlyOne(line: string)
    ensures Join([line]) == line
  {
  }

  /** A line written with any value: the key and the value's first line, then the value's other lines. */
  lemma LinesOfWritten(key: string, value: string)
    requires IsLine(key)
    ensures Lines(key + "=" + value) == [key + "=" + Lines(value)[0]] + Lines(value)[1..]
  {
    hide Lines, Join;
    var lines := Lines(value);
    LinesAreLines(value);
    JoinOfLines(value);
    var first := key + "=" + lines[0];
    assert IsLine(first);
    OnlyOne(lines[0]);
    if |lines| == 1 {
      assert lines == [lines[0]] && lines[1..] == [];
      LinesOfLine(first);
    } else {
      assert lines == [lines[0]] + lines[1..];
      JoinConcat([lines[0]], lines[1..]);
      assert key + "=" + value == first + "\n" + Join(lines[1..]);
      LinesAfterLine(first, Join(lines[1..]));
      LinesOfJoin(lines[1..]);
    }
  }

  lemma UpdatedLineSays(env: Env, line: string, updates: Env)
    requires "" !in updates && IsLine(line)
    ensures AssignLines(env, Lines(UpdateLine(line, updates))) == Rewritten(env, AssignmentOf(line), updates)
  {
    hide Trim, IndexOf, NewText, IsLine, Lines, AssignLines, IsTrimmed;
    var t := Trim(line);
    LinesOfLine(line);
    AssignOne(env, line);
    if t != "" && !StartsWith(t, "#") {
      SameSeparator(line);
      NoEquals(t);
      var (i, n) := (IndexOf(line, "="), IndexOf(t, "="));
      if n > 0 {
        var key := Trim(t[..n]);
        KeyIsClean(line, n);
        KeyIsLine(line, i);
        if NewText(key, updates).Assigns? {
          NewTextKeepsKey(key, updates);
          var value := NewText(key, updates).value;
          LinesOfWritten(key, value);
          WrittenAssigns(key, Lines(value)[0]);
          AssignFirst(env, key + "=" + Lines(value)[0], Lines(value)[1..]);
        }
      } else if n == 0 && i > 0 {
        assert t[..n] == "";
        NothingTrims();
        NoUpdateForNoKey(updates);
      }
    }
  }

  lemma NothingTrims()
    ensures Trim("") == ""
  {
    TrimTrimmed("");
  }

  lemma KeyIsLine(line: string, i: int)
    requires IsLine(line) && 0 <= i <= |line|
    ensures IsLine(Trim(line[..i]))
  {
    hide Trim;
    TrimIsLine(line[..i]);
  }

  /** The lines of each of `parts`, in turn. */
  function LinesOfAll(parts: seq<string>): (lines: seq<string>)
  {
    if parts == [] then [] else LinesOfAll(parts[..|parts| - 1]) + Lines(parts[|parts| - 1])
  }

  lemma {:induction false} LinesOfJoined(parts: seq<string>)
    requires parts != []
    ensures Lines(Join(parts)) == LinesOfAll(parts)
  {
    hide Lines, Join;
    var (before, last) := (parts[..|parts| - 1], parts[|parts| - 1]);
    assert parts == before + [last];
    OnlyOne(last);
    if before == [] {
      assert parts == [last] && LinesOfAll(before) == [];
    } else {
      LinesOfJoined(before);
      JoinConcat(before, [last]);
      LinesConcat(Join(before), last);
    }
  }

  lemma {:induction false} UpdatedLinesSay(lines: seq<string>, updates: Env)
    requires "" !in updates && AreLines(lines)
    ensures EnvOfLines(LinesOfAll(UpdateLines(lines, updates))) == Said(lines, updates)
  {
    hide AssignmentOf, UpdateLine, Rewritten, Lines, IsLine, AssignLines, EnvOfLines;
    if lines == [] {
      NothingSaid();
    } else {
      var (before, last) := (lines[..|lines| - 1], lines[|lines| - 1]);
      UpdatedLinesSay(before, updates);
      var after := UpdateLines(lines, updates);
      assert after[..|after| - 1] == UpdateLines(before, updates);
      AssignInTurn(LinesOfAll(UpdateLines(before, updates)), Lines(UpdateLine(last, updates)));
      UpdatedLineSays(Said(before, updates), last, updates);
    }
  }

  lemma NothingSaid()
    ensures EnvOfLines([]) == map[]
  {
  }

  /** What a rewritten file says, whatever the values are. */
  lemma WhatRewrittenSays(template: string, updates: Env)
    requires "" !in updates
    ensures EnvOf(UpdateEnv(template, updates)) == Said(Lines(template), updates)
  {
    hide Lines, Join, EnvOfLines, UpdateLines, Said, IsLine;
    var lines := Lines(template);
    LinesAreLines(template);
    LinesOfJoined(UpdateLines(lines, updates));
    UpdatedLinesSay(lines, updates);
  }

  // ----- exactly when it says what it should ----------------------------------------------------

  /** Behind its first line a text has only white space. */
  predicate StaysOnItsLine(text: string) { forall i :: 1 <= i < |Lines(text)| ==> IsBlank(Lines(text)[i]) }

  /** Every text the rewriting writes for a key of `env` stays on its line, the quotes of a client secret included. */
  predicate TextsStay(env: Env, updates: Env)
  {
    forall key :: key in env && NewText(key, updates).Assigns? ==> StaysOnItsLine(NewText(key, updates).value)
  }

  lemma FirstOfLines(text: string)
    ensures var lines := Lines(text); text == if |lines| == 1 then lines[0] else lines[0] + ("\n" + Join(lines[1..]))
  {
    hide Lines, Join;
    JoinOfLines(text);
    JoinFirst(Lines(text));
  }

  lemma {:induction false} JoinOfBlanks(lines: seq<string>)
    requires forall i :: 0 <= i < |lines| ==> IsBlank(lines[i])
    ensures IsBlank(Join(lines))
  {
    hide IsBlank;
    NothingIsBlank();
    if |lines| > 1 {
      JoinOfBlanks(lines[1..]);
      BreakIsBlank();
      BlankJoin(lines[0], "\n");
      BlankJoin(lines[0] + "\n", Join(lines[1..]));
    }
  }

  lemma BreakIsBlank()
    ensures IsBlank("\n")
  {
  }

  lemma BlankBehind(s: string, blank: string)
    requires IsBlank(blank)
    ensures Trim(s + blank) == Trim(s)
  {
    hide Trim, IsBlank, IsTrimmed;
    var a, b := TrimAt(s);
    TrimParts(s);
    BlankJoin(s[b..], blank);
    TrimAround(s[..a], s[a..b], s[b..] + blank);
    assert s[..a] + s[a..b] + (s[b..] + blank) == s + blank;
  }

  /** A text that stays on its line is its first line, trimmed. */
  lemma StayingIsFirst(text: string)
    requires StaysOnItsLine(text)
    ensures Trim(Lines(text)[0]) == Trim(text)
  {
    hide Lines, Join, Trim, IsBlank;
    var lines := Lines(text);
    FirstOfLines(text);
    if |lines| > 1 {
      JoinOfBlanks(lines[1..]);
      BreakIsBlank();
      BlankJoin("\n", Join(lines[1..]));
      BlankBehind(lines[0], "\n" + Join(lines[1..]));
    }
  }

  /** A text is at least as long, trimmed, as a trimmed part of it, and longer with more than white space behind. */
  lemma TrimOfPart(before: string, part: string, after: string)
    ensures |Trim(before + part + after)| >= |Trim(part)|
    ensures Trim(part) != "" && !IsBlank(after) ==> |Trim(before + part + after)| > |Trim(part)|
  {
    hide Trim, IsBlank, IsSpace, IsTrimmed;
    var s := before + part + after;
    var a, b := TrimAt(s);
    var i, j := TrimAt(part);
    if i < j {
      TrimParts(part);
      BlankEnds(s, a, b);
      var (first, last) := (|before| + i, |before| + j - 1);
      assert s[first] == part[i] == part[i..j][0] && s[last] == part[j - 1] == part[i..j][j - i - 1];
      assert !IsSpace(s[first]) && !IsSpace(s[last]) by { TrimmedEnds(part[i..j]); }
      assert a <= first && last < b;
      if !IsBlank(after) {
        var k := NotBlankAt(after);
        assert s[|before| + |part| + k] == after[k];
      }
    }
  }

  lemma TrimmedEnds(s: string)
    requires IsTrimmed(s) && s != ""
    ensures !IsSpace(s[0]) && !IsSpace(s[|s| - 1])
  {
  }

  lemma NotBlankAt(s: string) returns (k: nat)
    requires !IsBlank(s)
    ensures k < |s| && !IsSpace(s[k])
  {
    hide IsSpace;
    k :| k < |s| && !IsSpace(s[k]);
  }

  lemma PartOfJoin(lines: seq<string>, i: nat) returns (before: string, after: string)
    requires i < |lines|
    ensures Join(lines) == before + lines[i] + after
  {
    hide Join;
    OnlyOne(lines[i]);
    var tail := lines[i..];
    assert tail[0] == lines[i];
    JoinFirst(tail);
    after := if |tail| == 1 then "" else "\n" + Join(tail[1..]);
    if i == 0 {
      before := "";
      assert tail == lines;
    } else {
      before := Join(lines[..i]) + "\n";
      JoinConcat(lines[..i], tail);
      assert lines == lines[..i] + tail;
    }
  }

  /** With more than white space behind it, the first line is not the whole. */
  lemma BehindIsLonger(text: string, i: nat)
    requires 1 <= i < |Lines(text)| && !IsBlank(Lines(text)[i])
    ensures Trim(Lines(text)[0]) != Trim(text)
  {
    hide Lines, Join, Trim, IsBlank;
    var lines := Lines(text);
    JoinOfLines(text);
    var before, after := PartOfJoin(lines, i);
    TrimOfPart(before, lines[i], after);
    TrimBlank(lines[i]);
    FirstOfLines(text);
    var rest := "\n" + Join(lines[1..]);
    NotBlankBehind(lines, i);
    TrimOfPart("", lines[0], rest);
    assert "" + lines[0] + rest == text;
  }

  lemma FirstStays(text: string)
    requires Trim(Lines(text)[0]) == Trim(text)
    ensures StaysOnItsLine(text)
  {
    hide Lines, Trim, IsBlank;
    forall i | 1 <= i < |Lines(text)| ensures IsBlank(Lines(text)[i]) {
      if !IsBlank(Lines(text)[i]) { BehindIsLonger(text, i); }
    }
  }

  lemma NotBlankBehind(lines: seq<string>, i: nat)
    requires 1 <= i < |lines| && !IsBlank(lines[i])
    ensures !IsBlank("\n" + Join(lines[1..]))
  {
    hide Join, IsSpace;
    var before, after := PartOfJoin(lines[1..], i - 1);
    var k := NotBlankAt(lines[i]);
    var s := "\n" + (before + lines[i] + after);
    assert s[1 + |before| + k] == lines[i][k];
  }

  /** Some line of `text` behind its first assigns `value` to `key`. */
  predicate Injects(text: string, key: string, value: string)
  {
    exists i :: 1 <= i < |Lines(text)| && AssignmentOf(Lines(text)[i]) == Assigns(key, value)
  }

  /** So does a line of the text written for some key of `env`. */
  predicate Injected(env: Env, updates: Env, key: string, value: string)
  {
    exists k :: k in env && NewText(k, updates).Assigns? && Injects(NewText(k, updates).value, key, value)
  }

  lemma {:induction false} AssignedValue(env: Env, lines: seq<string>, key: string)
    requires key in env
    ensures var after := AssignLines(env, lines);
      && key in after
      && (after[key] == env[key] || exists i :: 0 <= i < |lines| && AssignmentOf(lines[i]) == Assigns(key, after[key]))
  {
    hide AssignmentOf;
    if lines != [] {
      var before := lines[..|lines| - 1];
      AssignedValue(env, before, key);
      var value := AssignLines(env, before)[key];
      if value != env[key] {
        var i :| 0 <= i < |before| && AssignmentOf(before[i]) == Assigns(key, value);
        assert lines[i] == before[i];
      }
    }
  }

  lemma MoreInjected(env: Env, more: Env, updates: Env, key: string, value: string)
    requires Injected(env, updates, key, value) && env.Keys <= more.Keys
    ensures Injected(more, updates, key, value)
  {
    hide NewText, Injects;
    var k :| k in env && NewText(k, updates).Assigns? && Injects(NewText(k, updates).value, key, value);
    assert k in more;
  }

  /** Where a rewritten key's value comes from: its own text's first line, or a line injected. */
  lemma {:induction false} ValueComesFrom(lines: seq<string>, updates: Env, key: string)
    requires key in EnvOfLines(lines) && NewText(key, updates).Assigns?
    ensures var said := Said(lines, updates);
      && key in said
      && (said[key] == Trim(Lines(NewText(key, updates).value)[0]) || Injected(EnvOfLines(lines), updates, key, said[key]))
  {
    hide AssignmentOf, NewText, Injects, Injected, Trim, Lines;
    var (before, last) := (lines[..|lines| - 1], lines[|lines| - 1]);
    var (env, said, a) := (EnvOfLines(before), Said(before, updates), AssignmentOf(last));
    if key in env {
      ValueComesFrom(before, updates, key);
      if Injected(env, updates, key, said[key]) { MoreInjected(env, EnvOfLines(lines), updates, key, said[key]); }
    }
    if a.Assigns? && NewText(a.key, updates).Assigns? {
      var text := NewText(a.key, updates).value;
      var first := said[a.key := Trim(Lines(text)[0])];
      AssignedValue(first, Lines(text)[1..], key);
      var value := AssignLines(first, Lines(text)[1..])[key];
      if value != first[key] { RestInjects(EnvOfLines(lines), updates, a.key, key, value); }
    }
  }

  lemma RestInjects(env: Env, updates: Env, k: string, key: string, value: string)
    requires k in env && NewText(k, updates).Assigns?
    requires var rest := Lines(NewText(k, updates).value)[1..];
      exists i :: 0 <= i < |rest| && AssignmentOf(rest[i]) == Assigns(key, value)
    ensures Injected(env, updates, key, value)
  {
    hide AssignmentOf, NewText, Lines;
    var lines := Lines(NewText(k, updates).value);
    var i :| 0 <= i < |lines[1..]| && AssignmentOf(lines[1..][i]) == Assigns(key, value);
    assert lines[i + 1] == lines[1..][i];
    assert Injects(NewText(k, updates).value, key, value);
  }

  lemma AssignedIsShorter(line: string)
    ensures AssignmentOf(line).Assigns? ==> |AssignmentOf(line).value| < |Trim(line)|
    ensures IsBlank(line) ==> AssignmentOf(line) == Nothing
  {
    hide Trim, IsBlank;
    TrimBlank(line);
    var t := Trim(line);
    var i := IndexOf(t, "=");
    if i > 0 { TrimParts(t[i + 1..]); }
  }

  /** What a text injects is shorter than the text. */
  lemma InjectedIsShorter(text: string, key: string, value: string)
    requires Injects(text, key, value)
    ensures |value| < |Trim(text)| && !StaysOnItsLine(text)
  {
    hide Lines, Join, Trim, IsBlank, AssignmentOf;
    var lines := Lines(text);
    var i :| 1 <= i < |lines| && AssignmentOf(lines[i]) == Assigns(key, value);
    AssignedIsShorter(lines[i]);
    JoinOfLines(text);
    var before, after := PartOfJoin(lines, i);
    TrimOfPart(before, lines[i], after);
  }

  function TextLength(key: string, updates: Env): (n: nat)
    requires NewText(key, updates).Assigns?
  {
    |Trim(NewText(key, updates).value)|
  }

  /** A key whose text does not stay on its line cannot have the right value: only a longer text that does not stay either
      could have injected it, and so on. */
  lemma {:induction false} OffItsLineIsWrong(lines: seq<string>, updates: Env, key: string, longer: set<string>)
    requires Said(lines, updates) == UpdatedEnv(EnvOfLines(lines), updates)
    requires key in EnvOfLines(lines) && NewText(key, updates).Assigns?
    requires forall k ::
      k in EnvOfLines(lines) && NewText(k, updates).Assigns? && TextLength(k, updates) > TextLength(key, updates) ==> k in longer
    ensures StaysOnItsLine(NewText(key, updates).value)
    decreases |longer|
  {
    hide EnvOfLines, Said, NewText, Trim, Lines, StaysOnItsLine, Injects;
    var (env, text) := (EnvOfLines(lines), NewText(key, updates).value);
    ValueComesFrom(lines, updates, key);
    if Trim(Lines(text)[0]) == Trim(text) {
      FirstStays(text);
    } else {
      var k :| k in env && NewText(k, updates).Assigns? && Injects(NewText(k, updates).value, key, Trim(text));
      InjectedIsShorter(NewText(k, updates).value, key, Trim(text));
      assert k in longer;
      OffItsLineIsWrong(lines, updates, k, longer - {k});
    }
  }

  lemma {:induction false} AssignBlanks(env: Env, lines: seq<string>)
    requires forall i :: 0 <= i < |lines| ==> IsBlank(lines[i])
    ensures AssignLines(env, lines) == env
  {
    hide AssignmentOf, IsBlank;
    if lines != [] {
      AssignBlanks(env, lines[..|lines| - 1]);
      AssignedIsShorter(lines[|lines| - 1]);
    }
  }

  lemma StayingSaysOne(env: Env, key: string, value: string, updates: Env)
    requires NewText(key, updates).Assigns? ==> StaysOnItsLine(NewText(key, updates).value)
    ensures Rewritten(env, Assigns(key, value), updates) == env[key := Updated(key, value, updates)]
  {
    hide NewText, Trim, Lines, AssignLines, IsBlank;
    var text := NewText(key, updates);
    if text.Assigns? {
      StayingIsFirst(text.value);
      AssignBlanks(env[key := Trim(text.value)], Lines(text.value)[1..]);
    }
  }

  lemma {:induction false} StayingSays(lines: seq<string>, updates: Env)
    requires TextsStay(EnvOfLines(lines), updates)
    ensures Said(lines, updates) == UpdatedEnv(EnvOfLines(lines), updates)
  {
    hide AssignmentOf, NewText, StaysOnItsLine, Rewritten, Updated;
    if lines != [] {
      var (before, a) := (lines[..|lines| - 1], AssignmentOf(lines[|lines| - 1]));
      assert forall k :: k in EnvOfLines(before) ==> k in EnvOfLines(lines);
      StayingSays(before, updates);
      if a.Assigns? {
        assert a.key in EnvOfLines(lines);
        StayingSaysOne(Said(before, updates), a.key, a.value, updates);
      } else {
        NothingChanges(Said(before, updates), updates);
      }
    }
  }

  lemma NothingChanges(env: Env, updates: Env)
    ensures Rewritten(env, Nothing, updates) == env
  {
  }

  /** A rewritten env file says the template's keys, each with the value given or the one it had, exactly when every text
      written for one of them stays on its line. */
  lemma RewrittenSays(template: string, updates: Env)
    requires "" !in updates
    ensures EnvOf(UpdateEnv(template, updates)) == UpdatedEnv(EnvOf(template), updates) <==> TextsStay(EnvOf(template), updates)
  {
    hide Lines, EnvOfLines, UpdateEnv, UpdatedEnv, Said, NewText, StaysOnItsLine;
    var lines := Lines(template);
    WhatRewrittenSays(template, updates);
    if TextsStay(EnvOf(template), updates) {
      StayingSays(lines, updates);
    } else if Said(lines, updates) == UpdatedEnv(EnvOfLines(lines), updates) {
      forall key | key in EnvOfLines(lines) && NewText(key, updates).Assigns?
        ensures StaysOnItsLine(NewText(key, updates).value)
      {
        OffItsLineIsWrong(lines, updates, key, EnvOfLines(lines).Keys);
      }
    }
  }

  /** A value of two lines in a template of one: the second line assigns on its own. */
  lemma LineBreakInjects(key: string, x: string, y: string)
    requires IsTrimmed(key) && key != "" && key[0] != '#' && '=' !in key && IsLine(key) && IsLine(x) && IsLine(y)
    requires key != "CLIENT_SECRET"
    ensures EnvOf(UpdateEnv(key + "=", map[key := x + "\n" + y])) == Assign(map[key := Trim(x)], AssignmentOf(y))
  {
    hide Lines, Trim, AssignmentOf, EnvOf, UpdateEnv, IsTrimmed, AssignLines;
    var (line, updates) := (key + "=", map[key := x + "\n" + y]);
    LinesOfLine(line);
    WhatRewrittenSays(line, updates);
    WrittenAssigns(key, "");
    assert line + "" == line && [line][..0] == [];
    LinesAfterLine(x, y);
    LinesOfLine(y);
    AssignOne(map[key := Trim(x)], y);
    assert ([x] + [y])[1..] == [y];
  }

  /** Values of one line stay on it. */
  lemma LineValuesSay(template: string, updates: Env)
    requires AreLineValues(updates)
    ensures EnvOf(UpdateEnv(template, updates)) == UpdatedEnv(EnvOf(template), updates)
  {
    hide EnvOf, UpdateEnv, UpdatedEnv, Lines;
    RewrittenSays(template, updates);
    forall key | key in EnvOf(template) && NewText(key, updates).Assigns? ensures StaysOnItsLine(NewText(key, updates).value) {
      LinesOfLine(NewText(key, updates).value);
    }
  }

  // ----- appending ------------------------------------------------------------------------------

  /** `content` with a comment and an assignment added after a blank line. */
  function AppendTo(content: string, comment: string, key: string, value: string): (r: string)
  {
    (if EndsWith(content, "\n") then content else content + "\n") + "\n" + comment + "\n" + key + "=" + value + "\n"
  }

  lemma {:induction false} LinesConcatenated(a: seq<string>, b: seq<string>)
    requires forall i :: 0 <= i < |b| ==> AssignmentOf(b[i]) == Nothing
    ensures EnvOfLines(a + b) == EnvOfLines(a)
    decreases |b|
  {
    hide AssignmentOf;
    if b == [] {
      assert a + b == a;
    } else {
      assert (a + b)[..|a + b| - 1] == a + b[..|b| - 1];
      LinesConcatenated(a, b[..|b| - 1]);
    }
  }

  lemma BlankAndCommentAssignNothing(comment: string)
    requires comment != "" && comment[0] == '#'
    ensures AssignmentOf("") == Nothing && AssignmentOf(comment) == Nothing
  {
    hide TrimEnd;
    TrimTrimmed("");
    HashIsNoSpace();
    TrimEndKeepsFirst(comment);
    assert TrimStart(comment) == comment;
  }

  lemma HashIsNoSpace()
    ensures !IsSpace('#')
  {
  }

  lemma {:induction false} TrimEndKeepsFirst(s: string)
    requires s != "" && !IsSpace(s[0])
    ensures TrimEnd(s) != "" && TrimEnd(s)[0] == s[0]
  {
    hide IsSpace;
    if IsSpace(s[|s| - 1]) { TrimEndKeepsFirst(s[..|s| - 1]); }
  }

  /** The lines of a file ended with a line break are its lines and a blank one, whether or not it had the break. */
  lemma EndedLines(content: string)
    ensures var ended := if EndsWith(content, "\n") then content else content + "\n";
            EnvOfLines(Lines(ended)) == EnvOf(content)
  {
    hide Lines, EnvOfLines, EndsWith, AssignmentOf;
    if !EndsWith(content, "\n") {
      LinesPlusBreak(content);
      BlankAndCommentAssignNothing("#");
      LinesConcatenated(Lines(content), [""]);
    }
  }

  lemma AddOne(lines: seq<string>, line: string)
    ensures EnvOfLines(lines + [line]) == Assign(EnvOfLines(lines), AssignmentOf(line))
  {
    hide AssignmentOf;
    assert (lines + [line])[..|lines|] == lines;
  }

  /** What an env file says with an assignment appended. */
  lemma AppendedSays(content: string, comment: string, key: string, value: string)
    requires comment != "" && comment[0] == '#' && IsLine(comment) && IsLine(key) && IsLine(value)
    requires IsTrimmed(key) && key != "" && key[0] != '#' && '=' !in key
    ensures EnvOf(AppendTo(content, comment, key, value)) == EnvOf(content)[key := Trim(value)]
  {
    hide Lines, EnvOfLines, EndsWith, AssignmentOf, IsSpace, IsTrimmed, Trim;
    var ended := if EndsWith(content, "\n") then content else content + "\n";
    var line := key + "=" + value;
    var tail := comment + "\n" + (line + "\n" + "");
    assert AppendTo(content, comment, key, value) == ended + "\n" + tail;
    LinesConcat(ended, tail);
    LinesAfterLine(comment, line + "\n" + "");
    LinesAfterLine(line, "");
    LinesOfLine("");
    var before := Lines(ended);
    assert Lines(ended + "\n" + tail) == ((before + [comment]) + [line]) + [""];
    BlankAndCommentAssignNothing(comment);
    LinesConcatenated(before, [comment]);
    AddOne(before + [comment], line);
    AddOne((before + [comment]) + [line], "");
    WrittenAssigns(key, value);
    EndedLines(content);
  }

  // ----- which lines change, and to what --------------------------------------------------------

  /** What is written behind `key=`: the value, between quotes where a client secret holds `$` or `=`. */
  predicate IsWrittenFor(key: string, value: string, written: string)
  {
    if key == "CLIENT_SECRET" && exists c :: c in value && c in "$=" then written == "'" + value + "'" else written == value
  }

  /** The value a rewriting has for a key of the template: its own, or for the database credentials of the admin the user,
      unless that is the sample's, and the password. */
  predicate IsValueFor(key: string, updates: Env, value: string)
  {
    if key in updates then value == updates[key]
    else if key == "cds.requires.db.credentials.user" then
      "POSTGRES_USER" in updates && value == updates["POSTGRES_USER"] && value != "" && value != "admin_user"
    else if key == "cds.requires.db.credentials.password" then
      "POSTGRES_PASSWORD" in updates && value == updates["POSTGRES_PASSWORD"] && value != ""
    else false
  }

  /** A line without an assignment stays: blank, a comment, without a separator or starting with one. */
  lemma OtherLinesStay(line: string, updates: Env)
    requires IsBlank(line) || StartsWith(Trim(line), "#") || '=' !in line || line[0] == '='
    ensures UpdateLine(line, updates) == line
  {
    hide Trim, NewText;
    TrimBlank(line);
    if '=' in line && line[0] == '=' {
      assert OccursAt(line, "=", 0);
    } else {
      NoEquals(line);
    }
  }

  /** A line `left=right` is replaced by its key and what is written for it, or stays if nothing is. */
  lemma AssignmentIsRewritten(left: string, right: string, updates: Env)
    requires left != "" && '=' !in left && !StartsWith(Trim(left + "=" + right), "#")
    ensures var (line, key) := (left + "=" + right, Trim(left));
      && (forall value :: IsValueFor(key, updates, value) ==>
            exists written :: IsWrittenFor(key, value, written) && UpdateLine(line, updates) == key + "=" + written)
      && ((forall value :: !IsValueFor(key, updates, value)) ==> UpdateLine(line, updates) == line)
  {
    hide Trim, IndexOf, IsWrittenFor;
    var (line, key) := (left + "=" + right, Trim(left));
    IndexOfEquals(left, right);
    assert line[..|left|] == left && line[|left|] == '=';
    NotBlank(line, |left|);
    forall value | IsValueFor(key, updates, value)
      ensures exists written :: IsWrittenFor(key, value, written) && UpdateLine(line, updates) == key + "=" + written
    {
      NewTextIs(key, updates, value);
      var written := NewText(key, updates).value;
      assert IsWrittenFor(key, value, written);
    }
    if forall value :: !IsValueFor(key, updates, value) { NoNewText(key, updates); }
  }

  lemma NotBlank(line: string, i: nat)
    requires i < |line| && line[i] == '='
    ensures Trim(line) != ""
  {
    TrimBlank(line);
  }

  lemma NewTextIs(key: string, updates: Env, value: string)
    requires IsValueFor(key, updates, value)
    ensures var text := NewText(key, updates); text.Assigns? && text.key == key && IsWrittenFor(key, value, text.value)
  {
    OtherNames();
  }

  lemma NoNewText(key: string, updates: Env)
    requires forall value :: !IsValueFor(key, updates, value)
    ensures NewText(key, updates) == Nothing
  {
    if key in updates { assert IsValueFor(key, updates, updates[key]); }
    if "POSTGRES_USER" in updates { assert !IsValueFor(key, updates, updates["POSTGRES_USER"]); }
    if "POSTGRES_PASSWORD" in updates { assert !IsValueFor(key, updates, updates["POSTGRES_PASSWORD"]); }
  }

  lemma OtherNames()
    ensures "CLIENT_SECRET" != "cds.requires.db.credentials.user" && "CLIENT_SECRET" != "cds.requires.db.credentials.password"
    ensures "cds.requires.db.credentials.user" != "cds.requires.db.credentials.password"
  {
    assert "CLIENT_SECRET"[0] == 'C' && "cds.requires.db.credentials.user"[0] == 'c';
    assert |"cds.requires.db.credentials.user"| == 32 && |"cds.requires.db.credentials.password"| == 36;
    assert "cds.requires.db.credentials.password"[0] == 'c';
  }

  lemma {:induction false} UpdatedLines(lines: seq<string>, updates: Env)
    ensures forall i :: 0 <= i < |lines| ==> UpdateLines(lines, updates)[i] == UpdateLine(lines[i], updates)
  {
    hide UpdateLine;
    if lines != [] { UpdatedLines(lines[..|lines| - 1], updates); }
  }

  lemma UpdateIsLine(line: string, updates: Env)
    requires IsLine(line) && forall key :: key in updates ==> IsLine(updates[key])
    ensures IsLine(UpdateLine(line, updates))
  {
    hide Trim, IndexOf, IsTrimmed;
    var i := IndexOf(line, "=");
    if i > 0 {
      NoEquals(line);
      KeyIsLine(line, i);
    }
  }

  /** Values of one line each: the rewritten file has the template's lines, each as above. */
  lemma RewrittenLines(template: string, updates: Env)
    requires forall key :: key in updates ==> IsLine(updates[key])
    ensures var (lines, after) := (Lines(template), Lines(UpdateEnv(template, updates)));
      |after| == |lines| && forall i :: 0 <= i < |lines| ==> after[i] == UpdateLine(lines[i], updates)
  {
    hide UpdateLine, Lines, Join, IsLine;
    var lines := Lines(template);
    LinesAreLines(template);
    UpdatedLines(lines, updates);
    var after := UpdateLines(lines, updates);
    forall i | 0 <= i < |lines| ensures IsLine(after[i]) { UpdateIsLine(lines[i], updates); }
    LinesOfJoin(after);
  }
}
