/** The licence header tool: adding the header to a source file, and removing it. */
module SourceHeaders {
  import opened Text

  datatype Mode = Add | Remove

  /** `replace(/\r\n/g, '\n')`. */
  function Normalised(s: string): (r: string)
    decreases |s|
  {
    if s == "" then ""
    else if |s| > 1 && s[0] == '\r' && s[1] == '\n' then "\n" + Normalised(s[2..])
    else [s[0]] + Normalised(s[1..])
  }

  predicate HasShebang(lines: seq<string>) { |lines| > 0 && StartsWith(lines[0], "#!") }

  /** How many lines of the file stay above a header. */
  function Top(lines: seq<string>): (n: nat)
    ensures n <= |lines|
  {
    if HasShebang(lines) then 1 else 0
  }

  predicate IsHeaded(header: string, content: string)
  {
    var (lines, head) := (Lines(Normalised(content)), Lines(header));
    var at := Top(lines);
    at + |head| <= |lines| && lines[at..at + |head|] == head
  }

  function Added(header: string, content: string): (r: string)
  {
    var lines := Lines(Normalised(content));
    if HasShebang(lines) then lines[0] + "\n" + header + "\n\n" + Join(lines[1..])
    else header + "\n\n" + Normalised(content)
  }

  /** The lines from the first that is not blank. */
  function DropBlankTop(lines: seq<string>): (r: seq<string>)
  {
    if lines != [] && Trim(lines[0]) == "" then DropBlankTop(lines[1..]) else lines
  }

  /** A file's lines without the blank ones at the top, or below a shebang. */
  function WithoutBlankTop(lines: seq<string>): (r: seq<string>)
  {
    lines[..Top(lines)] + DropBlankTop(lines[Top(lines)..])
  }

  function Removed(header: string, content: string): (r: string)
  {
    var (lines, head) := (Lines(Normalised(content)), Lines(header));
    var at := Top(lines);
    var rest := if at + |head| <= |lines| then lines[at + |head|..] else [];
    Join(lines[..at] + DropBlankTop(rest))
  }

  /** A file's content after a run. */
  function Processed(header: string, content: string, mode: Mode): (r: string)
  {
    match mode
    case Add => if IsHeaded(header, content) then content else Added(header, content)
    case Remove => if IsHeaded(header, content) then Removed(header, content) else content
  }

  // ----- the tool -------------------------------------------------------------------------------

  class SourceFile {
    var content: string
    const isTemplate: bool
    const size: nat
    const isText: bool

    constructor (content: string, isTemplate: bool, size: nat, isText: bool)
      ensures this.content == content && this.isTemplate == isTemplate && this.size == size && this.isText == isText
    {
      this.content, this.isTemplate, this.size, this.isText := content, isTemplate, size, isText;
    }
  }

  class HeaderManager {
    const headerContent: string
    const maxFileSize: nat
    const dryRun: bool
    var processed: nat
    var modified: nat
    var skipped: nat

    constructor (header: string, maxFileSize: nat, dryRun: bool)
      ensures headerContent == Normalised(header) && this.maxFileSize == maxFileSize && this.dryRun == dryRun
      ensures processed == modified == skipped == 0
    {
      headerContent, this.maxFileSize, this.dryRun := Normalised(header), maxFileSize, dryRun;
      processed, modified, skipped := 0, 0, 0;
    }

    method HasHeader(content: string) returns (has: bool)
      ensures has <==> IsHeaded(headerContent, content)
    {
      hide Lines, Normalised, HasShebang;
      var contentLines, headerLines := Lines(Normalised(content)), Lines(headerContent);
      var start := if HasShebang(contentLines) then 1 else 0;
      var i := 0;
      while i < |headerLines|
        invariant 0 <= i <= |headerLines| && start + i <= |contentLines|
        invariant forall k :: 0 <= k < i ==> headerLines[k] == contentLines[start + k]
      {
        var at := start + i;
        if at >= |contentLines| || headerLines[i] != contentLines[at] {
          if at < |contentLines| && start + |headerLines| <= |contentLines| {
            assert contentLines[start..start + |headerLines|][i] == contentLines[at];
          }
          return false;
        }
        i := i + 1;
      }
      assert contentLines[start..start + |headerLines|] == headerLines;
      has := true;
    }

    method AddHeader(file: SourceFile)
      modifies file, this`modified
      ensures file.content == if dryRun then old(file.content) else Added(headerContent, old(file.content))
      ensures modified == old(modified) + 1
    {
      hide Lines, Normalised, Join;
      var normalized := Normalised(file.content);
      var contentLines := Lines(normalized);
      var newContent: string;
      if |contentLines| > 0 && StartsWith(contentLines[0], "#!") {
        newContent := contentLines[0] + "\n" + headerContent + "\n\n" + Join(contentLines[1..]);
      } else {
        newContent := headerContent + "\n\n" + normalized;
      }
      if !dryRun { file.content := newContent; }
      modified := modified + 1;
    }

    method RemoveHeader(file: SourceFile)
      modifies file, this`modified
      ensures file.content == if dryRun then old(file.content) else Removed(headerContent, old(file.content))
      ensures modified == old(modified) + 1
    {
      hide Lines, Normalised, Join, HasShebang, Trim;
      var headerLines, contentLines := Lines(headerContent), Lines(Normalised(file.content));
      var preserve := if HasShebang(contentLines) then 1 else 0;
      var remaining := contentLines[..preserve];
      var i := preserve + |headerLines|;
      ghost var rest := if i <= |contentLines| then contentLines[i..] else [];
      while i < |contentLines|
        invariant preserve + |headerLines| <= i
        invariant if i <= |contentLines| then remaining + contentLines[i..] == contentLines[..preserve] + rest
                  else remaining == contentLines[..preserve] && rest == []
      {
        remaining := remaining + [contentLines[i]];
        i := i + 1;
      }
      assert remaining == contentLines[..preserve] + rest;
      while |remaining| > preserve && Trim(remaining[preserve]) == ""
        invariant |remaining| >= preserve && remaining[..preserve] == contentLines[..preserve]
        invariant DropBlankTop(remaining[preserve..]) == DropBlankTop(rest)
        decreases |remaining|
      {
        assert remaining[preserve..][1..] == remaining[preserve + 1..];
        remaining := remaining[..preserve] + remaining[preserve + 1..];
        assert remaining[..preserve] == contentLines[..preserve];
      }
      assert remaining == contentLines[..preserve] + DropBlankTop(rest);
      if !dryRun { file.content := Join(remaining); }
      modified := modified + 1;
    }

    /** The header template itself, large files and binary files are skipped. */
    predicate Skips(file: SourceFile) { file.isTemplate || file.size > maxFileSize || !file.isText }

    method ProcessFile(file: SourceFile, mode: Mode)
      modifies file, this
      ensures file.content == if dryRun || Skips(file) then old(file.content) else Processed(headerContent, old(file.content), mode)
      ensures processed == old(processed) + 1 && modified + skipped == old(modified + skipped) + 1
      ensures modified == old(modified) <==> Skips(file) || (mode == Add) == IsHeaded(headerContent, old(file.content))
    {
      hide IsHeaded, Added, Removed;
      processed := processed + 1;
      if file.isTemplate || file.size > maxFileSize || !file.isText {
        skipped := skipped + 1;
        return;
      }
      var has := HasHeader(file.content);
      if mode == Add && !has {
        AddHeader(file);
      } else if mode == Remove && has {
        RemoveHeader(file);
      } else {
        skipped := skipped + 1;
      }
    }
  }

  // ----- normalising ----------------------------------------------------------------------------

  predicate EndsInCr(line: string) { line != "" && line[|line| - 1] == '\r' }

  /** A line that a line feed follows loses one carriage return. */
  function Stripped(line: string): (r: string) { if EndsInCr(line) then line[..|line| - 1] else line }

  /** Every line but the last stripped. */
  function StrippedLines(lines: seq<string>): (r: seq<string>)
    ensures |r| == |lines|
  {
    if |lines| <= 1 then lines else [Stripped(lines[0])] + StrippedLines(lines[1..])
  }

  lemma NormalisedStep(s: string)
    requires s != "" && !StartsWith(s, "\r\n")
    ensures Normalised(s) == [s[0]] + Normalised(s[1..])
  {
  }

  lemma NormalisedBreak(s: string)
    ensures Normalised("\n" + s) == "\n" + Normalised(s) && Normalised("\r\n" + s) == "\n" + Normalised(s)
  {
    assert ("\n" + s)[1..] == s && ("\r\n" + s)[2..] == s;
  }

  lemma StrippedShort()
    ensures Stripped("") == "" && Stripped("\r") == ""
  {
  }

  lemma {:induction false} NormalisedAfterLine(line: string, s: string)
    requires IsLine(line)
    ensures Normalised(line + "\n" + s) == Stripped(line) + "\n" + Normalised(s)
    decreases |line|
  {
    hide Normalised, Stripped;
    var t := line + "\n" + s;
    NormalisedBreak(s);
    StrippedShort();
    if line == "" {
      assert t == "\n" + s && "" + "\n" == "\n";
    } else if line == "\r" {
      assert t == "\r\n" + s && "" + "\n" == "\n";
    } else {
      assert t[1..] == line[1..] + "\n" + s;
      assert line[0] in line && (|line| > 1 ==> line[1] in line) && IsLine(line[1..]);
      assert t[0] == line[0] && (|line| > 1 ==> t[1] == line[1]);
      NormalisedStep(t);
      NormalisedAfterLine(line[1..], s);
      StrippedRest(line);
    }
  }

  lemma StrippedRest(line: string)
    requires line != "" && line != "\r"
    ensures Stripped(line) == [line[0]] + Stripped(line[1..])
  {
    if |line| == 1 {
      assert line == [line[0]] && line[1..] == "";
    } else if EndsInCr(line) {
      assert line[..|line| - 1] == [line[0]] + line[1..][..|line| - 2];
    } else {
      assert line == [line[0]] + line[1..];
    }
  }

  lemma {:induction false} NormalisedLine(line: string)
    requires IsLine(line)
    ensures Normalised(line) == line
  {
    if line != "" {
      assert line[0] in line && (|line| > 1 ==> line[1] in line) && IsLine(line[1..]);
      NormalisedLine(line[1..]);
      assert line == [line[0]] + line[1..];
    }
  }

  /** Normalising strips every line but the last. */
  lemma {:induction false} NormalisedJoin(lines: seq<string>)
    requires lines != [] && AreLines(lines)
    ensures Normalised(Join(lines)) == Join(StrippedLines(lines)) && AreLines(StrippedLines(lines))
  {
    hide Normalised, IsLine;
    if |lines| == 1 {
      NormalisedLine(lines[0]);
    } else {
      NormalisedAfterLine(lines[0], Join(lines[1..]));
      NormalisedJoin(lines[1..]);
      assert StrippedLines(lines)[1..] == StrippedLines(lines[1..]);
      StrippedIsLine(lines[0]);
    }
  }

  lemma StrippedIsLine(line: string)
    requires IsLine(line)
    ensures IsLine(Stripped(line))
  {
  }

  lemma NormalisedLines(s: string)
    ensures Lines(Normalised(s)) == StrippedLines(Lines(s))
  {
    hide Lines, Join, StrippedLines, Normalised, IsLine;
    LinesAreLines(s);
    JoinOfLines(s);
    NormalisedJoin(Lines(s));
    LinesOfJoin(StrippedLines(Lines(s)));
  }

  /** No line of the header ends in a carriage return. */
  predicate IsClean(header: string) { forall line :: line in Lines(header) ==> !EndsInCr(line) }

  lemma {:induction false} StrippedConcat(a: seq<string>, b: seq<string>)
    requires b != []
    ensures StrippedLines(a + b) == StrippedAll(a) + StrippedLines(b)
    decreases |a|
  {
    hide Stripped;
    if a == [] {
      assert a + b == b;
    } else {
      assert (a + b)[1..] == a[1..] + b;
      StrippedConcat(a[1..], b);
    }
  }

  function StrippedAll(lines: seq<string>): (r: seq<string>)
    ensures |r| == |lines|
    ensures forall i :: 0 <= i < |lines| ==> r[i] == Stripped(lines[i])
  {
    if lines == [] then [] else [Stripped(lines[0])] + StrippedAll(lines[1..])
  }

  // ----- adding twice ---------------------------------------------------------------------------

  lemma JoinNothing()
    ensures Join([]) == "" && Lines("") == [""]
  {
  }

  /** The lines of a file with the header added: those of the file, with the header and a blank line below a shebang. */
  lemma LinesOfAdded(header: string, content: string)
    ensures var lines := Lines(Normalised(content));
      Lines(Added(header, content))
      == lines[..Top(lines)] + (Lines(header) + ([""] + if |lines| == Top(lines) then [""] else lines[Top(lines)..]))
  {
    hide Lines, Normalised, Join, HasShebang, IsLine;
    var normal := Normalised(content);
    var lines := Lines(normal);
    LinesAreLines(normal);
    if HasShebang(lines) {
      var rest := Join(lines[1..]);
      var tail := header + "\n" + ("" + "\n" + rest);
      assert Added(header, content) == lines[0] + "\n" + tail;
      LinesAfterLine(lines[0], tail);
      LinesConcat(header, "" + "\n" + rest);
      LinesAfterLine("", rest);
      JoinNothing();
      if |lines| == 1 { assert lines[1..] == []; } else { LinesOfJoin(lines[1..]); }
      assert lines[..1] == [lines[0]];
    } else {
      assert Added(header, content) == header + "\n" + ("" + "\n" + normal);
      LinesConcat(header, "" + "\n" + normal);
      LinesAfterLine("", normal);
      assert lines[..0] == [] && lines[0..] == lines;
    }
  }

  /** The lines of a file with the header added, read again. */
  lemma LinesReadAgain(header: string, content: string)
    ensures var (lines, again) := (Lines(Normalised(content)), Lines(Normalised(Added(header, content))));
            var rest := if |lines| == Top(lines) then [""] else lines[Top(lines)..];
      again == StrippedAll(lines[..Top(lines)]) + (StrippedAll(Lines(header)) + ([""] + StrippedLines(rest)))
  {
    hide Lines, Normalised, Added, HasShebang, Stripped, StrippedLines, StrippedAll;
    LinesOfAdded(header, content);
    NormalisedLines(Added(header, content));
    var lines := Lines(Normalised(content));
    var rest := if |lines| == Top(lines) then [""] else lines[Top(lines)..];
    StrippedConcat([""], rest);
    StrippedConcat(Lines(header), [""] + rest);
    StrippedConcat(lines[..Top(lines)], Lines(header) + ([""] + rest));
    NothingStripped();
  }

  lemma NothingStripped()
    ensures StrippedAll([""]) == [""] && StrippedAll([]) == []
  {
    assert [""][1..] == [];
  }

  lemma FirstLineStarts(header: string)
    ensures StartsWith(header, "#!") <==> StartsWith(Lines(header)[0], "#!")
  {
    hide Lines, Join;
    var lines := Lines(header);
    JoinOfLines(header);
    LinesAreLines(header);
    if |lines| > 1 {
      JoinFirst(lines);
      StartsBefore(lines[0], Join(lines[1..]));
    } else {
      JoinFirst(lines);
    }
  }

  lemma StartsBefore(line: string, rest: string)
    requires IsLine(line)
    ensures StartsWith(line + "\n" + rest, "#!") <==> StartsWith(line, "#!")
  {
    var s := line + "\n" + rest;
    if |line| == 0 { assert s[0] == '\n'; }
    if |line| == 1 { assert s[1] == '\n'; }
    if |line| >= 2 { assert s[0] == line[0] && s[1] == line[1]; }
  }

  lemma StrippedStarts(line: string)
    ensures StartsWith(Stripped(line), "#!") <==> StartsWith(line, "#!")
  {
  }

  lemma {:induction false} CleanLines(lines: seq<string>)
    ensures StrippedAll(lines) == lines <==> forall line :: line in lines ==> !EndsInCr(line)
  {
    if lines != [] {
      CleanLines(lines[1..]);
      assert lines == [lines[0]] + lines[1..];
      assert StrippedAll(lines)[1..] == StrippedAll(lines[1..]);
      assert EndsInCr(lines[0]) ==> |Stripped(lines[0])| < |lines[0]|;
    }
  }

  /** A header whose lines all follow themselves, up to the blank line below it, is blank. */
  lemma {:induction false} ShiftedIsBlank(head: seq<string>, below: seq<string>, i: nat)
    requires i < |head| <= |below| && below[..|head|] == head
    requires below[|head| - 1] == "" && forall k :: 0 <= k < |head| - 1 ==> below[k] == Stripped(head[k + 1])
    ensures head[i] == ""
    decreases |head| - i
  {
    assert head[i] == below[i];
    if i < |head| - 1 { ShiftedIsBlank(head, below, i + 1); }
  }

  /** After adding, the header is found again: exactly when its lines keep their ends, and it does not read as a
      shebang itself. */
  lemma AddedIsFound(header: string, content: string)
    ensures IsHeaded(header, Added(header, content))
       <==> IsClean(header) && (HasShebang(Lines(Normalised(content))) || !StartsWith(header, "#!"))
  {
    hide Lines, Normalised, Added, StrippedAll, StrippedLines, Stripped, StartsWith;
    var (lines, head, again) := (Lines(Normalised(content)), Lines(header), Lines(Normalised(Added(header, content))));
    LinesReadAgain(header, content);
    CleanLines(head);
    FirstLineStarts(header);
    StrippedStarts(head[0]);
    var at := Top(lines);
    var (top, body) := (StrippedAll(lines[..at]), StrippedAll(head));
    var rest := [""] + StrippedLines(if |lines| == at then [""] else lines[at..]);
    assert again == top + (body + rest);
    assert again[at..at + |head|] == body;
    if HasShebang(lines) {
      StrippedStarts(lines[0]);
      assert again[0] == top[0] == Stripped(lines[0]);
    } else {
      assert again[0] == body[0] == Stripped(head[0]);
      if StartsWith(header, "#!") {
        NotHeadedByShebang(head, again, body);
      }
    }
  }

  lemma NotHeadedByShebang(head: seq<string>, again: seq<string>, body: seq<string>)
    requires head != [] && StartsWith(head[0], "#!") && body == StrippedAll(head)
    requires |again| > |head| && again[..|head|] == body && again[|head|] == ""
    ensures again[1..][..|head|] != head
  {
    hide Stripped;
    var below := again[1..];
    if below[..|head|] == head {
      forall k | 0 <= k < |head| - 1 ensures below[k] == Stripped(head[k + 1]) {
        assert below[k] == again[..|head|][k + 1];
      }
      ShiftedIsBlank(head, below, 0);
    }
  }

  /** Adding the header always adds lines. */
  lemma AddingChanges(header: string, content: string)
    ensures Added(header, content) != content
  {
    hide Lines, Normalised, Added, HasShebang;
    LinesOfAdded(header, content);
    NormalisedLines(content);
  }

  /** Adding the header twice is adding it once, exactly when it was there already, or no line of the header ends in a
      carriage return and it does not take the place of a shebang. */
  lemma AddTwiceIsOnce(header: string, content: string)
    ensures var once := Processed(header, content, Add);
      Processed(header, once, Add) == once
      <==> IsHeaded(header, content)
           || (IsClean(header) && (HasShebang(Lines(Normalised(content))) || !StartsWith(header, "#!")))
  {
    hide Added, IsHeaded, IsClean, HasShebang, StartsWith;
    AddedIsFound(header, content);
    AddingChanges(header, Added(header, content));
  }

  lemma BlankDropped(rest: seq<string>)
    ensures DropBlankTop([""] + rest) == DropBlankTop(rest)
  {
    hide Trim;
    TrimBlank("");
    assert ([""] + rest)[1..] == rest;
  }

  /** What removing leaves after adding: the file's lines, read once more, without the blank ones at the top. */
  lemma RemovedFromAdded(header: string, content: string)
    requires IsHeaded(header, Added(header, content))
    ensures var lines := Lines(Normalised(content)); var at := Top(lines);
      Removed(header, Added(header, content))
      == Join(StrippedAll(lines[..at]) + DropBlankTop(StrippedLines(lines[at..])))
  {
    hide Lines, Normalised, Added, StrippedAll, Stripped, StartsWith, Join, IsHeaded, IsClean;
    var (lines, head, again) := (Lines(Normalised(content)), Lines(header), Lines(Normalised(Added(header, content))));
    AddedIsFound(header, content);
    LinesReadAgain(header, content);
    CleanIsKept(header);
    FirstLineStarts(header);
    var at := Top(lines);
    var below := if |lines| == at then [""] else lines[at..];
    assert again == StrippedAll(lines[..at]) + (head + ([""] + StrippedLines(below)));
    if HasShebang(lines) { StrippedStarts(lines[0]); }
    assert again[0] == if at == 1 then Stripped(lines[0]) else head[0];
    assert Top(again) == at;
    assert again[at + |head|..] == [""] + StrippedLines(below) && again[..at] == StrippedAll(lines[..at]);
    BlankDropped(StrippedLines(below));
    BlankDropped([]);
    assert StrippedLines([""]) == [""] && [""] + [] == [""] && DropBlankTop([]) == [];
  }

  lemma CleanIsKept(header: string)
    requires IsClean(header)
    ensures StrippedAll(Lines(header)) == Lines(header)
  {
    CleanLines(Lines(header));
  }

  /** No line above ends in a carriage return, and of the lines from the first that is not blank only the last may. */
  predicate KeepsEnds(lines: seq<string>)
  {
    var (top, below) := (lines[..Top(lines)], DropBlankTop(lines[Top(lines)..]));
    (forall line :: line in top ==> !EndsInCr(line)) && forall line :: line in ButLast(below) ==> !EndsInCr(line)
  }

  function ButLast(lines: seq<string>): (r: seq<string>) { if lines == [] then [] else lines[..|lines| - 1] }

  lemma {:induction false} StrippedKeeps(lines: seq<string>)
    ensures StrippedLines(lines) == lines <==> forall line :: line in ButLast(lines) ==> !EndsInCr(line)
  {
    if |lines| > 1 {
      StrippedKeeps(lines[1..]);
      assert lines == [lines[0]] + lines[1..] && StrippedLines(lines)[1..] == StrippedLines(lines[1..]);
      assert lines[..|lines| - 1] == [lines[0]] + lines[1..][..|lines| - 2];
      assert EndsInCr(lines[0]) ==> |Stripped(lines[0])| < |lines[0]|;
    }
  }

  lemma StrippedBlank(line: string)
    ensures Trim(Stripped(line)) == "" <==> Trim(line) == ""
  {
    hide Trim;
    TrimBlank(line);
    TrimBlank(Stripped(line));
    if EndsInCr(line) { assert line == Stripped(line) + "\r"; }
  }

  /** Dropping the blank lines at the top and stripping the carriage returns commute. */
  lemma {:induction false} DropOfStripped(lines: seq<string>)
    ensures DropBlankTop(StrippedLines(lines)) == StrippedLines(DropBlankTop(lines))
    ensures |DropBlankTop(lines)| <= |lines|
  {
    hide Trim, Stripped;
    if |lines| == 1 {
      assert DropBlankTop(lines[1..]) == [];
    } else if |lines| > 1 {
      StrippedBlank(lines[0]);
      assert StrippedLines(lines)[1..] == StrippedLines(lines[1..]);
      DropOfStripped(lines[1..]);
    }
  }

  lemma {:induction false} DroppedAreLines(lines: seq<string>)
    requires AreLines(lines)
    ensures AreLines(DropBlankTop(lines)) && AreLines(StrippedLines(lines)) && AreLines(StrippedAll(lines))
  {
    hide Trim, IsLine;
    if lines != [] {
      DroppedAreLines(lines[1..]);
      StrippedIsLine(lines[0]);
    }
  }

  lemma JoinIsInjective(a: seq<string>, b: seq<string>)
    requires AreLines(a) && AreLines(b) && |a| == |b|
    ensures Join(a) == Join(b) <==> a == b
  {
    hide Join, Lines, IsLine;
    if a != [] {
      LinesOfJoin(a);
      LinesOfJoin(b);
    }
  }

  lemma SamePartsOnly(a: seq<string>, b: seq<string>, c: seq<string>, d: seq<string>)
    requires |a| == |c|
    ensures a + b == c + d <==> a == c && b == d
  {
    if a + b == c + d {
      assert a == (a + b)[..|a|] && c == (c + d)[..|a|];
      assert b == (a + b)[|a|..] && d == (c + d)[|a|..];
    }
  }

  lemma ReadAgainIsSame(lines: seq<string>)
    requires AreLines(lines)
    ensures var at := Top(lines);
      Join(StrippedAll(lines[..at]) + DropBlankTop(StrippedLines(lines[at..]))) == Join(WithoutBlankTop(lines))
      <==> KeepsEnds(lines)
  {
    hide Join, Top, DropBlankTop, StrippedAll, StrippedLines, EndsInCr, IsLine;
    var at := Top(lines);
    var (top, below) := (lines[..at], DropBlankTop(lines[at..]));
    DropOfStripped(lines[at..]);
    DroppedAreLines(top);
    DroppedAreLines(lines[at..]);
    DroppedAreLines(below);
    JoinIsInjective(StrippedAll(top) + StrippedLines(below), top + below);
    SamePartsOnly(StrippedAll(top), StrippedLines(below), top, below);
    CleanLines(top);
    StrippedKeeps(below);
  }

  /** Added text that is not found again stays, and is longer than the file. */
  lemma NotFoundStays(header: string, content: string)
    ensures Added(header, content) != Join(WithoutBlankTop(Lines(Normalised(content))))
  {
    hide Lines, Normalised, Added, Join, Trim, HasShebang, IsLine;
    var lines := Lines(Normalised(content));
    LinesOfAdded(header, content);
    LinesAreLines(Normalised(content));
    DropOfStripped(lines[Top(lines)..]);
    DroppedAreLines(lines[Top(lines)..]);
    JoinNothing();
    var kept := WithoutBlankTop(lines);
    if kept != [] { LinesOfJoin(kept); }
  }

  /** Removing after adding gives the normalised file without the blank lines at its top, or below its shebang, exactly
      when the header is found again and the lines that stay keep their ends. */
  lemma RemoveUndoesAdd(header: string, content: string)
    requires !IsHeaded(header, content)
    ensures var lines := Lines(Normalised(content));
      Processed(header, Processed(header, content, Add), Remove) == Join(WithoutBlankTop(lines))
      <==> IsClean(header) && (HasShebang(lines) || !StartsWith(header, "#!")) && KeepsEnds(lines)
  {
    hide Lines, Normalised, Added, Removed, IsHeaded, IsClean, HasShebang, Join, StartsWith, StrippedAll, StrippedLines, KeepsEnds,
      WithoutBlankTop, DropBlankTop;
    var lines := Lines(Normalised(content));
    AddedIsFound(header, content);
    if IsHeaded(header, Added(header, content)) {
      RemovedFromAdded(header, content);
      LinesAreLines(Normalised(content));
      ReadAgainIsSame(lines);
    } else {
      NotFoundStays(header, content);
    }
  }

  lemma LinesOfTheFile()
    ensures Normalised("a\r\r\nb") == "a\r\nb" && Lines("a\r\nb") == ["a\r", "b"] && Lines("h") == ["h"]
  {
    hide Lines;
    NormalisedLine("b");
    NormalisedLine("a\r");
    NormalisedBreak("b");
    NormalisedAfterLine("a\r\r", "b");
    assert "a\r\r" + "\n" + "b" == "a\r\r\nb" && "a\r" + "\n" + "b" == "a\r\nb";
    LinesAfterLine("a\r", "b");
    LinesOfLine("b");
    LinesOfLine("h");
  }

  /** A carriage return before a line break: it is a line's own end after one normalising, and gone after two. */
  lemma RemoveChangesAFile()
    ensures var content := "a\r\r\nb";
      Normalised(content) == "a\r\nb" && !IsHeaded("h", content)
      && Processed("h", Processed("h", content, Add), Remove) == "a\nb"
  {
    hide Added, Removed, Lines, Normalised;
    LinesOfTheFile();
    AddedIsFound("h", "a\r\r\nb");
    RemovedFromAdded("h", "a\r\r\nb");
    WhatIsLeft();
  }

  lemma WhatIsLeft()
    ensures var lines := ["a\r", "b"];
      Join(StrippedAll(lines[..0]) + DropBlankTop(StrippedLines(lines[0..]))) == "a\nb"
  {
    hide Trim, Join;
    var lines := ["a\r", "b"];
    assert lines[..0] == [] && lines[0..] == lines && lines[1..] == ["b"];
    assert "a\r"[..1] == "a" && ["a"] + ["b"] == ["a", "b"];
    TrimBlank("a");
    assert !IsSpace("a"[0]);
    JoinFirst(["a", "b"]);
    JoinFirst(["b"]);
    assert ["a", "b"][1..] == ["b"] && "a" + "\n" + "b" == "a\nb" && [] + ["a", "b"] == ["a", "b"];
  }
}
