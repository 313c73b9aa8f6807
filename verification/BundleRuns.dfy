/** Running the bundle generator twice: what the second run finds, and exactly when it changes nothing. */
module BundleRuns {
  import opened Text
  import opened PropertyValues
  import opened PropertiesBundle

  // ----- own lines ------------------------------------------------------------------------------

  predicate AreOwn(own: seq<string>) { forall i :: 0 <= i < |own| ==> IsOwnLine(own[i]) }

  lemma {:induction false} OwnLinesAreOwn(lines: seq<string>)
    requires AreLines(lines)
    ensures AreOwn(OwnLines(lines)) && AreLines(OwnLines(lines))
    decreases |lines|
  {
    hide IsOwnLine, IsKeyLine, EntryLength, IsLine;
    if lines != [] {
      OwnLinesAreOwn(lines[1..]);
      OwnLinesAreOwn(lines[EntryLength(lines)..]);
    }
  }

  lemma {:induction false} DroppedIsPrefix(own: seq<string>)
    ensures DropBlankEnd(own) <= own
    ensures DropBlankEnd(DropBlankEnd(own)) == DropBlankEnd(own)
  {
    hide Trim;
    if own != [] { DroppedIsPrefix(own[..|own| - 1]); }
  }

  lemma DropTwoBlanks(own: seq<string>)
    ensures DropBlankEnd(own + ["", ""]) == DropBlankEnd(own)
  {
    hide Trim;
    TrimBlank("");
    var two, one := own + ["", ""], own + [""];
    assert two[..|two| - 1] == one && one[..|one| - 1] == own;
  }

  lemma {:induction false} OwnFirst(own: seq<string>, rest: seq<string>)
    requires AreOwn(own)
    ensures OwnLines(own + rest) == own + OwnLines(rest) && RawEntries(own + rest) == RawEntries(rest)
    decreases |own|
  {
    hide Header, MatchKey, EntryLength, Join;
    if own == [] {
      assert own + rest == rest;
    } else {
      var all := own + rest;
      assert all[0] == own[0] && all[1..] == own[1..] + rest;
      SplitStep(all, 1);
      OwnFirst(own[1..], rest);
    }
  }

  lemma HeaderFirst(rest: seq<string>)
    ensures OwnLines(Header() + rest) == OwnLines(rest) && RawEntries(Header() + rest) == RawEntries(rest)
  {
    hide HeaderOrigin, HeaderUse, MatchKey, EntryLength, Join, OwnLines, RawEntries;
    var one := [HeaderUse()] + rest;
    var two := Header() + rest;
    assert two[1..] == one && one[1..] == rest;
    SplitStep(two, 1);
    SplitStep(one, 1);
  }

  // ----- entries --------------------------------------------------------------------------------

  predicate AllButLastContinue(lines: seq<string>) { forall i :: 0 <= i < |lines| - 1 ==> Continues(lines[i]) }

  /** An entry runs on through its continuing lines, and no further unless its last line continues too. */
  lemma {:induction false} EntryTakes(lines: seq<string>, rest: seq<string>)
    requires lines != [] && AllButLastContinue(lines)
    ensures EntryLength(lines + rest)
         == |lines| + if rest != [] && Continues(lines[|lines| - 1]) then EntryLength(rest) else 0
    decreases |lines|
  {
    hide Continues;
    var all := lines + rest;
    if |lines| == 1 {
      assert all[1..] == rest;
    } else {
      assert all[1..] == lines[1..] + rest;
      assert lines[1..][|lines| - 2] == lines[|lines| - 1];
      EntryTakes(lines[1..], rest);
    }
  }

  /** The lines an entry takes: all but the last continue, and the last too only where the lines end. */
  lemma {:induction false} EntryIsClosed(lines: seq<string>)
    requires lines != []
    ensures AllButLastContinue(lines[..EntryLength(lines)])
    ensures EntryLength(lines) < |lines| ==> !Continues(lines[EntryLength(lines) - 1])
    decreases |lines|
  {
    hide Continues;
    var n := EntryLength(lines);
    if n > 1 {
      EntryIsClosed(lines[1..]);
      forall i | 0 <= i < n - 1 ensures Continues(lines[..n][i]) {
        if i > 0 { assert lines[..n][i] == lines[1..][..n - 1][i - 1]; }
      }
    }
  }

  lemma LinesAreRaw(lines: seq<string>)
    requires AreLines(lines) && lines != [] && IsKeyLine(lines[0]) && AllButLastContinue(lines)
    ensures IsRaw(MatchKey(lines[0]).value.0, Join(lines)) && (Dangles(Join(lines)) <==> Continues(lines[|lines| - 1]))
  {
    hide IsKeyLine, MatchKey, IsLine, Continues, Lines, Join;
    LinesOfJoin(lines);
  }

  lemma FirstLines(lines: seq<string>, n: nat)
    requires AreLines(lines) && 0 < n <= |lines|
    ensures AreLines(lines[..n]) && lines[..n][0] == lines[0] && lines[..n][n - 1] == lines[n - 1]
  {
    hide IsLine;
  }

  /** The first lines of a file that start an entry are one, dangling only where they are all the file's. */
  lemma EntryIsRaw(lines: seq<string>)
    requires AreLines(lines) && lines != [] && IsKeyLine(lines[0])
    ensures var n := EntryLength(lines); var raw := Join(lines[..n]);
      IsRaw(MatchKey(lines[0]).value.0, raw) && (Dangles(raw) ==> n == |lines| && Continues(lines[n - 1]))
  {
    hide IsKeyLine, MatchKey, EntryLength, IsLine, AreLines, Continues, Lines, Join, IsRaw, Dangles, AllButLastContinue;
    var n := EntryLength(lines);
    EntryIsClosed(lines);
    FirstLines(lines, n);
    LinesAreRaw(lines[..n]);
  }

  /** Every entry found is an entry of its key; only the last can dangle, and only where the last line continues. */
  lemma {:induction false} RawEntriesAreRaw(lines: seq<string>)
    requires AreLines(lines)
    ensures AreRaw(RawEntries(lines))
    ensures var found := RawEntries(lines);
            forall i :: 0 <= i < |found| && Dangles(found[i].1) ==> i == |found| - 1 && Continues(lines[|lines| - 1])
    decreases |lines|
  {
    hide IsKeyLine, IsOwnLine, MatchKey, EntryLength, IsLine, Continues, Lines, Join, IsRaw, Dangles, RawEntries;
    SplitNothing();
    if lines != [] {
      var n := if IsKeyLine(lines[0]) then EntryLength(lines) else 1;
      var rest := lines[n..];
      SplitStep(lines, n);
      if IsKeyLine(lines[0]) { EntryIsRaw(lines); }
      RawEntriesAreRaw(rest);
      assert n == |lines| ==> rest == [];
      assert n < |lines| ==> rest[|rest| - 1] == lines[|lines| - 1];
    }
  }

  lemma RawIsEntry(key: string, raw: string, rest: seq<string>)
    requires IsRaw(key, raw) && !Dangles(raw)
    ensures OwnLines(Lines(raw) + rest) == OwnLines(rest)
    ensures RawEntries(Lines(raw) + rest) == [(key, raw)] + RawEntries(rest)
  {
    hide IsKeyLine, IsOwnLine, MatchKey, EntryLength, Continues, Lines, Join;
    var lines := Lines(raw);
    var all := lines + rest;
    EntryTakes(lines, rest);
    assert all[..|lines|] == lines && all[|lines|..] == rest && all[0] == lines[0];
    JoinOfLines(raw);
    KeyLineIsNotOwn(all[0]);
    SplitStep(all, |lines|);
  }

  lemma KeyLineIsNotOwn(line: string)
    ensures IsKeyLine(line) ==> !IsOwnLine(line)
  {
    hide Header, MatchKey;
  }

  /** Splitting reads a block of closed entries back. */
  lemma {:induction false} BlockReadsBack(block: Pairs, rest: seq<string>)
    requires AreRaw(block) && NoneDangles(block)
    ensures OwnLines(Flat(block) + rest) == OwnLines(rest)
    ensures RawEntries(Flat(block) + rest) == block + RawEntries(rest)
    decreases |block|
  {
    hide IsRaw, Dangles, OwnLines, RawEntries, Lines;
    if block == [] {
      assert Flat(block) + rest == rest;
    } else {
      assert Flat(block) + rest == Lines(block[0].1) + (Flat(block[1..]) + rest);
      BlockReadsBack(block[1..], rest);
      RawIsEntry(block[0].0, block[0].1, Flat(block[1..]) + rest);
    }
  }

  lemma SplitBlankLine()
    ensures OwnLines([""]) == [""] && RawEntries([""]) == []
  {
    hide Header, MatchKey, EntryLength, Join, OwnLines, RawEntries;
    HeaderLines();
    SplitNothing();
    var blank := [""];
    SplitStep(blank, 1);
    assert blank[1..] == [];
  }

  /** Splitting a rewritten bundle gives back its own lines and the entries written. */
  lemma SplitOfRewritten(own: seq<string>, block: Pairs)
    requires AreLines(own) && AreOwn(own) && DropBlankEnd(own) == own
    requires AreRaw(block) && NoneDangles(block)
    ensures SplitOf(Rewritten(own, block)) == Bundle(own, ToMap(block))
  {
    hide OwnLines, RawEntries, Lines, Rewritten, Header, IsOwnLine, Flat, AreRaw, NoneDangles, DropBlankEnd, ToMap;
    LinesOfText(own, block);
    var tail := Flat(block) + [""];
    SplitBlankLine();
    BlockReadsBack(block, [""]);
    HeaderFirst(tail);
    HeaderLines();
    OwnFirst([""], Header() + tail);
    OwnFirst(own, [""] + (Header() + tail));
    assert own + ([""] + [""]) == own + ["", ""] && block + [] == block;
    DropTwoBlanks(own);
  }

  lemma {:induction false} ToMapAt(pairs: Pairs, i: nat)
    requires i < |pairs| && Distinct(pairs)
    ensures pairs[i].0 in ToMap(pairs) && ToMap(pairs)[pairs[i].0] == pairs[i].1
    decreases |pairs|
  {
    if i < |pairs| - 1 { ToMapAt(pairs[..|pairs| - 1], i); }
  }

  lemma {:induction false} ToMapHas(pairs: Pairs, key: string) returns (i: nat)
    requires key in ToMap(pairs)
    ensures i < |pairs| && pairs[i].0 == key && pairs[i].1 == ToMap(pairs)[key]
    decreases |pairs|
  {
    i := |pairs| - 1;
    if pairs[i].0 != key { i := ToMapHas(pairs[..i], key); }
  }

  /** What splitting any bundle finds. */
  lemma SplitFinds(text: string)
    ensures var b := SplitOf(text);
      && AreLines(b.own) && AreOwn(b.own) && DropBlankEnd(b.own) == b.own
      && forall key :: key in b.existing ==> IsRaw(key, b.existing[key])
  {
    hide OwnLines, RawEntries, Lines, IsLine, IsOwnLine, DropBlankEnd, ToMap, IsRaw, Dangles;
    var lines := Lines(text);
    LinesAreLines(text);
    OwnLinesAreOwn(lines);
    DroppedIsPrefix(OwnLines(lines));
    RawEntriesAreRaw(lines);
    forall key | key in SplitOf(text).existing ensures IsRaw(key, SplitOf(text).existing[key]) {
      var i := ToMapHas(RawEntries(lines), key);
    }
  }

  // ----- what rendering writes ------------------------------------------------------------------

  lemma PrintedIsRaw(key: string, value: string)
    requires IsKey(key)
    ensures IsRaw(key, PrintEntry(key, value)) && !Dangles(PrintEntry(key, value))
  {
    hide EscapeValue, MatchKey, Header, Continues, Lines;
    PrintedIsLine(key, value);
    LinesOfLine(PrintEntry(key, value));
    PrintedKeyMatches(key, EscapeValue(value));
    PrintedNeverContinues(key, value);
    HeaderLines();
  }

  /** No entry a language file keeps was cut off by the end of the file. */
  predicate NoKeptDangles(text: string, entries: Pairs, previous: map<string, string>)
  {
    var existing := SplitOf(text).existing;
    forall i :: 0 <= i < |entries| && Keeps(entries[i], existing, previous) ==> !Dangles(existing[entries[i].0])
  }

  lemma KeptExists(existing: map<string, string>, previous: map<string, string>)
    ensures forall entry :: Keeps(entry, existing, previous) ==> entry.0 in existing
  {
  }

  lemma RenderedIsRaw(text: string, entries: Pairs, keep: bool, previous: map<string, string>)
    requires AreKeys(entries)
    ensures AreRaw(RenderedBlock(text, entries, keep, previous))
    ensures NoneDangles(RenderedBlock(text, entries, keep, previous)) <==> !keep || NoKeptDangles(text, entries, previous)
  {
    hide IsRaw, Dangles, SplitOf, Keeps, Known, PrintEntry, IsKey;
    SplitFinds(text);
    var existing := SplitOf(text).existing;
    KeptExists(existing, previous);
    var known := if keep then Known(existing, entries, previous) else map[];
    forall i | 0 <= i < |entries|
      ensures var raw := RenderEntry(entries[i], existing, known, keep, previous);
        && IsRaw(entries[i].0, raw)
        && (Dangles(raw) ==> keep && Keeps(entries[i], existing, previous) && Dangles(existing[entries[i].0]))
    {
      var english := entries[i].1;
      PrintedIsRaw(entries[i].0, if english in known then known[english] else english);
    }
    var block := RenderedBlock(text, entries, keep, previous);
    if keep && NoneDangles(block) {
      forall i | 0 <= i < |entries| && Keeps(entries[i], existing, previous) ensures !Dangles(existing[entries[i].0]) {
        assert !Dangles(block[i].1);
      }
    }
  }

  // ----- running twice --------------------------------------------------------------------------

  /** Splitting a rendered bundle finds the own lines of before and the entries rendered. */
  lemma SplitOfRendered(text: string, entries: Pairs, keep: bool, previous: map<string, string>)
    requires AreKeys(entries) && (keep ==> NoKeptDangles(text, entries, previous))
    ensures SplitOf(Render(text, entries, keep, previous))
         == Bundle(SplitOf(text).own, ToMap(RenderedBlock(text, entries, keep, previous)))
  {
    hide AreRaw, NoneDangles, SplitOf, NoKeptDangles, RenderedBlock, Rewritten, ToMap, AreOwn, AreLines;
    SplitFinds(text);
    RenderedIsRaw(text, entries, keep, previous);
    SplitOfRewritten(SplitOf(text).own, RenderedBlock(text, entries, keep, previous));
  }

  /** The entry under each key after a rendering. */
  lemma RenderedEntry(text: string, entries: Pairs, keep: bool, previous: map<string, string>, i: nat)
    requires AreKeys(entries) && Distinct(entries) && (keep ==> NoKeptDangles(text, entries, previous))
    requires i < |entries|
    ensures var existing, after := SplitOf(text).existing, SplitOf(Render(text, entries, keep, previous)).existing;
      && entries[i].0 in after
      && after[entries[i].0]
      == RenderEntry(entries[i], existing, if keep then Known(existing, entries, previous) else map[], keep, previous)
  {
    hide SplitOf, Render, NoKeptDangles, RenderEntry, Known, ToMap, IsKey;
    SplitOfRendered(text, entries, keep, previous);
    ToMapAt(RenderedBlock(text, entries, keep, previous), i);
  }

  /** The English bundles: a second rendering changes nothing, whatever the file held. */
  lemma EnglishIsIdempotent(text: string, entries: Pairs, previous: map<string, string>, later: map<string, string>)
    requires AreKeys(entries)
    ensures var once := Render(text, entries, false, previous); Render(once, entries, false, later) == once
  {
    hide SplitOf, PrintEntry, Rewritten;
    SplitOfRendered(text, entries, false, previous);
    var once := Render(text, entries, false, previous);
    assert RenderedBlock(once, entries, false, later) == RenderedBlock(text, entries, false, previous);
  }

  /** Every English text is read back as printed. */
  predicate AllRoundTrip(entries: Pairs)
  {
    forall i :: 0 <= i < |entries| ==> !StartsUnescapedSpace(entries[i].1)
  }

  /** Reading an English bundle back gives exactly the entries rendered, if and only if every text round-trips. */
  lemma ParsingUndoesRendering(text: string, entries: Pairs, previous: map<string, string>)
    requires AreKeys(entries) && Distinct(entries)
    ensures BundleValues(Render(text, entries, false, previous)) == ToMap(entries) <==> AllRoundTrip(entries)
  {
    hide SplitOf, Render, ParseValue, PrintEntry, ToMap, StartsUnescapedSpace, IsKey, RenderedBlock;
    var once := Render(text, entries, false, previous);
    var values := BundleValues(once);
    SplitOfRendered(text, entries, false, previous);
    forall i | 0 <= i < |entries|
      ensures var (key, english) := entries[i]; key in values && key in ToMap(entries) && ToMap(entries)[key] == english
      ensures values[entries[i].0] == entries[i].1 <==> !StartsUnescapedSpace(entries[i].1)
    {
      RenderedEntry(text, entries, false, previous, i);
      ToMapAt(entries, i);
      ParseUndoesPrint(entries[i].0, entries[i].1);
    }
    assert values.Keys == ToMap(entries).Keys by {
      forall key | key in values ensures key in ToMap(entries) { RenderedKeys(text, entries, false, previous, key); }
      forall key | key in ToMap(entries) ensures key in values { var i := ToMapHas(entries, key); }
    }
    if AllRoundTrip(entries) {
      forall key | key in values ensures values[key] == ToMap(entries)[key] { var i := ToMapHas(entries, key); }
    }
  }

  /** A rendered bundle holds the entries' keys and no other. */
  lemma RenderedKeys(text: string, entries: Pairs, keep: bool, previous: map<string, string>, key: string)
    requires AreKeys(entries) && Distinct(entries) && (keep ==> NoKeptDangles(text, entries, previous))
    requires key in SplitOf(Render(text, entries, keep, previous)).existing
    ensures key in ToMap(entries)
  {
    hide SplitOf, Render, NoKeptDangles, RenderEntry, Known, ToMap, IsKey;
    SplitOfRendered(text, entries, keep, previous);
    var i := ToMapHas(RenderedBlock(text, entries, keep, previous), key);
    assert RenderedBlock(text, entries, keep, previous)[i].0 == entries[i].0;
    ToMapAt(entries, i);
  }

  /** An existing translation survives byte for byte, unless it is the placeholder of an English since changed. */
  lemma TranslationsSurvive(text: string, entries: Pairs, previous: map<string, string>, i: nat)
    requires AreKeys(entries) && Distinct(entries) && NoKeptDangles(text, entries, previous)
    requires i < |entries| && entries[i].0 in SplitOf(text).existing
    ensures var key := entries[i].0;
            var raw, after := SplitOf(text).existing[key], SplitOf(Render(text, entries, true, previous)).existing;
      && key in after
      && (!StalePlaceholder(key, ParseValue(raw), entries[i].1, previous) ==> after[key] == raw)
  {
    hide SplitOf, Render, NoKeptDangles, Known, StalePlaceholder, ParseValue, IsKey, PrintEntry;
    RenderedEntry(text, entries, true, previous, i);
  }

  // ----- the second run over a language bundle --------------------------------------------------

  /** With the default bundle already showing today's English, no placeholder is stale: what is there is kept. */
  lemma NothingIsStale(entries: Pairs, existing: map<string, string>, i: nat)
    requires Distinct(entries) && i < |entries|
    ensures Keeps(entries[i], existing, ToMap(entries)) <==> entries[i].0 in existing
  {
    hide ParseValue, ToMap;
    ToMapAt(entries, i);
  }

  lemma KeptAsIs(entry: (string, string), existing: map<string, string>, known: map<string, string>, previous: map<string, string>)
    requires Keeps(entry, existing, previous)
    ensures entry.0 in existing && RenderEntry(entry, existing, known, true, previous) == existing[entry.0]
  {
  }

  lemma ClosedIsIdempotent(text: string, entries: Pairs, previous: map<string, string>)
    requires AreKeys(entries) && Distinct(entries) && NoKeptDangles(text, entries, previous)
    ensures var once := Render(text, entries, true, previous); Render(once, entries, true, ToMap(entries)) == once
  {
    hide SplitOf, RenderEntry, Keeps, Known, NoKeptDangles, Rewritten, ToMap, IsKey;
    var once := Render(text, entries, true, previous);
    SplitOfRendered(text, entries, true, previous);
    var existing := SplitOf(once).existing;
    var first, second := RenderedBlock(text, entries, true, previous), RenderedBlock(once, entries, true, ToMap(entries));
    forall i | 0 <= i < |entries| ensures second[i] == first[i] {
      RenderedEntry(text, entries, true, previous, i);
      NothingIsStale(entries, existing, i);
      KeptAsIs(entries[i], existing, Known(existing, entries, ToMap(entries)), ToMap(entries));
    }
    assert first == second;
  }

  lemma {:induction false} FlatConcat(a: Pairs, b: Pairs)
    ensures Flat(a + b) == Flat(a) + Flat(b)
    decreases |a|
  {
    hide Lines;
    if a == [] {
      assert a + b == b;
    } else {
      assert (a + b)[1..] == a[1..] + b;
      FlatConcat(a[1..], b);
    }
  }

  lemma {:induction false} FlatIsLines(block: Pairs)
    ensures AreLines(Flat(block))
  {
    hide Lines, IsLine;
    if block != [] {
      LinesAreLines(block[0].1);
      FlatIsLines(block[1..]);
    }
  }

  /** At most one entry of a bundle was cut off by its end. */
  lemma OneDangles(text: string, key: string, other: string)
    requires key in SplitOf(text).existing && other in SplitOf(text).existing
    requires Dangles(SplitOf(text).existing[key]) && Dangles(SplitOf(text).existing[other])
    ensures key == other
  {
    hide OwnLines, RawEntries, Lines, DropBlankEnd, ToMap, Dangles;
    LinesAreLines(text);
    RawEntriesAreRaw(Lines(text));
    var i := ToMapHas(RawEntries(Lines(text)), key);
    var j := ToMapHas(RawEntries(Lines(text)), other);
  }

  /** Only a file whose last line continues was cut off inside an entry. */
  lemma ClosedFileHasNoDangling(text: string, entries: Pairs, previous: map<string, string>)
    requires !Dangles(text)
    ensures NoKeptDangles(text, entries, previous)
  {
    hide OwnLines, RawEntries, Lines, DropBlankEnd, ToMap, Continues;
    LinesAreLines(text);
    RawEntriesAreRaw(Lines(text));
    var existing := SplitOf(text).existing;
    forall i | 0 <= i < |entries| && Keeps(entries[i], existing, previous) ensures !Dangles(existing[entries[i].0]) {
      var k := ToMapHas(RawEntries(Lines(text)), entries[i].0);
    }
  }

  /** What the cut-off entry swallows once something follows it: the next entry, or the blank last line. */
  function Swallowed(post: Pairs): (lines: seq<string>)
  {
    if post == [] then [""] else Lines(post[0].1)
  }

  /** What is behind that. */
  function Left(post: Pairs): (lines: seq<string>)
  {
    if post == [] then [] else Flat(post[1..]) + [""]
  }

  lemma SwallowedAndLeft(post: Pairs)
    ensures Flat(post) + [""] == Swallowed(post) + Left(post)
  {
    hide Lines;
  }

  lemma SwallowedIsClosed(post: Pairs)
    requires AreRaw(post) && NoneDangles(post)
    ensures Swallowed(post) != [] && AllButLastContinue(Swallowed(post))
    ensures !Continues(Swallowed(post)[|Swallowed(post)| - 1]) && AreLines(Swallowed(post))
  {
    hide Lines, IsKeyLine, MatchKey, IsLine;
    if post == [] {
      NothingContinues();
    } else {
      LinesAreLines(post[0].1);
    }
  }

  lemma NothingContinues()
    ensures !Continues("") && IsLine("")
  {
  }

  lemma LeftReadsBack(post: Pairs)
    requires AreRaw(post) && NoneDangles(post)
    ensures RawEntries(Left(post)) == AfterSwallowed(post) && OwnLines(Left(post)) == if post == [] then [] else [""]
  {
    hide OwnLines, RawEntries, Lines, IsRaw, Dangles, Flat;
    SplitNothing();
    SplitBlankLine();
    if post != [] {
      BlockReadsBack(post[1..], [""]);
      assert post[1..] + [] == post[1..];
    }
  }

  /** The cut-off entry as the next run reads it. */
  function Swollen(raw: string, post: Pairs): (r: string) { Join(Lines(raw) + Swallowed(post)) }

  function AfterSwallowed(post: Pairs): (rest: Pairs) { if post == [] then [] else post[1..] }

  lemma DanglingReadsBack(key: string, raw: string, post: Pairs)
    requires IsRaw(key, raw) && Dangles(raw) && AreRaw(post) && NoneDangles(post)
    ensures var lines := Lines(raw) + (Flat(post) + [""]);
      && RawEntries(lines) == [(key, Swollen(raw, post))] + AfterSwallowed(post)
      && OwnLines(lines) == if post == [] then [] else [""]
    ensures Lines(Swollen(raw, post)) == Lines(raw) + Swallowed(post)
  {
    hide IsKeyLine, IsOwnLine, OwnLines, RawEntries, Lines, EntryLength, MatchKey, Join, AreRaw, NoneDangles, Continues,
         Swallowed, Left, AfterSwallowed, Flat, AreLines;
    var (lines, next, left) := (Lines(raw), Swallowed(post), Left(post));
    SwallowedAndLeft(post);
    SwallowedIsClosed(post);
    LeftReadsBack(post);
    Pieces(lines, next, left);
    EntryTakes(next, left);
    EntryTakes(lines, next + left);
    KeyLineIsNotOwn(lines[0]);
    SplitStep(lines + (next + left), |lines| + |next|);
    LinesAreLines(raw);
    BothAreLines(lines, next);
    LinesOfJoin(lines + next);
  }

  lemma BothAreLines(a: seq<string>, b: seq<string>)
    requires AreLines(a) && AreLines(b)
    ensures AreLines(a + b)
  {
    hide IsLine;
  }

  lemma Pieces(a: seq<string>, b: seq<string>, c: seq<string>)
    requires a != []
    ensures var all := a + (b + c);
      all[..|a| + |b|] == a + b && all[|a| + |b|..] == c && all[0] == a[0]
  {
  }

  lemma DropBlank(own: seq<string>)
    ensures DropBlankEnd(own + [""]) == DropBlankEnd(own)
  {
    TrimBlank("");
    assert (own + [""])[..|own|] == own;
  }

  lemma SplitOfDangling(own: seq<string>, pre: Pairs, key: string, raw: string, post: Pairs)
    requires AreLines(own) && AreOwn(own) && DropBlankEnd(own) == own
    requires AreRaw(pre) && NoneDangles(pre) && IsRaw(key, raw) && Dangles(raw) && AreRaw(post) && NoneDangles(post)
    ensures SplitOf(Rewritten(own, pre + ([(key, raw)] + post)))
         == Bundle(own, ToMap(pre + ([(key, Swollen(raw, post))] + AfterSwallowed(post))))
  {
    hide OwnLines, RawEntries, Lines, Rewritten, Header, IsOwnLine, AreRaw, NoneDangles, IsRaw, Dangles, DropBlankEnd, ToMap,
         Swollen, AfterSwallowed;
    LinesOfText(own, pre + ([(key, raw)] + post));
    FlatConcat(pre, [(key, raw)] + post);
    var rest := Lines(raw) + (Flat(post) + [""]);
    var tail := Flat(pre) + rest;
    assert ([(key, raw)] + post)[1..] == post;
    assert Flat(pre + ([(key, raw)] + post)) + [""] == tail;
    DanglingReadsBack(key, raw, post);
    BlockReadsBack(pre, rest);
    HeaderFirst(tail);
    HeaderLines();
    OwnFirst([""], Header() + tail);
    OwnFirst(own, [""] + (Header() + tail));
    if post == [] {
      assert own + ([""] + []) == own + [""];
      DropBlank(own);
    } else {
      assert own + ([""] + [""]) == own + ["", ""];
      DropTwoBlanks(own);
    }
  }

  /** After a cut-off entry has swallowed the next, the lines cannot be the same again. */
  lemma SwallowingShows(before: seq<string>, post: Pairs, again: Pairs)
    requires AreRaw(post) && AreRaw(again) && Distinct(post)
    requires |again| == |post| && forall i :: 0 <= i < |post| ==> again[i].0 == post[i].0
    ensures before + (Swallowed(post) + Flat(again)) != before + Flat(post)
  {
    hide Lines, MatchKey, Header;
    var left, right := Swallowed(post) + Flat(again), Flat(post);
    assert left != right by {
      if post != [] {
        assert left[|Swallowed(post)|..] == Flat(again) && right[|Swallowed(post)|..] == Flat(post[1..]);
        assert Flat(again)[0] == Lines(again[0].1)[0];
        if |post| > 1 {
          assert Flat(post[1..])[0] == Lines(post[1].1)[0];
        }
      }
    }
    assert (before + left)[|before|..] == left && (before + right)[|before|..] == right;
  }

  /** All entries but the cut-off one are closed. */
  lemma RestIsClosed(text: string, entries: Pairs, previous: map<string, string>, j: nat)
    requires AreKeys(entries) && Distinct(entries) && j < |entries|
    requires Keeps(entries[j], SplitOf(text).existing, previous) && Dangles(SplitOf(text).existing[entries[j].0])
    ensures var first := RenderedBlock(text, entries, true, previous);
            Dangles(first[j].1) && NoneDangles(first[..j]) && NoneDangles(first[j + 1..])
  {
    hide SplitOf, Known, IsKey, Dangles, PrintEntry, StalePlaceholder, ParseValue, IsRaw;
    var existing := SplitOf(text).existing;
    var known := Known(existing, entries, previous);
    var first := RenderedBlock(text, entries, true, previous);
    forall i | 0 <= i < |entries| && i != j ensures !Dangles(first[i].1) {
      if Keeps(entries[i], existing, previous) {
        if Dangles(existing[entries[i].0]) { OneDangles(text, entries[i].0, entries[j].0); }
      } else {
        PrintedIsRaw(entries[i].0, if entries[i].1 in known then known[entries[i].1] else entries[i].1);
      }
    }
  }

  /** `found` is what the second run finds: the entries up to `j`, and those after the swallowed one. */
  predicate SkipsOne(found: Pairs, entries: Pairs, j: nat)
  {
    && j < |found| <= |entries| && (|found| > j + 1 ==> |found| < |entries|)
    && (forall i :: 0 <= i <= j ==> found[i].0 == entries[i].0)
    && (forall i :: j < i < |found| ==> found[i].0 == entries[i + 1].0)
  }

  lemma SkippingStaysDistinct(found: Pairs, entries: Pairs, j: nat)
    requires Distinct(entries) && SkipsOne(found, entries, j)
    ensures Distinct(found)
  {
  }

  /** The second run keeps the entries before the cut-off one, and the cut-off one with what it swallowed. */
  lemma SecondBlock(once: string, entries: Pairs, found: Pairs, j: nat)
    requires Distinct(entries) && SkipsOne(found, entries, j)
    requires SplitOf(once).existing == ToMap(found)
    ensures RenderedBlock(once, entries, true, ToMap(entries))[..j + 1] == found[..j + 1]
  {
    hide SplitOf, ToMap, Keeps, RenderEntry, Known, Distinct;
    SkippingStaysDistinct(found, entries, j);
    var existing := SplitOf(once).existing;
    forall i | 0 <= i <= j ensures RenderedBlock(once, entries, true, ToMap(entries))[i] == found[i] {
      ToMapAt(found, i);
      NothingIsStale(entries, existing, i);
      KeptAsIs(entries[i], existing, Known(existing, entries, ToMap(entries)), ToMap(entries));
    }
  }

  lemma SameMiddle(top: seq<string>, a: seq<string>, b: seq<string>)
    requires top + (a + [""]) == top + (b + [""])
    ensures a == b
  {
    var s, t := top + (a + [""]), top + (b + [""]);
    assert a == s[|top|..|s| - 1] && b == t[|top|..|t| - 1];
  }

  /** Two rewritten bundles with different lines are different. */
  lemma LinesShow(own: seq<string>, block: Pairs, other: Pairs)
    requires AreLines(own) && Flat(block) != Flat(other)
    ensures Rewritten(own, block) != Rewritten(own, other)
  {
    hide Rewritten, Lines, Flat, Header, IsLine;
    LinesOfText(own, block);
    LinesOfText(own, other);
    var top := own + ([""] + Header());
    if Rewritten(own, block) == Rewritten(own, other) {
      assert Lines(Rewritten(own, block)) == top + (Flat(block) + [""]);
      assert Lines(Rewritten(own, other)) == top + (Flat(other) + [""]);
      SameMiddle(top, Flat(block), Flat(other));
    }
  }

  lemma FlatAround(pre: Pairs, pair: (string, string), post: Pairs)
    ensures Flat(pre + ([pair] + post)) == Flat(pre) + Lines(pair.1) + Flat(post)
  {
    FlatConcat(pre, [pair] + post);
    assert ([pair] + post)[1..] == post;
  }

  predicate SameKeys(a: Pairs, b: Pairs) { |a| == |b| && forall i :: 0 <= i < |a| ==> a[i].0 == b[i].0 }

  /** What splitting finds where the `j`th entry of `block` was cut off. */
  function FoundAfter(block: Pairs, j: nat): (found: Pairs)
    requires j < |block|
  {
    block[..j] + ([(block[j].0, Swollen(block[j].1, block[j + 1..]))] + AfterSwallowed(block[j + 1..]))
  }

  lemma FoundSkipsOne(block: Pairs, entries: Pairs, j: nat)
    requires SameKeys(block, entries) && j < |block|
    ensures SkipsOne(FoundAfter(block, j), entries, j)
    ensures FoundAfter(block, j)[..j + 1] == block[..j] + [(block[j].0, Swollen(block[j].1, block[j + 1..]))]
  {
    hide Swollen;
  }

  /** Only the `j`th entry of `block` was cut off. */
  predicate OnlyDangles(block: Pairs, j: nat)
  {
    j < |block| && AreRaw(block) && Dangles(block[j].1) && NoneDangles(block[..j]) && NoneDangles(block[j + 1..])
  }

  lemma FindsSwollen(own: seq<string>, block: Pairs, j: nat)
    requires AreLines(own) && AreOwn(own) && DropBlankEnd(own) == own && OnlyDangles(block, j)
    ensures SplitOf(Rewritten(own, block)) == Bundle(own, ToMap(FoundAfter(block, j)))
  {
    hide SplitOf, Rewritten, ToMap, AreRaw, IsRaw, Dangles, AreOwn, DropBlankEnd, AreLines, Swollen, NoneDangles, AfterSwallowed;
    SliceIsRaw(block, j);
    assert block == block[..j] + ([(block[j].0, block[j].1)] + block[j + 1..]);
    SplitOfDangling(own, block[..j], block[j].0, block[j].1, block[j + 1..]);
  }

  /** A block that writes what was found around the cut-off entry has other lines. */
  lemma SwollenBlockDiffers(first: Pairs, second: Pairs, j: nat)
    requires OnlyDangles(first, j) && Distinct(first) && SameKeys(first, second) && AreRaw(second)
    requires second[..j + 1] == first[..j] + [(first[j].0, Swollen(first[j].1, first[j + 1..]))]
    ensures Flat(first) != Flat(second)
  {
    hide AreRaw, IsRaw, Dangles, Swollen, Lines, Flat, NoneDangles;
    var (key, raw) := first[j];
    var (pre, post, again) := (first[..j], first[j + 1..], second[j + 1..]);
    SliceIsRaw(first, j);
    SliceIsRaw(second, j);
    assert first == pre + ([(key, raw)] + post);
    assert second == second[..j + 1] + again == pre + ([(key, Swollen(raw, post))] + again);
    FlatAround(pre, (key, raw), post);
    FlatAround(pre, (key, Swollen(raw, post)), again);
    DanglingReadsBack(key, raw, post);
    SwallowingShows(Flat(pre) + Lines(raw), post, again);
    SameSum(Flat(pre), Lines(raw), Swallowed(post), Flat(again));
  }

  lemma SameSum(a: seq<string>, b: seq<string>, c: seq<string>, d: seq<string>)
    ensures a + (b + c) + d == (a + b) + (c + d)
  {
  }

  lemma BlockHasKeys(text: string, entries: Pairs, previous: map<string, string>)
    ensures |RenderedBlock(text, entries, true, previous)| == |entries|
    ensures SameKeys(RenderedBlock(text, entries, true, previous), entries)
  {
    hide SplitOf, RenderEntry, Known;
  }

  lemma OneIsCutOff(text: string, entries: Pairs, previous: map<string, string>, j: nat)
    requires AreKeys(entries) && Distinct(entries) && j < |entries|
    requires Keeps(entries[j], SplitOf(text).existing, previous) && Dangles(SplitOf(text).existing[entries[j].0])
    ensures OnlyDangles(RenderedBlock(text, entries, true, previous), j)
  {
    hide SplitOf, Keeps, RenderedBlock, AreRaw, NoneDangles, Dangles, IsKey, Distinct;
    BlockHasKeys(text, entries, previous);
    RenderedIsRaw(text, entries, true, previous);
    RestIsClosed(text, entries, previous, j);
  }

  lemma SameKeysDistinct(a: Pairs, b: Pairs)
    requires SameKeys(a, b) && Distinct(b)
    ensures Distinct(a)
  {
  }

  lemma SameKeysBoth(a: Pairs, b: Pairs, entries: Pairs)
    requires SameKeys(a, entries) && SameKeys(b, entries)
    ensures SameKeys(a, b)
  {
  }

  /** A kept entry that was cut off shows at the next run. */
  lemma DanglingIsNotIdempotent(text: string, entries: Pairs, previous: map<string, string>, j: nat)
    requires AreKeys(entries) && Distinct(entries) && j < |entries|
    requires Keeps(entries[j], SplitOf(text).existing, previous) && Dangles(SplitOf(text).existing[entries[j].0])
    ensures var once := Render(text, entries, true, previous); Render(once, entries, true, ToMap(entries)) != once
  {
    hide SplitOf, RenderedBlock, Keeps, Rewritten, ToMap, IsKey, AreRaw, Dangles, AreOwn, DropBlankEnd, AreLines, Flat,
         FoundAfter, SkipsOne, OnlyDangles, SameKeys, Distinct, Swollen;
    var once := Render(text, entries, true, previous);
    var first := RenderedBlock(text, entries, true, previous);
    var second := RenderedBlock(once, entries, true, ToMap(entries));
    BlockHasKeys(text, entries, previous);
    BlockHasKeys(once, entries, ToMap(entries));
    SameKeysDistinct(first, entries);
    SameKeysBoth(first, second, entries);
    SplitFinds(text);
    OneIsCutOff(text, entries, previous, j);
    FindsSwollen(SplitOf(text).own, first, j);
    FoundSkipsOne(first, entries, j);
    SecondBlock(once, entries, FoundAfter(first, j), j);
    RenderedIsRaw(once, entries, true, ToMap(entries));
    SwollenBlockDiffers(first, second, j);
    LinesShow(SplitOf(text).own, first, second);
  }

  lemma SliceIsRaw(block: Pairs, j: nat)
    requires AreRaw(block) && j < |block|
    ensures AreRaw(block[..j]) && IsRaw(block[j].0, block[j].1) && AreRaw(block[j + 1..])
  {
    hide IsRaw;
  }

  /** A language bundle: the second run changes nothing exactly when no entry it keeps was cut off by the end of the
      file. */
  lemma LanguageIsIdempotent(text: string, entries: Pairs, previous: map<string, string>)
    requires AreKeys(entries) && Distinct(entries)
    ensures var once := Render(text, entries, true, previous);
            Render(once, entries, true, ToMap(entries)) == once <==> NoKeptDangles(text, entries, previous)
  {
    hide SplitOf, StalePlaceholder, ParseValue, Render, Dangles, IsKey, ToMap;
    if NoKeptDangles(text, entries, previous) {
      ClosedIsIdempotent(text, entries, previous);
    } else {
      var existing := SplitOf(text).existing;
      var j :| 0 <= j < |entries| && Keeps(entries[j], existing, previous) && Dangles(existing[entries[j].0]);
      DanglingIsNotIdempotent(text, entries, previous, j);
    }
  }
}
