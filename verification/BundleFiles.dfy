/** The eight bundles of the config app: one run of the generator over all of them, and what a second run finds. */
module BundleFiles {
  import opened Text
  import opened PropertyValues
  import opened PropertiesBundle
  import opened BundleRuns

  const BUNDLES := 8
  const ENGLISH_BUNDLES := 2

  /** The texts the write mode would leave: the English bundles come first, the default bundle first of all. */
  function Written(files: seq<string>, entries: Pairs): (after: seq<string>)
    requires |files| == BUNDLES
    ensures |after| == BUNDLES
  {
    var previous := BundleValues(files[0]);
    seq(BUNDLES, i requires 0 <= i < BUNDLES => Render(files[i], entries, i >= ENGLISH_BUNDLES, previous))
  }

  /** The bundles whose text a run would change, in order. */
  function Changed(files: seq<string>, after: seq<string>): (stale: seq<nat>)
    requires |files| == |after|
    ensures forall i: nat :: i in stale <==> i < |files| && files[i] != after[i]
  {
    if files == [] then []
    else
      var n := |files| - 1;
      Changed(files[..n], after[..n]) + if files[n] != after[n] then [n] else []
  }

  method StaleBundles(files: array<string>, entries: Pairs, write: bool) returns (stale: seq<nat>)
    requires files.Length == BUNDLES
    modifies files
    ensures stale == Changed(old(files[..]), Written(old(files[..]), entries))
    ensures files[..] == if write then Written(old(files[..]), entries) else old(files[..])
  {
    hide BundleValues, Render, Changed;
    ghost var before, after := files[..], Written(files[..], entries);
    var previous := BundleValues(files[0]);
    stale := [];
    NothingChanged();
    var i := 0;
    while i < BUNDLES
      invariant 0 <= i <= BUNDLES
      invariant stale == Changed(before[..i], after[..i])
      invariant forall k :: 0 <= k < BUNDLES ==> files[k] == if write && k < i then after[k] else before[k]
    {
      var text := files[i];
      var rendered := Render(text, entries, i >= ENGLISH_BUNDLES, previous);
      assert text == before[i] && rendered == after[i];
      ChangedNext(before, after, i);
      if rendered != text {
        stale := stale + [i];
        if write { files[i] := rendered; }
      }
      i := i + 1;
    }
    assert before[..BUNDLES] == before && after[..BUNDLES] == after;
    assert files[..] == if write then after else before;
  }

  lemma NothingChanged()
    ensures Changed([], []) == []
  {
  }

  lemma ChangedNext(files: seq<string>, after: seq<string>, i: nat)
    requires i < |files| == |after|
    ensures Changed(files[..i + 1], after[..i + 1])
         == Changed(files[..i], after[..i]) + if files[i] != after[i] then [i] else []
  {
    assert files[..i + 1][..i] == files[..i] && after[..i + 1][..i] == after[..i];
  }

  /** No language bundle keeps an entry that the end of its file cut off. */
  predicate NoneCutOff(files: seq<string>, entries: Pairs)
    requires |files| == BUNDLES
  {
    forall i :: ENGLISH_BUNDLES <= i < BUNDLES ==> NoKeptDangles(files[i], entries, BundleValues(files[0]))
  }

  /** For texts that round-trip: running the generator twice changes nothing the second time, exactly when no
      language bundle keeps an entry that the end of its file cut off. */
  lemma TwiceIsOnce(files: seq<string>, entries: Pairs)
    requires |files| == BUNDLES && AreKeys(entries) && Distinct(entries) && AllRoundTrip(entries)
    ensures var once := Written(files, entries); Written(once, entries) == once <==> NoneCutOff(files, entries)
  {
    hide BundleValues, Render, NoKeptDangles, AreKeys, Distinct, AllRoundTrip, ToMap;
    var previous, once := BundleValues(files[0]), Written(files, entries);
    var twice := Written(once, entries);
    ParsingUndoesRendering(files[0], entries, previous);
    assert BundleValues(once[0]) == ToMap(entries);
    forall i | 0 <= i < BUNDLES
      ensures twice[i] == once[i] <==> i < ENGLISH_BUNDLES || NoKeptDangles(files[i], entries, previous)
    {
      if i < ENGLISH_BUNDLES {
        EnglishIsIdempotent(files[i], entries, previous, ToMap(entries));
      } else {
        LanguageIsIdempotent(files[i], entries, previous);
      }
    }
  }

  // ----- texts that do not round-trip -----------------------------------------------------------

  lemma {:induction false} KnownIsTranslated(existing: map<string, string>, entries: Pairs, previous: map<string, string>,
                                             english: string) returns (i: nat)
    requires english in Known(existing, entries, previous)
    ensures i < |entries| && entries[i].1 == english && Translates(entries[i], existing, previous)
    ensures Known(existing, entries, previous)[english] == ParseValue(existing[entries[i].0])
    ensures forall k :: 0 <= k < i && entries[k].1 == english ==> !Translates(entries[k], existing, previous)
    decreases |entries|
  {
    hide Translates, ParseValue;
    var n := |entries| - 1;
    if english in Known(existing, entries[..n], previous) {
      i := KnownIsTranslated(existing, entries[..n], previous, english);
    } else {
      i := n;
      forall k | 0 <= k < n && entries[k].1 == english ensures !Translates(entries[k], existing, previous) {
        if Translates(entries[k], existing, previous) { TranslatedIsKnown(existing, entries[..n], previous, k); }
      }
    }
  }

  lemma {:induction false} TranslatedIsKnown(existing: map<string, string>, entries: Pairs, previous: map<string, string>, i: nat)
    requires i < |entries| && Translates(entries[i], existing, previous)
    ensures entries[i].1 in Known(existing, entries, previous)
    decreases |entries|
  {
    hide Translates, ParseValue;
    var n := |entries| - 1;
    if i < n { TranslatedIsKnown(existing, entries[..n], previous, i); }
  }

  // ----- what the bundles hold ------------------------------------------------------------------

  /** A language bundle's value stays: it is there, and is not what the default bundle said for an English since changed. */
  predicate Stays(key: string, english: string, values: map<string, string>, previous: map<string, string>)
  {
    key in values && (key in previous && values[key] == previous[key] ==> previous[key] == english)
  }

  /** The bundle holds a translation of `english` under the key of the `j`th entry. */
  predicate Offers(entries: Pairs, values: map<string, string>, previous: map<string, string>, english: string, j: nat)
  {
    && j < |entries| && entries[j].1 == english && Stays(entries[j].0, english, values, previous)
    && values[entries[j].0] != english
  }

  /** What a printed value is read back as. */
  function ReadBack(value: string): (r: string) { if StartsUnescapedSpace(value) then CutStart(value) else value }

  /** What a key gets whose value does not stay: the first translation of its English, or else the English. */
  ghost predicate IsFilledIn(value: string, entries: Pairs, values: map<string, string>, previous: map<string, string>, english: string)
  {
    && (forall j: nat :: Offers(entries, values, previous, english, j)
                         && (forall k: nat :: k < j ==> !Offers(entries, values, previous, english, k))
          ==> value == values[entries[j].0])
    && ((forall j: nat :: !Offers(entries, values, previous, english, j)) ==> value == english)
  }

  lemma OfferIsTranslation(text: string, entries: Pairs, previous: map<string, string>, j: nat)
    requires j < |entries|
    ensures var (existing, values) := (SplitOf(text).existing, BundleValues(text));
      && (Keeps(entries[j], existing, previous) <==> Stays(entries[j].0, entries[j].1, values, previous))
      && (Translates(entries[j], existing, previous) <==> Offers(entries, values, previous, entries[j].1, j))
  {
    hide SplitOf, ParseValue;
  }

  /** What is printed for a key that has no value to stay, or whose value does not. */
  lemma FilledIn(text: string, entries: Pairs, previous: map<string, string>, english: string)
    ensures var known := Known(SplitOf(text).existing, entries, previous);
      IsFilledIn(if english in known then known[english] else english, entries, BundleValues(text), previous, english)
  {
    hide SplitOf, ParseValue, Translates, Offers, Keeps, Stays, Known, BundleValues;
    var (existing, values) := (SplitOf(text).existing, BundleValues(text));
    var known := Known(existing, entries, previous);
    forall j | 0 <= j < |entries|
      ensures Translates(entries[j], existing, previous) <==> Offers(entries, values, previous, entries[j].1, j)
    {
      OfferIsTranslation(text, entries, previous, j);
    }
    OffersAre(entries, values, previous, english);
    if english in known {
      var i := KnownIsTranslated(existing, entries, previous, english);
      ValueOf(text, entries[i].0, entries, previous, i);
    } else {
      forall j: nat ensures !Offers(entries, values, previous, english, j) {
        if Offers(entries, values, previous, english, j) { TranslatedIsKnown(existing, entries, previous, j); }
      }
    }
  }

  lemma OffersAre(entries: Pairs, values: map<string, string>, previous: map<string, string>, english: string)
    ensures forall j: nat :: Offers(entries, values, previous, english, j) ==> j < |entries| && entries[j].1 == english
  {
    hide Stays;
  }

  lemma ValueOf(text: string, key: string, entries: Pairs, previous: map<string, string>, i: nat)
    requires i < |entries| && entries[i].0 == key && Translates(entries[i], SplitOf(text).existing, previous)
    ensures key in BundleValues(text) && BundleValues(text)[key] == ParseValue(SplitOf(text).existing[key])
  {
    hide SplitOf, ParseValue;
  }

  /** A rendered language bundle: a value that stays stays byte for byte, and every other key is printed with the first
      translation its English has in the file, or else with the English. An English bundle has the English everywhere. */
  lemma RenderedAs(text: string, entries: Pairs, keep: bool, previous: map<string, string>, i: nat)
    requires i < |entries|
    ensures var (key, english) := entries[i];
            var (existing, values, raw) := (SplitOf(text).existing, BundleValues(text), RenderedBlock(text, entries, keep, previous)[i].1);
      && (!keep ==> raw == key + "=" + EscapeValue(english))
      && (keep && Stays(key, english, values, previous) ==> key in existing && raw == existing[key])
      && (keep && !Stays(key, english, values, previous) ==>
            exists value :: raw == key + "=" + EscapeValue(value) && IsFilledIn(value, entries, values, previous, english))
  {
    hide SplitOf, ParseValue, Known, EscapeValue, IsFilledIn, Stays, Offers, Keeps, BundleValues;
    OfferIsTranslation(text, entries, previous, i);
    FilledIn(text, entries, previous, entries[i].1);
    var (existing, known) := (SplitOf(text).existing, Known(SplitOf(text).existing, entries, previous));
    if keep && !Keeps(entries[i], existing, previous) {
      var value := if entries[i].1 in known then known[entries[i].1] else entries[i].1;
      assert RenderedBlock(text, entries, keep, previous)[i].1 == entries[i].0 + "=" + EscapeValue(value);
    } else if keep {
      KeptExists(existing, previous);
    }
  }

  /** What a rendered bundle is read back as, where no entry it keeps was cut off by the end of the file. */
  lemma RenderedValues(text: string, entries: Pairs, keep: bool, previous: map<string, string>, i: nat)
    requires AreKeys(entries) && Distinct(entries) && i < |entries| && (keep ==> NoKeptDangles(text, entries, previous))
    ensures var (key, english) := entries[i];
            var (values, after) := (BundleValues(text), BundleValues(Render(text, entries, keep, previous)));
      && key in after
      && (!keep ==> after[key] == ReadBack(english))
      && (keep && Stays(key, english, values, previous) ==> key in values && after[key] == values[key])
      && (keep && !Stays(key, english, values, previous) ==>
            exists value :: after[key] == ReadBack(value) && IsFilledIn(value, entries, values, previous, english))
  {
    hide SplitOf, ParseValue, Known, EscapeValue, IsFilledIn, Stays, Offers, Keeps, Render, RenderEntry, NoKeptDangles, IsKey, ReadBack;
    RenderedAs(text, entries, keep, previous, i);
    RenderedEntry(text, entries, keep, previous, i);
    var (key, english) := entries[i];
    PrintedReadsBack(key, english);
    if keep && !Stays(key, english, BundleValues(text), previous) {
      var raw := RenderedBlock(text, entries, keep, previous)[i].1;
      var value :| raw == key + "=" + EscapeValue(value) && IsFilledIn(value, entries, BundleValues(text), previous, english);
      PrintedReadsBack(key, value);
    }
  }

  lemma PrintedReadsBack(key: string, value: string)
    requires IsKey(key)
    ensures ParseValue(key + "=" + EscapeValue(value)) == ReadBack(value)
  {
    hide ParseValue, EscapeValue, IsKey, IsSpace;
    ParseOfPrinted(key, value);
  }

  /** After a run, both English bundles hold every entry's English and the six language bundles what `RenderedValues` says,
      the placeholders being judged by what the default bundle said before the run. */
  lemma BundlesHold(files: seq<string>, entries: Pairs, f: nat, i: nat)
    requires |files| == 8 && f < 8 && AreKeys(entries) && Distinct(entries) && i < |entries| && NoneCutOff(files, entries)
    ensures var (key, english, previous) := (entries[i].0, entries[i].1, BundleValues(files[0]));
            var (values, after) := (BundleValues(files[f]), BundleValues(Written(files, entries)[f]));
      && key in after
      && (f < 2 ==> after[key] == ReadBack(english))
      && (f >= 2 && Stays(key, english, values, previous) ==> key in values && after[key] == values[key])
      && (f >= 2 && !Stays(key, english, values, previous) ==>
            exists value :: after[key] == ReadBack(value) && IsFilledIn(value, entries, values, previous, english))
  {
    hide BundleValues, Render, IsFilledIn, Stays, ReadBack, AreKeys, Distinct, NoKeptDangles;
    RenderedValues(files[f], entries, f >= ENGLISH_BUNDLES, BundleValues(files[0]), i);
  }

  /** A rendered bundle ends in a line break: no later run finds an entry cut off. */
  lemma RenderedIsClosed(own: seq<string>, block: Pairs)
    ensures !Dangles(Rewritten(own, block))
  {
    LinesPlusBreak(Join(own + [""] + Header() + Raws(block)));
  }

  /** Printing is injective. */
  lemma PrintsApart(key: string, value: string, other: string)
    requires value != other
    ensures PrintEntry(key, value) != PrintEntry(key, other)
  {
    hide EscapeValue, Unescape;
    UnescapeUndoesEscape(value);
    UnescapeUndoesEscape(other);
    var a, b := PrintEntry(key, value), PrintEntry(key, other);
    assert a[|key| + 1..] == EscapeValue(value) && b[|key| + 1..] == EscapeValue(other);
  }

  lemma SplitOfPrinted(key: string, value: string)
    requires IsKey(key)
    ensures SplitOf(PrintEntry(key, value)) == Bundle([], map[key := PrintEntry(key, value)])
    ensures !Dangles(PrintEntry(key, value))
  {
    hide IsRaw, Dangles, OwnLines, RawEntries, Lines, PrintEntry;
    var raw := PrintEntry(key, value);
    PrintedIsRaw(key, value);
    RawIsEntry(key, raw, []);
    assert Lines(raw) + [] == Lines(raw);
    SplitNothing();
    OnePair((key, raw));
  }

  lemma OnePair(pair: (string, string))
    ensures ToMap([pair] + []) == map[pair.0 := pair.1]
  {
    assert ([pair] + [])[..0] == [];
  }

  /** A language bundle that holds `english` cut, for the `i`th entry alone. */
  function CutBundle(entries: Pairs, i: nat): (text: string)
    requires i < |entries|
  {
    PrintEntry(entries[i].0, CutStart(entries[i].1))
  }

  lemma CutReadsBack(entries: Pairs, i: nat, k: nat)
    requires AreKeys(entries) && i < |entries| && k < |entries| && StartsUnescapedSpace(entries[i].1)
    ensures var (english, cut) := (entries[i].1, CutStart(entries[i].1));
      && cut != english
      && ParseValue(PrintEntry(entries[k].0, cut)) == cut && ParseValue(PrintEntry(entries[k].0, english)) == cut
  {
    hide ParseValue, PrintEntry, IsKey, IsSpace;
    ParseOfPrinted(entries[k].0, entries[i].1);
    ParseOfPrinted(entries[k].0, CutStart(entries[i].1));
    CutIsClean(entries[i].1);
  }

  /** A first run before there was any English keeps the cut text, and gives it to every key of the same English. */
  lemma FirstRunSpreadsCut(entries: Pairs, i: nat, k: nat)
    requires AreKeys(entries) && Distinct(entries) && i < |entries| && k < |entries|
    requires StartsUnescapedSpace(entries[i].1) && entries[k].1 == entries[i].1
    ensures var once := SplitOf(Render(CutBundle(entries, i), entries, true, map[])).existing;
      && entries[k].0 in once && once[entries[k].0] == PrintEntry(entries[k].0, CutStart(entries[i].1))
  {
    hide ParseValue, PrintEntry, IsKey, StartsUnescapedSpace, SplitOf, Render, Dangles, Known, NoKeptDangles;
    var (text, key, english, cut) := (CutBundle(entries, i), entries[i].0, entries[i].1, CutStart(entries[i].1));
    var existing := SplitOf(text).existing;
    SplitOfPrinted(key, cut);
    ClosedFileHasNoDangling(text, entries, map[]);
    RenderedEntry(text, entries, true, map[], k);
    CutReadsBack(entries, i, i);
    TranslatedIsKnown(existing, entries, map[], i);
    var t := KnownIsTranslated(existing, entries, map[], english);
    assert existing[entries[t].0] == PrintEntry(key, cut);
  }

  /** The default bundle, written from nothing, is read back with the cut text. */
  lemma DefaultShowsCut(entries: Pairs, i: nat, k: nat)
    requires AreKeys(entries) && Distinct(entries) && i < |entries| && k < |entries|
    requires StartsUnescapedSpace(entries[i].1) && entries[k].1 == entries[i].1
    ensures var english := BundleValues(Render("", entries, false, map[]));
      && entries[k].0 in english && english[entries[k].0] == CutStart(entries[i].1)
  {
    hide ParseValue, PrintEntry, IsKey, StartsUnescapedSpace, SplitOf, Render, NoKeptDangles;
    RenderedEntry("", entries, false, map[], k);
    CutReadsBack(entries, i, k);
  }

  /** The second run takes the cut text for a stale placeholder and prints the whole English instead. */
  lemma SecondRunDropsCut(entries: Pairs, i: nat)
    requires AreKeys(entries) && Distinct(entries) && i < |entries| && StartsUnescapedSpace(entries[i].1)
    ensures var once := Render(CutBundle(entries, i), entries, true, map[]);
            Render(once, entries, true, BundleValues(Render("", entries, false, map[]))) != once
  {
    hide ParseValue, PrintEntry, IsKey, StartsUnescapedSpace, SplitOf, Render, Dangles, Known, NoKeptDangles, BundleValues,
         Rewritten, Distinct, AreKeys;
    var (key, english, cut) := (entries[i].0, entries[i].1, CutStart(entries[i].1));
    var once := Render(CutBundle(entries, i), entries, true, map[]);
    var existing := SplitOf(once).existing;
    var previous := BundleValues(Render("", entries, false, map[]));
    var known := Known(existing, entries, previous);
    FirstRunSpreadsCut(entries, i, i);
    DefaultShowsCut(entries, i, i);
    CutReadsBack(entries, i, i);
    if english in known {
      var k := KnownIsTranslated(existing, entries, previous, english);
      FirstRunSpreadsCut(entries, i, k);
      DefaultShowsCut(entries, i, k);
      CutReadsBack(entries, i, k);
    }
    RenderIsClosed(CutBundle(entries, i), entries, map[]);
    ClosedFileHasNoDangling(once, entries, previous);
    RenderedEntry(once, entries, true, previous, i);
    PrintsApart(key, cut, english);
  }

  lemma RenderIsClosed(text: string, entries: Pairs, previous: map<string, string>)
    ensures !Dangles(Render(text, entries, true, previous))
  {
    hide Rewritten, Dangles, SplitOf, RenderedBlock;
    RenderedIsClosed(SplitOf(text).own, RenderedBlock(text, entries, true, previous));
  }

  lemma NoValuesInNothing()
    ensures BundleValues("") == map[]
  {
    SplitBlankLine();
  }

  /** Whatever the bundles hold, as long as none is cut off inside an entry, a second run changes nothing. */
  ghost predicate AlwaysIdempotent(entries: Pairs)
  {
    forall files: seq<string> | |files| == BUNDLES && NoneCutOff(files, entries) ::
      Written(Written(files, entries), entries) == Written(files, entries)
  }

  /** The texts for which the generator is idempotent are exactly those that all round-trip. */
  lemma IdempotentExactlyWhen(entries: Pairs)
    requires AreKeys(entries) && Distinct(entries)
    ensures AlwaysIdempotent(entries) <==> AllRoundTrip(entries)
  {
    hide NoneCutOff, Written, StartsUnescapedSpace, AreKeys, Distinct;
    if AllRoundTrip(entries) {
      forall files: seq<string> | |files| == BUNDLES && NoneCutOff(files, entries)
        ensures Written(Written(files, entries), entries) == Written(files, entries)
      {
        TwiceIsOnce(files, entries);
      }
    } else {
      var i :| 0 <= i < |entries| && StartsUnescapedSpace(entries[i].1);
      CutFilesChange(entries, i);
    }
  }

  /** Eight bundles that a second run changes: all empty but one language bundle with the cut text. */
  lemma CutFilesChange(entries: Pairs, i: nat)
    requires AreKeys(entries) && Distinct(entries) && i < |entries| && StartsUnescapedSpace(entries[i].1)
    ensures var files := ["", "", CutBundle(entries, i), "", "", "", "", ""];
            NoneCutOff(files, entries) && Written(Written(files, entries), entries) != Written(files, entries)
  {
    hide BundleValues, Render, StartsUnescapedSpace, NoKeptDangles, AreKeys, Distinct, CutBundle, CutStart;
    var cut := CutBundle(entries, i);
    var files := ["", "", cut, "", "", "", "", ""];
    NoValuesInNothing();
    CutBundleIsClosed(entries, i);
    forall k | ENGLISH_BUNDLES <= k < BUNDLES ensures NoKeptDangles(files[k], entries, map[]) {
      NothingDangles();
      ClosedFileHasNoDangling(files[k], entries, map[]);
    }
    SecondRunDropsCut(entries, i);
    var once := Written(files, entries);
    assert once[0] == Render("", entries, false, map[]) && once[2] == Render(cut, entries, true, map[]);
    assert Written(once, entries)[2] == Render(once[2], entries, true, BundleValues(once[0]));
  }

  lemma NothingDangles()
    ensures !Dangles("")
  {
  }

  lemma CutBundleIsClosed(entries: Pairs, i: nat)
    requires AreKeys(entries) && i < |entries|
    ensures !Dangles(CutBundle(entries, i))
  {
    hide Dangles, PrintEntry, SplitOf, IsKey;
    SplitOfPrinted(entries[i].0, CutStart(entries[i].1));
  }
}
