/** The bundle generator: splitting a .properties bundle, rewriting its generated block, running it twice. */
module PropertiesBundle {
  import opened Text
  import opened PropertyValues
  import opened Wrappers

  /** A bundle's own lines, and the raw entry of every generated key. */
  datatype Bundle = Bundle(own: seq<string>, existing: map<string, string>)

  /** Keys with their English, or keys with their raw entry. */
  type Pairs = seq<(string, string)>

  function Header(): (lines: seq<string>) { [HeaderOrigin(), HeaderUse()] }

  function HeaderOrigin(): (line: string)
  {
    "# Configuration form field" + " texts by schema path" +
    " - generated by" + " ci/scripts/schema-texts.js."
  }

  function HeaderUse(): (line: string)
  {
    "# English is regenerated" + " from the schema;" +
    " other languages are" + " translated in place and kept."
  }

  predicate Distinct(entries: Pairs)
  {
    forall i, j :: 0 <= i < j < |entries| ==> entries[i].0 != entries[j].0
  }

  predicate AreKeys(entries: Pairs) { forall i :: 0 <= i < |entries| ==> IsKey(entries[i].0) }

  // ----- splitting ------------------------------------------------------------------------------

  /** How many lines the entry that starts at the first of `lines` takes. */
  function EntryLength(lines: seq<string>): (n: nat)
    requires lines != []
    ensures 1 <= n <= |lines|
  {
    if |lines| > 1 && Continues(lines[0]) then 1 + EntryLength(lines[1..]) else 1
  }

  predicate IsKeyLine(line: string) { line !in Header() && MatchKey(line).Some? }

  predicate IsOwnLine(line: string) { line !in Header() && MatchKey(line).None? }

  function OwnLines(lines: seq<string>): (own: seq<string>)
    decreases |lines|
  {
    if lines == [] then []
    else if IsKeyLine(lines[0]) then OwnLines(lines[EntryLength(lines)..])
    else (if IsOwnLine(lines[0]) then [lines[0]] else []) + OwnLines(lines[1..])
  }

  /** The generated entries of `lines`, in order: key and raw entry. */
  function RawEntries(lines: seq<string>): (entries: Pairs)
    decreases |lines|
  {
    if lines == [] then []
    else if IsKeyLine(lines[0]) then
      var n := EntryLength(lines);
      [(MatchKey(lines[0]).value.0, Join(lines[..n]))] + RawEntries(lines[n..])
    else RawEntries(lines[1..])
  }

  /** A later pair replaces an earlier one of the same key. */
  function ToMap(pairs: Pairs): (m: map<string, string>)
  {
    if pairs == [] then map[]
    else
      var last := pairs[|pairs| - 1];
      ToMap(pairs[..|pairs| - 1])[last.0 := last.1]
  }

  function DropBlankEnd(own: seq<string>): (r: seq<string>)
  {
    if own != [] && Trim(own[|own| - 1]) == "" then DropBlankEnd(own[..|own| - 1]) else own
  }

  function SplitOf(text: string): (b: Bundle)
  {
    Bundle(DropBlankEnd(OwnLines(Lines(text))), ToMap(RawEntries(Lines(text))))
  }

  method ReadEntry(lines: seq<string>, start: nat) returns (raw: seq<string>)
    requires start < |lines|
    ensures raw == lines[start..][..EntryLength(lines[start..])]
  {
    var i := start;
    raw := [lines[start]];
    while Continues(raw[|raw| - 1]) && i + 1 < |lines|
      invariant start <= i < |lines| && raw == lines[start..i + 1]
      invariant i - start + EntryLength(lines[i..]) == EntryLength(lines[start..])
    {
      assert lines[i..][1..] == lines[i + 1..];
      i := i + 1;
      raw := raw + [lines[i]];
    }
    assert raw == lines[start..][..i + 1 - start];
  }

  lemma Appended(pairs: Pairs, pair: (string, string))
    ensures ToMap(pairs + [pair]) == ToMap(pairs)[pair.0 := pair.1]
  {
    assert (pairs + [pair])[..|pairs|] == pairs;
  }

  /** What one round of splitting takes from the front of `lines`. */
  lemma SplitStep(lines: seq<string>, n: nat)
    requires lines != [] && n == (if IsKeyLine(lines[0]) then EntryLength(lines) else 1)
    ensures OwnLines(lines) == (if IsOwnLine(lines[0]) then [lines[0]] else []) + OwnLines(lines[n..])
    ensures RawEntries(lines)
         == (if IsKeyLine(lines[0]) then [(MatchKey(lines[0]).value.0, Join(lines[..n]))] else []) + RawEntries(lines[n..])
  {
    hide EntryLength, Header, MatchKey, Join;
  }

  lemma SplitNothing()
    ensures OwnLines([]) == [] && RawEntries([]) == [] && ToMap([]) == map[]
  {
    hide Header, MatchKey;
    var none: seq<string> := [];
    assert OwnLines(none) == [];
    assert RawEntries(none) == [];
    assert ToMap([]) == map[];
  }

  method SplitLines(lines: seq<string>) returns (own: seq<string>, existing: map<string, string>)
    ensures own == OwnLines(lines) && existing == ToMap(RawEntries(lines))
  {
    hide EntryLength, ToMap, Header, MatchKey, Join, OwnLines, RawEntries;
    ghost var done: Pairs := [];
    own, existing := [], map[];
    assert lines[0..] == lines;
    SplitNothing();
    var i := 0;
    while i < |lines|
      invariant 0 <= i <= |lines|
      invariant own + OwnLines(lines[i..]) == OwnLines(lines)
      invariant done + RawEntries(lines[i..]) == RawEntries(lines)
      invariant existing == ToMap(done)
    {
      ghost var rest := lines[i..];
      if lines[i] in Header() {
        SplitStep(rest, 1);
        assert rest[1..] == lines[i + 1..];
        i := i + 1;
      } else if MatchKey(lines[i]).None? {
        SplitStep(rest, 1);
        assert rest[1..] == lines[i + 1..];
        own := own + [lines[i]];
        i := i + 1;
      } else {
        var raw := ReadEntry(lines, i);
        var pair := (MatchKey(lines[i]).value.0, Join(raw));
        SplitStep(rest, |raw|);
        assert rest[|raw|..] == lines[i + |raw|..];
        Appended(done, pair);
        done := done + [pair];
        existing := existing[pair.0 := pair.1];
        i := i + |raw|;
      }
    }
    assert lines[i..] == [] && done + [] == done && own + [] == own;
  }

  method SplitBundle(text: string) returns (b: Bundle)
    ensures b == SplitOf(text)
  {
    hide OwnLines, RawEntries, ToMap, Lines;
    var own, existing := SplitLines(Lines(text));
    ghost var all := own;
    while own != [] && Trim(own[|own| - 1]) == ""
      invariant DropBlankEnd(own) == DropBlankEnd(all)
      decreases |own|
    {
      own := own[..|own| - 1];
    }
    b := Bundle(own, existing);
  }

  /** Every generated key's value, as UI5 reads it. */
  function BundleValues(text: string): (values: map<string, string>)
  {
    var existing := SplitOf(text).existing;
    map key | key in existing :: ParseValue(existing[key])
  }

  // ----- rendering ------------------------------------------------------------------------------

  predicate StalePlaceholder(key: string, value: string, english: string, previous: map<string, string>)
  {
    key in previous && previous[key] != english && value == previous[key]
  }

  /** The file holds a translation of this entry's English under this entry's key. */
  predicate Translates(entry: (string, string), existing: map<string, string>, previous: map<string, string>)
  {
    && entry.0 in existing
    && var value := ParseValue(existing[entry.0]);
       value != entry.1 && !StalePlaceholder(entry.0, value, entry.1, previous)
  }

  /** English to the first translation the file holds for it. */
  function Known(existing: map<string, string>, entries: Pairs, previous: map<string, string>): (known: map<string, string>)
  {
    if entries == [] then map[]
    else
      var before := Known(existing, entries[..|entries| - 1], previous);
      var last := entries[|entries| - 1];
      if last.1 !in before && Translates(last, existing, previous) then before[last.1 := ParseValue(existing[last.0])]
      else before
  }

  method KnownTranslations(existing: map<string, string>, entries: Pairs, previous: map<string, string>)
    returns (known: map<string, string>)
    ensures known == Known(existing, entries, previous)
  {
    hide ParseValue;
    known := map[];
    var i := 0;
    while i < |entries|
      invariant 0 <= i <= |entries| && known == Known(existing, entries[..i], previous)
    {
      assert entries[..i + 1][..i] == entries[..i];
      var (key, english) := entries[i];
      if key in existing && english !in known {
        var value := ParseValue(existing[key]);
        if value != english && !StalePlaceholder(key, value, english, previous) {
          known := known[english := value];
        }
      }
      i := i + 1;
    }
    assert entries[..|entries|] == entries;
  }

  /** A language file keeps this key's raw entry. */
  predicate Keeps(entry: (string, string), existing: map<string, string>, previous: map<string, string>)
  {
    entry.0 in existing && !StalePlaceholder(entry.0, ParseValue(existing[entry.0]), entry.1, previous)
  }

  function RenderEntry(entry: (string, string), existing: map<string, string>, known: map<string, string>, keep: bool,
                       previous: map<string, string>): (raw: string)
  {
    if keep && Keeps(entry, existing, previous) then existing[entry.0]
    else PrintEntry(entry.0, if entry.1 in known then known[entry.1] else entry.1)
  }

  function Block(entries: Pairs, existing: map<string, string>, known: map<string, string>, keep: bool,
                 previous: map<string, string>): (block: Pairs)
    ensures |block| == |entries|
    ensures forall i :: 0 <= i < |entries| ==>
      block[i] == (entries[i].0, RenderEntry(entries[i], existing, known, keep, previous))
  {
    hide RenderEntry;
    if entries == [] then []
    else
      var raw := RenderEntry(entries[0], existing, known, keep, previous);
      [(entries[0].0, raw)] + Block(entries[1..], existing, known, keep, previous)
  }

  function Raws(block: Pairs): (raws: seq<string>)
    ensures |raws| == |block|
  {
    if block == [] then [] else [block[0].1] + Raws(block[1..])
  }

  function Rewritten(own: seq<string>, block: Pairs): (text: string)
  {
    Join(own + [""] + Header() + Raws(block)) + "\n"
  }

  function RenderedBlock(text: string, entries: Pairs, keep: bool, previous: map<string, string>): (block: Pairs)
  {
    var existing := SplitOf(text).existing;
    Block(entries, existing, if keep then Known(existing, entries, previous) else map[], keep, previous)
  }

  function Render(text: string, entries: Pairs, keep: bool, previous: map<string, string>): (after: string)
  {
    Rewritten(SplitOf(text).own, RenderedBlock(text, entries, keep, previous))
  }

  // ----- what splitting finds -------------------------------------------------------------------

  /** `raw` is `key`'s entry, all its lines but the last continuing. */
  predicate IsRaw(key: string, raw: string)
  {
    var lines := Lines(raw);
    && IsKeyLine(lines[0]) && MatchKey(lines[0]).value.0 == key
    && forall i :: 0 <= i < |lines| - 1 ==> Continues(lines[i])
  }

  /** The last line of `raw` continues: the file ended inside the entry. */
  predicate Dangles(raw: string)
  {
    var lines := Lines(raw);
    Continues(lines[|lines| - 1])
  }

  predicate AreRaw(block: Pairs) { forall i :: 0 <= i < |block| ==> IsRaw(block[i].0, block[i].1) }

  predicate NoneDangles(block: Pairs) { forall i :: 0 <= i < |block| ==> !Dangles(block[i].1) }

  /** The lines of the entries of `block`. */
  function Flat(block: Pairs): (lines: seq<string>)
  {
    if block == [] then [] else Lines(block[0].1) + Flat(block[1..])
  }

  lemma {:induction false} LinesOfRaws(block: Pairs)
    requires block != []
    ensures Lines(Join(Raws(block))) == Flat(block)
  {
    hide Lines;
    if |block| == 1 {
      assert Raws(block) == [block[0].1] && Flat(block[1..]) == [];
    } else {
      LinesOfRaws(block[1..]);
      assert Raws(block)[1..] == Raws(block[1..]);
      LinesConcat(block[0].1, Join(Raws(block[1..])));
    }
  }

  lemma HashLineHasNoKey(line: string)
    requires line != "" && line[0] == '#'
    ensures MatchKey(line).None?
  {
    assert TrimStart(line) == line;
  }

  predicate IsComment(line: string) { line != "" && line[0] == '#' && IsLine(line) }

  lemma OriginIsComment()
    ensures IsComment(HeaderOrigin())
  {
  }

  lemma UseIsComment()
    ensures IsComment(HeaderUse())
  {
  }

  lemma NoKeyInNothing()
    ensures MatchKey("").None?
  {
  }

  lemma HeaderLines()
    ensures |Header()| == 2 && AreLines(Header())
    ensures forall line :: line in Header() ==> MatchKey(line).None?
    ensures IsOwnLine("")
  {
    hide HeaderOrigin, HeaderUse, MatchKey;
    OriginIsComment();
    UseIsComment();
    forall line | line in Header() ensures MatchKey(line).None? {
      HashLineHasNoKey(line);
    }
    NoKeyInNothing();
  }

  /** The lines of a rendered bundle. */
  lemma LinesOfText(own: seq<string>, block: Pairs)
    requires AreLines(own)
    ensures Lines(Rewritten(own, block)) == own + ([""] + (Header() + (Flat(block) + [""])))
  {
    hide Lines, Header, Join, Raws, IsOwnLine, MatchKey;
    HeaderLines();
    var top := own + [""] + Header();
    assert AreLines(top);
    LinesOfJoin(top);
    LinesPlusBreak(Join(top + Raws(block)));
    if block == [] {
      assert top + Raws(block) == top;
    } else {
      JoinConcat(top, Raws(block));
      LinesConcat(Join(top), Join(Raws(block)));
      LinesOfRaws(block);
    }
    assert Lines(Rewritten(own, block)) == top + Flat(block) + [""];
  }
}
