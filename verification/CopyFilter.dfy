/** Leaving the data of the `cds_model` tables out of a plain-SQL dump. */
module CopyFilter {
  import opened Text
  import opened Wrappers
  import opened CopyBlocks

  function ExcludedPrefix(): (prefix: string) { "COPY public.cds_model" }

  /** `\\\.$`, where a line starts. */
  predicate IsEndLine(s: string) { StartsWith(s, Terminator()) && EndsLine(s[2..]) }

  /** How far to behind the first terminator that is a line, or -1; `atStart` says whether `s` starts a line. */
  function EndBehind(s: string, atStart: bool): (n: int)
    ensures -1 <= n <= |s|
    ensures n >= 0 ==> n >= 2
  {
    if s == "" then -1
    else if atStart && IsEndLine(s) then 2
    else
      var n := EndBehind(s[1..], IsLineTerminator(s[0]));
      if n < 0 then -1 else n + 1
  }

  /** A match of the pattern starts here: the start of an excluded table's header, and a terminator line behind it. */
  predicate CutsHere(s: string, atStart: bool) { atStart && StartsWith(s, ExcludedPrefix()) && EndBehind(s, true) >= 0 }

  /** `sql.replace(/^COPY public\.cds_model.*?^\\\.$/gms, '')` from a place where a line starts, or not. */
  function Filtered(s: string, atStart: bool): (r: string)
    decreases |s|
  {
    if s == "" then ""
    else if CutsHere(s, atStart) then Filtered(s[EndBehind(s, true)..], false)
    else [s[0]] + Filtered(s[1..], IsLineTerminator(s[0]))
  }

  function WithoutCdsModel(sql: string): (r: string) { Filtered(sql, true) }

  /** A table whose data is left out. */
  predicate IsExcluded(b: Block) { b.Copy? && StartsWith(Printed(b.table), "cds_model") }

  /** The dump with an empty line for the data of every such table. */
  function Kept(dump: seq<Block>): (kept: seq<Block>)
    ensures |kept| == |dump|
    ensures forall i :: 0 <= i < |dump| ==> kept[i] == if IsExcluded(dump[i]) then Plain("") else dump[i]
  {
    if dump == [] then [] else [if IsExcluded(dump[0]) then Plain("") else dump[0]] + Kept(dump[1..])
  }

  /** At `p` a line starts like the header of an excluded table, and behind that some line is a terminator. */
  predicate CutsAt(sql: string, p: nat)
  {
    p <= |sql| && IsLineStart(sql, p) && StartsWith(sql[p..], ExcludedPrefix()) && EndBehind(sql[p..], true) >= 0
  }

  /** Nowhere in what stays does a line start like the header of an excluded table, with a terminator line behind it. */
  predicate CutsNothingElse(dump: seq<Block>)
  {
    dump != [] ==>
      && (IsExcluded(dump[0]) || forall p :: 0 <= p < |BlockText(dump[0])| ==> !CutsAt(DumpText(dump), p))
      && CutsNothingElse(dump[1..])
  }

  /** The data of every table as printed; no name in an excluded table's header holds a terminator line. */
  predicate IsPrinted(dump: seq<Block>)
  {
    forall b :: b in dump && b.Copy? ==> ArePrinted(b.rows) && (IsExcluded(b) ==> HoldsNoEnd(HeaderLine(b.table, b.columns)))
  }

  // ----- the first terminator line --------------------------------------------------------------

  /** At `q` a line starts and is a terminator. */
  predicate IsEndAt(s: string, atStart: bool, q: nat)
    requires q <= |s|
  {
    (if q == 0 then atStart else IsLineTerminator(s[q - 1])) && IsEndLine(s[q..])
  }

  /** The end is behind the first line that is a terminator. */
  lemma {:induction false} EndIsFirst(s: string, atStart: bool)
    ensures var n := EndBehind(s, atStart);
      if n < 0 then forall q :: 0 <= q <= |s| ==> !IsEndAt(s, atStart, q)
      else IsEndAt(s, atStart, n - 2) && forall q :: 0 <= q < n - 2 ==> !IsEndAt(s, atStart, q)
    decreases |s|
  {
    hide IsEndLine;
    NoEndInNothing();
    assert s[0..] == s;
    if s != "" && !(atStart && IsEndLine(s)) {
      var flag := IsLineTerminator(s[0]);
      EndIsFirst(s[1..], flag);
      forall q | 0 < q <= |s| ensures IsEndAt(s, atStart, q) <==> IsEndAt(s[1..], flag, q - 1) {
        assert s[1..][q - 1..] == s[q..];
      }
    }
  }

  lemma NoEndInNothing()
    ensures !IsEndLine("")
  {
  }

  // ----- pieces ---------------------------------------------------------------------------------

  /** A text in pieces: characters that stay, and stretches that go. */
  datatype Piece = Stay(c: char) | Gone(text: string)

  function TextOf(pieces: seq<Piece>): (s: string)
  {
    if pieces == [] then "" else (if pieces[0].Stay? then [pieces[0].c] else pieces[0].text) + TextOf(pieces[1..])
  }

  /** What stays. */
  function LeftOf(pieces: seq<Piece>): (s: string)
  {
    if pieces == [] then "" else (if pieces[0].Stay? then [pieces[0].c] else "") + LeftOf(pieces[1..])
  }

  /** Every stretch that goes starts a line, like the header of an excluded table, and ends at the first terminator line. */
  predicate AreStretches(pieces: seq<Piece>, atStart: bool)
  {
    pieces != [] ==>
      match pieces[0]
      case Stay(c) => AreStretches(pieces[1..], IsLineTerminator(c))
      case Gone(text) =>
        && atStart && StartsWith(text, ExcludedPrefix()) && EndBehind(TextOf(pieces), true) == |text|
        && AreStretches(pieces[1..], false)
  }

  /** No match starts at a character that stays. */
  predicate CutsNoStay(pieces: seq<Piece>, atStart: bool)
  {
    pieces != [] ==>
      match pieces[0]
      case Stay(c) => !CutsHere(TextOf(pieces), atStart) && CutsNoStay(pieces[1..], IsLineTerminator(c))
      case Gone(_) => CutsNoStay(pieces[1..], false)
  }

  lemma FirstPiece(pieces: seq<Piece>)
    requires pieces != []
    ensures var (s, rest) := (TextOf(pieces), TextOf(pieces[1..]));
      match pieces[0]
      case Stay(c) => s != "" && s[0] == c && s[1..] == rest && LeftOf(pieces) == [c] + LeftOf(pieces[1..])
      case Gone(text) => text <= s && s[|text|..] == rest && LeftOf(pieces) == LeftOf(pieces[1..])
  {
    assert "" + LeftOf(pieces[1..]) == LeftOf(pieces[1..]);
  }

  lemma FilteredFirst(s: string, atStart: bool)
    requires s != ""
    ensures Filtered(s, atStart) == if CutsHere(s, atStart) then Filtered(s[EndBehind(s, true)..], false)
                                    else [s[0]] + Filtered(s[1..], IsLineTerminator(s[0]))
  {
    hide CutsHere, EndBehind;
  }

  lemma EndFirst(s: string, atStart: bool)
    requires s != ""
    ensures var n := EndBehind(s[1..], IsLineTerminator(s[0]));
      EndBehind(s, atStart) == if atStart && IsEndLine(s) then 2 else if n < 0 then -1 else n + 1
  {
    hide IsEndLine;
  }

  lemma NothingIsFiltered(atStart: bool)
    ensures Filtered("", atStart) == "" && EndBehind("", atStart) == -1 && TextOf([]) == "" && LeftOf([]) == ""
  {
  }

  lemma PrefixOfMore(s: string, t: string, prefix: string)
    requires StartsWith(s, prefix) && s <= t
    ensures StartsWith(t, prefix)
  {
    assert t[..|prefix|] == s[..|prefix|];
  }

  lemma EndLineChars(s: string)
    ensures IsEndLine(s) ==> |s| >= 2 && s[0] == '\\' && s[1] == '.' && EndsLine(s[2..])
  {
  }

  /** What is filtered is what stays if no match starts at a character that stays, and is shorter otherwise. */
  lemma {:induction false} FilteredIsLeft(pieces: seq<Piece>, atStart: bool)
    requires AreStretches(pieces, atStart)
    ensures |Filtered(TextOf(pieces), atStart)| <= |LeftOf(pieces)|
    ensures if CutsNoStay(pieces, atStart) then Filtered(TextOf(pieces), atStart) == LeftOf(pieces)
            else |Filtered(TextOf(pieces), atStart)| < |LeftOf(pieces)|
    decreases |pieces|, 1
  {
    hide Filtered, EndBehind, TextOf, LeftOf, StartsWith, ExcludedPrefix, CutsHere;
    NothingIsFiltered(atStart);
    if pieces != [] {
      var s := TextOf(pieces);
      FirstPiece(pieces);
      match pieces[0]
      case Stay(c) =>
        FilteredFirst(s, atStart);
        if CutsHere(s, atStart) {
          CutHasEnd(s, atStart);
          EndIsLater(pieces, true);
        } else {
          FilteredIsLeft(pieces[1..], IsLineTerminator(c));
        }
      case Gone(text) =>
        GoneIsCut(s, text, atStart);
        FilteredIsLeft(pieces[1..], false);
    }
  }

  lemma CutHasEnd(s: string, atStart: bool)
    requires CutsHere(s, atStart)
    ensures atStart && EndBehind(s, true) >= 0
  {
  }

  lemma GoneIsCut(s: string, text: string, atStart: bool)
    requires atStart && text <= s && StartsWith(text, ExcludedPrefix()) && EndBehind(s, true) == |text|
    ensures Filtered(s, atStart) == Filtered(s[|text|..], false)
  {
    hide EndBehind, Filtered;
    PrefixOfMore(text, s, ExcludedPrefix());
    FilteredFirst(s, atStart);
  }

  /** A cut that ends at the first terminator line leaves less than what stays, if it took a character that stays. */
  lemma {:induction false} EndIsLater(pieces: seq<Piece>, atStart: bool)
    requires AreStretches(pieces, atStart) && EndBehind(TextOf(pieces), atStart) >= 0
    ensures var (s, left) := (TextOf(pieces), LeftOf(pieces));
      var n := |Filtered(s[EndBehind(s, atStart)..], false)|;
      n <= |left| && (pieces != [] && pieces[0].Stay? ==> n < |left|)
    decreases |pieces|, 0
  {
    hide Filtered, EndBehind, TextOf, LeftOf, StartsWith, ExcludedPrefix, IsEndLine, CutsNoStay;
    NothingIsFiltered(atStart);
    var s := TextOf(pieces);
    FirstPiece(pieces);
    match pieces[0]
    case Stay(c) =>
      EndFirst(s, atStart);
      if atStart && IsEndLine(s) {
        EndLineChars(s);
        NothingIsFiltered(false);
        FirstPiece(pieces[1..]);
        assert s[2..] == s[1..][1..];
        FilteredIsLeft(pieces[2..], false);
        assert pieces[1..][1..] == pieces[2..];
      } else {
        EndIsLater(pieces[1..], IsLineTerminator(c));
        var n := EndBehind(s[1..], IsLineTerminator(c));
        assert s[n + 1..] == s[1..][n..];
      }
    case Gone(text) =>
      FilteredIsLeft(pieces[1..], false);
  }

  // ----- a dump in pieces -----------------------------------------------------------------------

  function Stays(s: string): (pieces: seq<Piece>)
    ensures |pieces| == |s|
  {
    if s == "" then [] else [Stay(s[0])] + Stays(s[1..])
  }

  /** The data of a table without the line feed at its end. */
  function GoneText(b: Block): (s: string)
    requires b.Copy?
  {
    HeaderLine(b.table, b.columns) + ("\n" + (RowsText(b.rows) + Terminator()))
  }

  function PiecesOf(dump: seq<Block>): (pieces: seq<Piece>)
  {
    if dump == [] then []
    else (if IsExcluded(dump[0]) then [Gone(GoneText(dump[0])), Stay('\n')] else Stays(BlockText(dump[0]))) + PiecesOf(dump[1..])
  }

  lemma {:induction false} StaysParts(s: string, pieces: seq<Piece>)
    ensures TextOf(Stays(s) + pieces) == s + TextOf(pieces) && LeftOf(Stays(s) + pieces) == s + LeftOf(pieces)
    decreases |s|
  {
    hide TextOf, LeftOf;
    var all := Stays(s) + pieces;
    if s == "" {
      assert all == pieces;
      assert "" + TextOf(pieces) == TextOf(pieces) && "" + LeftOf(pieces) == LeftOf(pieces);
    } else {
      FirstStays(s, pieces);
      StaysParts(s[1..], pieces);
      FirstPiece(all);
      FirstOf(TextOf(all));
      FirstOf(s);
      Regrouped([s[0]], s[1..], TextOf(pieces));
      Regrouped([s[0]], s[1..], LeftOf(pieces));
    }
  }

  lemma FirstOf(s: string)
    ensures s != "" ==> s == [s[0]] + s[1..]
  {
  }

  lemma GoneParts(b: Block, rest: string)
    requires b.Copy?
    ensures GoneText(b) + (['\n'] + rest) == BlockText(b) + rest
  {
    hide HeaderLine, RowsText;
    var (header, rows) := (HeaderLine(b.table, b.columns), RowsText(b.rows));
    assert "\n" + rest == ['\n'] + rest;
    Regrouped(rows, Terminator(), "\n");
    Regrouped("\n", rows + Terminator(), "\n");
    Regrouped(header, "\n" + (rows + Terminator()), "\n");
    Regrouped(GoneText(b), "\n", rest);
  }

  lemma TwoPieces(text: string, pieces: seq<Piece>)
    ensures var all := [Gone(text), Stay('\n')] + pieces;
      && TextOf(all) == text + (['\n'] + TextOf(pieces)) && LeftOf(all) == "\n" + LeftOf(pieces)
      && all[0] == Gone(text) && all[1..] == [Stay('\n')] + pieces && all[1..][0] == Stay('\n') && all[1..][1..] == pieces
  {
    hide TextOf, LeftOf;
    var all := [Gone(text), Stay('\n')] + pieces;
    assert all[1..] == [Stay('\n')] + pieces && all[1..][1..] == pieces;
    FirstPiece(all);
    FirstPiece(all[1..]);
    FirstOf(TextOf(all[1..]));
    assert TextOf(all) == TextOf(all)[..|text|] + TextOf(all)[|text|..];
  }

  lemma KeptStep(dump: seq<Block>)
    requires dump != []
    ensures Kept(dump)[1..] == Kept(dump[1..])
    ensures DumpText(Kept(dump)) == (if IsExcluded(dump[0]) then "\n" else BlockText(dump[0])) + DumpText(Kept(dump[1..]))
  {
    hide IsExcluded;
    assert BlockText(Plain("")) == "\n";
  }

  lemma {:induction false} PiecesAreDump(dump: seq<Block>)
    ensures TextOf(PiecesOf(dump)) == DumpText(dump) && LeftOf(PiecesOf(dump)) == DumpText(Kept(dump))
  {
    hide TextOf, LeftOf, IsExcluded, BlockText, GoneText, Stays;
    NothingIsFiltered(true);
    if dump != [] {
      var (b, rest) := (dump[0], PiecesOf(dump[1..]));
      PiecesAreDump(dump[1..]);
      KeptStep(dump);
      if IsExcluded(b) {
        ExcludedIsCopy(b);
        TwoPieces(GoneText(b), rest);
        GoneParts(b, TextOf(rest));
      } else {
        StaysParts(BlockText(b), rest);
      }
    }
  }

  lemma ExcludedIsCopy(b: Block)
    requires IsExcluded(b)
    ensures b.Copy?
  {
  }

  // ----- where an excluded table's data ends ----------------------------------------------------

  /** No line starts with a terminator in `line`, which starts a line or not. */
  predicate HoldsNoEndFrom(line: string, atStart: bool)
  {
    line != "" ==> !(atStart && StartsWith(line, Terminator())) && HoldsNoEndFrom(line[1..], IsLineTerminator(line[0]))
  }

  lemma {:induction false} NoEndFrom(line: string, k: nat)
    requires HoldsNoEnd(line) && k <= |line|
    ensures HoldsNoEndFrom(line[k..], IsLineStart(line, k))
    decreases |line| - k
  {
    if k < |line| {
      NoEndFrom(line, k + 1);
      assert line[k..][1..] == line[k + 1..] && line[k..][0] == line[k];
      EndChars(line, k);
      EndChars(line[k..], 0);
    }
  }

  lemma {:induction false} EndBehindLine(line: string, rest: string, atStart: bool)
    requires HoldsNoEndFrom(line, atStart)
    ensures var n := EndBehind(rest, true);
      EndBehind(line + ("\n" + rest), atStart) == if n < 0 then -1 else |line| + 1 + n
    decreases |line|
  {
    hide EndBehind, IsEndLine, StartsWith;
    var s := line + ("\n" + rest);
    EndFirst(s, atStart);
    EndLineChars(s);
    if line == "" {
      assert s == "\n" + rest && s[1..] == rest;
    } else {
      assert s[1..] == line[1..] + ("\n" + rest) && s[0] == line[0];
      EndBehindLine(line[1..], rest, IsLineTerminator(line[0]));
      NotEndYet(line, rest, atStart);
    }
  }

  lemma NotEndYet(line: string, rest: string, atStart: bool)
    requires line != "" && HoldsNoEndFrom(line, atStart)
    ensures !(atStart && IsEndLine(line + ("\n" + rest)))
  {
    var s := line + ("\n" + rest);
    EndLineChars(s);
    EndChars(line, 0);
    assert |line| == 1 ==> s[1] == '\n';
  }

  lemma {:induction false} EndBehindRowsText(rows: seq<seq<string>>, rest: string)
    requires ArePrinted(rows) && EndsLine(rest)
    ensures EndBehind(RowsText(rows) + (Terminator() + rest), true) == |RowsText(rows)| + 2
    decreases |rows|
  {
    hide EndBehind, IsEndLine, RowLine, RowsText, IsRow, HoldsNoEndFrom, EndsLine;
    var end := Terminator() + rest;
    if rows == [] {
      EndIsHere(rest);
    } else {
      assert rows[0] in rows;
      RowHasNoEnd(rows[0]);
      RowsSplit(rows, end);
      EndBehindLine(RowLine(rows[0]), RowsText(rows[1..]) + end, true);
      EndBehindRowsText(rows[1..], rest);
    }
  }

  lemma RowsSplit(rows: seq<seq<string>>, rest: string)
    requires rows != []
    ensures RowsText(rows) + rest == RowLine(rows[0]) + ("\n" + (RowsText(rows[1..]) + rest))
    ensures |RowsText(rows)| == |RowLine(rows[0])| + 1 + |RowsText(rows[1..])|
  {
    hide RowLine;
  }

  lemma EndIsHere(rest: string)
    requires EndsLine(rest)
    ensures RowsText([]) == "" && EndBehind(RowsText([]) + (Terminator() + rest), true) == 2
  {
    var s := Terminator() + rest;
    assert "" + s == s && s[2..] == rest;
  }

  lemma RowHasNoEnd(row: seq<string>)
    requires IsRow(row)
    ensures HoldsNoEndFrom(RowLine(row), true)
  {
    hide HoldsNoEnd, HoldsNoEndFrom;
    LineHasNoEnd(RowLine(row));
  }

  lemma LineHasNoEnd(line: string)
    requires HoldsNoEnd(line)
    ensures HoldsNoEndFrom(line, true)
  {
    hide HoldsNoEnd, HoldsNoEndFrom;
    NoEndFrom(line, 0);
    assert line[0..] == line;
  }

  /** The match that starts at an excluded table's header ends behind its terminator. */
  lemma ExcludedEnds(b: Block, rest: string)
    requires b.Copy? && ArePrinted(b.rows) && HoldsNoEnd(HeaderLine(b.table, b.columns)) && EndsLine(rest)
    ensures EndBehind(GoneText(b) + rest, true) == |GoneText(b)|
  {
    hide EndBehind, HeaderLine, RowsText, HoldsNoEndFrom, HoldsNoEnd, EndsLine, ArePrinted;
    var (header, rows) := (HeaderLine(b.table, b.columns), RowsText(b.rows));
    LineHasNoEnd(header);
    EndBehindRowsText(b.rows, rest);
    EndBehindLine(header, rows + (Terminator() + rest), true);
    Regrouped(rows, Terminator(), rest);
    Regrouped("\n", rows + Terminator(), rest);
    Regrouped(header, "\n" + (rows + Terminator()), rest);
  }

  lemma PrefixBehind(front: string, s: string, prefix: string)
    ensures StartsWith(front + s, front + prefix) <==> StartsWith(s, prefix)
  {
    if StartsWith(s, prefix) {
      assert front + s == front + prefix + s[|prefix|..];
    }
    if StartsWith(front + s, front + prefix) {
      assert (front + s)[|front|..] == s && (front + prefix)[|front|..] == prefix;
      assert s[..|prefix|] == (front + s)[..|front + prefix|][|front|..];
    }
  }

  lemma NameStarts(table: string, rest: string)
    requires rest != "" && rest[0] == ' '
    ensures StartsWith(table + rest, "cds_model") <==> StartsWith(table, "cds_model")
  {
    var (name, prefix) := (table + rest, "cds_model");
    if |table| < 9 {
      assert name[|table|] == ' ' != prefix[|table|];
    } else {
      assert name[..9] == table[..9];
    }
  }

  lemma HeaderIsExcluded(table: Name, columns: seq<Name>)
    ensures StartsWith(HeaderLine(table, columns), ExcludedPrefix()) <==> StartsWith(Printed(table), "cds_model")
  {
    hide ColumnList, Printed;
    var rest := " (" + ColumnList(columns) + ") FROM stdin;";
    var line := "COPY public." + (Printed(table) + rest);
    assert HeaderLine(table, columns) == line;
    assert ExcludedPrefix() == "COPY public." + "cds_model";
    NameStarts(Printed(table), rest);
    PrefixBehind("COPY public.", Printed(table) + rest, "cds_model");
  }

  lemma GoneStarts(b: Block)
    requires IsExcluded(b)
    ensures StartsWith(GoneText(b), ExcludedPrefix())
  {
    hide HeaderLine, RowsText, StartsWith, ExcludedPrefix, Printed;
    HeaderIsExcluded(b.table, b.columns);
    var header := HeaderLine(b.table, b.columns);
    assert header <= GoneText(b);
    PrefixOfMore(header, GoneText(b), ExcludedPrefix());
  }

  lemma {:induction false} StaysAreNoStretches(s: string, pieces: seq<Piece>, atStart: bool)
    requires s != "" && s[|s| - 1] == '\n' && AreStretches(pieces, true)
    ensures AreStretches(Stays(s) + pieces, atStart)
    decreases |s|
  {
    hide AreStretches;
    var all := Stays(s) + pieces;
    FirstStays(s, pieces);
    StretchesFrom(all, atStart);
    if |s| > 1 {
      assert s[1..][|s| - 2] == s[|s| - 1];
      StaysAreNoStretches(s[1..], pieces, IsLineTerminator(s[0]));
    } else {
      assert Stays(s[1..]) + pieces == pieces;
    }
  }

  lemma FirstStays(s: string, pieces: seq<Piece>)
    requires s != ""
    ensures var all := Stays(s) + pieces; all[0] == Stay(s[0]) && all[1..] == Stays(s[1..]) + pieces
  {
    hide Stays;
    StaysStep(s);
    FirstAndRest(Stay(s[0]), Stays(s[1..]), pieces);
  }

  lemma StaysStep(s: string)
    requires s != ""
    ensures Stays(s) == [Stay(s[0])] + Stays(s[1..])
  {
  }

  lemma FirstAndRest(p: Piece, a: seq<Piece>, b: seq<Piece>)
    ensures var all := ([p] + a) + b; all[0] == p && all[1..] == a + b
  {
  }

  lemma StretchesFrom(pieces: seq<Piece>, atStart: bool)
    requires pieces != [] && pieces[0].Stay?
    ensures AreStretches(pieces, atStart) <==> AreStretches(pieces[1..], IsLineTerminator(pieces[0].c))
  {
    hide EndBehind, TextOf, StartsWith;
  }

  lemma {:induction false} DumpHasStretches(dump: seq<Block>)
    requires IsPrinted(dump)
    ensures AreStretches(PiecesOf(dump), true)
  {
    hide EndBehind, TextOf, LeftOf, AreStretches, BlockText, GoneText, StartsWith, Stays, ArePrinted, HoldsNoEnd, IsExcluded;
    if dump == [] {
      NoStretches();
    } else {
      var (b, rest) := (dump[0], PiecesOf(dump[1..]));
      assert b in dump;
      DumpHasStretches(dump[1..]);
      if IsExcluded(b) {
        ExcludedIsCopy(b);
        TwoPieces(GoneText(b), rest);
        GoneStarts(b);
        LineFeedFirst(TextOf(rest));
        ExcludedEnds(b, ['\n'] + TextOf(rest));
        TwoAreStretches(GoneText(b), rest);
      } else {
        BlockEndsLine(b);
        StaysAreNoStretches(BlockText(b), rest, true);
      }
    }
  }

  lemma NoStretches()
    ensures AreStretches([], true)
  {
  }

  lemma LineFeedFirst(s: string)
    ensures EndsLine(['\n'] + s)
  {
  }

  lemma TwoAreStretches(text: string, pieces: seq<Piece>)
    requires StartsWith(text, ExcludedPrefix()) && EndBehind(text + (['\n'] + TextOf(pieces)), true) == |text|
    requires AreStretches(pieces, true)
    ensures AreStretches([Gone(text), Stay('\n')] + pieces, true)
  {
    hide EndBehind, TextOf, StartsWith;
    TwoPieces(text, pieces);
    var all := [Gone(text), Stay('\n')] + pieces;
    assert AreStretches(all[1..], false);
  }

  // ----- where a match may start ----------------------------------------------------------------

  predicate CutsNoneOf(sql: string, from: nat, to: nat) { forall p :: from <= p < to ==> !CutsAt(sql, p) }

  lemma CutsNoneStep(sql: string, from: nat, to: nat)
    ensures from >= to ==> CutsNoneOf(sql, from, to)
    ensures from < to ==> (CutsNoneOf(sql, from, to) <==> !CutsAt(sql, from) && CutsNoneOf(sql, from + 1, to))
  {
    hide CutsAt;
  }

  lemma {:induction false} StaysAreNotCut(before: string, s: string, pieces: seq<Piece>)
    ensures var sql := before + (s + TextOf(pieces)); var n := |before|;
      CutsNoStay(Stays(s) + pieces, IsLineStart(sql, n))
      <==> CutsNoneOf(sql, n, n + |s|) && CutsNoStay(pieces, IsLineStart(sql, n + |s|))
    decreases |s|
  {
    hide EndBehind, TextOf, StartsWith, CutsNoStay, CutsNoneOf;
    var (sql, n, all) := (before + (s + TextOf(pieces)), |before|, Stays(s) + pieces);
    CutsNoneStep(sql, n, n + |s|);
    if s == "" {
      assert all == pieces;
    } else {
      FirstStays(s, pieces);
      StaysParts(s, pieces);
      OneFurther(before, s, TextOf(pieces));
      StaysAreNotCut(before + [s[0]], s[1..], pieces);
      NoStayFirst(all, IsLineStart(sql, n));
      Behind(before, s + TextOf(pieces));
      assert sql[n] == s[0];
    }
  }

  lemma OneFurther(before: string, s: string, rest: string)
    requires s != ""
    ensures (before + [s[0]]) + (s[1..] + rest) == before + (s + rest)
  {
  }

  lemma NoStayFirst(pieces: seq<Piece>, atStart: bool)
    requires pieces != [] && pieces[0].Stay?
    ensures CutsNoStay(pieces, atStart)
       <==> !CutsHere(TextOf(pieces), atStart) && CutsNoStay(pieces[1..], IsLineTerminator(pieces[0].c))
  {
    hide CutsHere, TextOf;
  }

  lemma {:induction false} CutsAreStays(dump: seq<Block>)
    requires IsPrinted(dump)
    ensures CutsNoStay(PiecesOf(dump), true) <==> CutsNothingElse(dump)
  {
    hide EndBehind, TextOf, LeftOf, CutsNoStay, CutsAt, BlockText, GoneText, Stays, IsExcluded, ArePrinted, HoldsNoEnd;
    if dump == [] {
      NothingStays();
    } else {
      var (b, rest) := (dump[0], PiecesOf(dump[1..]));
      CutsAreStays(dump[1..]);
      PiecesAreDump(dump[1..]);
      if IsExcluded(b) {
        ExcludedIsCopy(b);
        GoneNoStay(GoneText(b), rest);
      } else {
        BlockEndsLine(b);
        StaysAreNotCut("", BlockText(b), rest);
        var sql := BlockText(b) + TextOf(rest);
        assert "" + sql == sql && sql == DumpText(dump);
        assert sql[|BlockText(b)| - 1] == '\n';
      }
    }
  }

  lemma NothingStays()
    ensures CutsNoStay([], true)
  {
  }

  lemma GoneNoStay(text: string, pieces: seq<Piece>)
    ensures CutsNoStay([Gone(text), Stay('\n')] + pieces, true) <==> CutsNoStay(pieces, true)
  {
    hide TextOf, EndBehind;
    TwoPieces(text, pieces);
    var all := [Gone(text), Stay('\n')] + pieces;
    assert !CutsHere(TextOf(all[1..]), false);
    NoStayFirst(all[1..], false);
  }

  /** Leaving the `cds_model` data out takes the whole data of the tables whose printed names start so and nothing else,
      exactly when nowhere in what stays a line starts like the header of one with a terminator line behind it. */
  lemma OnlyCdsModelGoes(dump: seq<Block>)
    requires IsPrinted(dump)
    ensures WithoutCdsModel(DumpText(dump)) == DumpText(Kept(dump)) <==> CutsNothingElse(dump)
  {
    hide Filtered, TextOf, LeftOf, CutsNoStay, CutsNothingElse, AreStretches, PiecesOf, DumpText, Kept, IsPrinted;
    PiecesAreDump(dump);
    DumpHasStretches(dump);
    CutsAreStays(dump);
    FilteredIsLeft(PiecesOf(dump), true);
  }

  // ----- rows that are cut at -------------------------------------------------------------------

  lemma NotAtStart(s: string)
    requires !StartsWith(s, ExcludedPrefix())
    ensures !CutsHere(s, true)
  {
    hide EndBehind;
  }

  lemma NeverInside(s: string)
    ensures !CutsHere(s, false)
  {
  }

  /** A line that does not start like an excluded table's header stays, up to its line terminator. */
  lemma {:induction false} LineStays(line: string, end: char, rest: string, atStart: bool)
    requires IsOneLine(line) && IsLineTerminator(end) && (atStart ==> !StartsWith(line + ([end] + rest), ExcludedPrefix()))
    ensures Filtered(line + ([end] + rest), atStart) == line + ([end] + Filtered(rest, true))
    decreases |line|
  {
    hide Filtered, CutsHere, StartsWith, ExcludedPrefix, IsLineTerminator;
    var s := line + ([end] + rest);
    if atStart { NotAtStart(s); } else { NeverInside(s); }
    FilteredFirst(s, atStart);
    if line == "" {
      assert s == [end] + rest && s[1..] == rest;
      assert "" + ([end] + Filtered(rest, true)) == [end] + Filtered(rest, true);
    } else {
      assert s[0] == line[0] && s[1..] == line[1..] + ([end] + rest);
      assert !IsLineTerminator(line[0]) && IsOneLine(line[1..]);
      LineStays(line[1..], end, rest, false);
      FirstOf(line);
      Regrouped([line[0]], line[1..], [end] + Filtered(rest, true));
    }
  }

  /** Within the line of a header the prefix is found or not, whatever follows. */
  lemma PrefixInLine(line: string, end: char, rest: string)
    requires IsLineTerminator(end) && !StartsWith(line, ExcludedPrefix())
    ensures !StartsWith(line + ([end] + rest), ExcludedPrefix())
  {
    PrefixIsLine();
    var (s, prefix) := (line + ([end] + rest), ExcludedPrefix());
    if |line| < |prefix| {
      assert s[|line|] == end && prefix[|line|] != end;
    } else {
      assert s[..|prefix|] == line[..|prefix|];
    }
  }

  lemma PrefixIsLine()
    ensures forall i :: 0 <= i < |ExcludedPrefix()| ==> !IsLineTerminator(ExcludedPrefix()[i])
  {
    hide IsOneLine;
    assert ExcludedPrefix() == "COPY public." + "cds_model";
    PrefixPieces();
    OneLineConcat("COPY public.", "cds_model");
    OneLineIs(ExcludedPrefix());
  }

  lemma PrefixPieces()
    ensures IsOneLine("COPY public.") && IsOneLine("cds_model")
  {
  }

  lemma OneLineIs(s: string)
    requires IsOneLine(s)
    ensures forall i :: 0 <= i < |s| ==> !IsLineTerminator(s[i])
  {
  }

  /** From a line that starts like an excluded table's header on, the rows of a table go, its terminator included. */
  lemma CutRows(line: string, rows: seq<seq<string>>)
    requires StartsWith(line, ExcludedPrefix()) && HoldsNoEnd(line) && ArePrinted(rows)
    ensures Filtered(line + ("\n" + (RowsText(rows) + (Terminator() + "\n"))), true) == "\n"
  {
    hide Filtered, EndBehind, StartsWith, ExcludedPrefix, HoldsNoEnd, RowsText, HoldsNoEndFrom, ArePrinted;
    var end := RowsText(rows) + (Terminator() + "\n");
    var s := line + ("\n" + end);
    LineHasNoEnd(line);
    LineFeedFirst("");
    assert ['\n'] + "" == "\n";
    EndBehindRowsText(rows, "\n");
    EndBehindLine(line, end, true);
    var cut := line + ("\n" + (RowsText(rows) + Terminator()));
    Regrouped(RowsText(rows), Terminator(), "\n");
    Regrouped("\n", RowsText(rows) + Terminator(), "\n");
    Regrouped(line, "\n" + (RowsText(rows) + Terminator()), "\n");
    assert s == cut + "\n" && EndBehind(s, true) == |cut|;
    PrefixOfMore(line, cut, ExcludedPrefix());
    GoneIsCut(s, cut, true);
    Behind(cut, "\n");
    LineFeedStays();
  }

  lemma LineFeedStays()
    ensures Filtered("\n", false) == "\n"
  {
    assert "\n"[1..] == "" && ["\n"[0]] + "" == "\n";
  }

  /** The text of a dump with one table. */
  lemma OneTable(table: Name, columns: seq<Name>, first: seq<string>, row: seq<string>)
    ensures var dump := [Copy(table, columns, [first, row])];
      DumpText(dump) == HeaderLine(table, columns)
                        + (['\n'] + (RowLine(first) + ("\n" + (RowsText([row]) + (Terminator() + "\n")))))
  {
    hide HeaderLine, RowLine;
    var dump := [Copy(table, columns, [first, row])];
    FirstRowText(first, row, Terminator() + "\n");
    assert dump[1..] == [] && BlockText(dump[0]) + "" == BlockText(dump[0]);
    assert "\n" + (RowsText([first, row]) + (Terminator() + "\n")) == ['\n'] + (RowsText([first, row]) + (Terminator() + "\n"));
  }

  lemma KeepsAll(table: Name, columns: seq<Name>, rows: seq<seq<string>>)
    requires !StartsWith(Printed(table), "cds_model") && ArePrinted(rows)
    ensures var dump := [Copy(table, columns, rows)]; IsPrinted(dump) && Kept(dump) == dump
  {
    hide Printed, StartsWith, ArePrinted;
    assert [Copy(table, columns, rows)][1..] == [];
  }

  /** A row that starts like an excluded table's header: the rest of its table's data goes, its terminator included. */
  lemma RowIsCutAt(table: Name, columns: seq<Name>, row: seq<string>)
    requires !StartsWith(Printed(table), "cds_model") && IsOneLine(HeaderLine(table, columns)) && IsRow(row)
    ensures var dump := [Copy(table, columns, [[ExcludedPrefix()], row])];
      IsPrinted(dump) && Kept(dump) == dump && WithoutCdsModel(DumpText(dump)) == HeaderLine(table, columns) + "\n" + "\n"
  {
    hide Filtered, HeaderLine, RowLine, RowsText, StartsWith, ExcludedPrefix, IsRow, Printed, HoldsNoEnd, DumpText, IsOneLine;
    var (header, first) := (HeaderLine(table, columns), [ExcludedPrefix()]);
    PrefixIsRow();
    assert ArePrinted([first, row]) && ArePrinted([row]);
    KeepsAll(table, columns, [first, row]);
    OneTable(table, columns, first, row);
    HeaderIsExcluded(table, columns);
    var rest := RowLine(first) + ("\n" + (RowsText([row]) + (Terminator() + "\n")));
    PrefixInLine(header, '\n', rest);
    LineStays(header, '\n', rest, true);
    CutRows(RowLine(first), [row]);
    TwoFeeds(header);
  }

  lemma TwoFeeds(header: string)
    ensures header + (['\n'] + "\n") == header + "\n" + "\n"
  {
  }

  lemma PrefixIsRow()
    ensures IsRow([ExcludedPrefix()]) && RowLine([ExcludedPrefix()]) == ExcludedPrefix() && HoldsNoEnd(ExcludedPrefix())
    ensures StartsWith(ExcludedPrefix(), ExcludedPrefix()) && IsCalm(ExcludedPrefix())
  {
    hide IsCalm;
    assert ExcludedPrefix() == "COPY public." + "cds_model";
    CalmPrefix();
    CalmConcat("COPY public.", "cds_model");
    TextIsRow(ExcludedPrefix());
  }

  lemma CalmPrefix()
    ensures IsCalm("COPY public.") && IsCalm("cds_model")
  {
  }

  /** The same behind a line separator (U+2028) in a row. */
  function SeparatedPrefix(): (row: seq<string>) { ["x" + ("\U{2028}" + ExcludedPrefix())] }

  /** So does a row with such a start behind a line separator: only what is before that stays. */
  lemma SeparatorIsCutAt(table: Name, columns: seq<Name>, row: seq<string>)
    requires !StartsWith(Printed(table), "cds_model") && IsOneLine(HeaderLine(table, columns)) && IsRow(row)
    ensures var dump := [Copy(table, columns, [SeparatedPrefix(), row])];
      && IsPrinted(dump) && Kept(dump) == dump
      && WithoutCdsModel(DumpText(dump)) == HeaderLine(table, columns) + "\n" + "x\U{2028}" + "\n"
  {
    hide Filtered, HeaderLine, RowLine, RowsText, StartsWith, ExcludedPrefix, IsRow, Printed, HoldsNoEnd, DumpText, IsOneLine;
    var (header, first) := (HeaderLine(table, columns), SeparatedPrefix());
    SeparatedIsRow();
    PrefixIsRow();
    assert ArePrinted([first, row]) && ArePrinted([row]);
    KeepsAll(table, columns, [first, row]);
    OneTable(table, columns, first, row);
    HeaderIsExcluded(table, columns);
    var rows := RowsText([row]) + (Terminator() + "\n");
    var rest := RowLine(first) + ("\n" + rows);
    PrefixInLine(header, '\n', rest);
    LineStays(header, '\n', rest, true);
    SeparatedLine("\n" + rows);
    var cut := ExcludedPrefix() + ("\n" + rows);
    XIsNoPrefix();
    PrefixInLine("x", '\U{2028}', cut);
    LineStays("x", '\U{2028}', cut, true);
    CutRows(ExcludedPrefix(), [row]);
    WhatIsLeft(header);
  }

  lemma SeparatedIsRow()
    ensures IsRow(SeparatedPrefix()) && RowLine(SeparatedPrefix()) == SeparatedPrefix()[0]
  {
    hide IsCalm, IsRow, RowLine, ExcludedPrefix;
    PrefixIsRow();
    CalmX();
    CalmConcat("\U{2028}", ExcludedPrefix());
    CalmConcat("x", "\U{2028}" + ExcludedPrefix());
    TextIsRow(SeparatedPrefix()[0]);
  }

  lemma CalmX()
    ensures IsCalm("x") && IsCalm("\U{2028}")
  {
  }

  lemma SeparatedLine(more: string)
    ensures SeparatedPrefix()[0] + more == "x" + (['\U{2028}'] + (ExcludedPrefix() + more))
  {
    hide ExcludedPrefix;
    assert "\U{2028}" == ['\U{2028}'];
    Regrouped("\U{2028}", ExcludedPrefix(), more);
    Regrouped("x", "\U{2028}" + ExcludedPrefix(), more);
  }

  lemma XIsNoPrefix()
    ensures !StartsWith("x", ExcludedPrefix()) && IsOneLine("x")
  {
    assert |ExcludedPrefix()| > 1;
  }

  lemma WhatIsLeft(header: string)
    ensures header + (['\n'] + ("x" + (['\U{2028}'] + "\n"))) == header + "\n" + "x\U{2028}" + "\n"
  {
    assert "x\U{2028}" == "x" + ['\U{2028}'] && "\n" == ['\n'];
  }

  // ----- counting what is left ------------------------------------------------------------------

  lemma {:induction false} KeptListed(dump: seq<Block>)
    requires IsDump(dump)
    ensures IsDump(Kept(dump)) && Listed(Kept(dump)) == Listed(dump)
  {
    hide IsColumn, ArePrinted, IndexIn, BlobsTable, Printed, Filled, Texts;
    if dump != [] {
      assert Kept(dump)[1..] == Kept(dump[1..]) && dump[0] in dump;
      KeptListed(dump[1..]);
      assert IsBlock(Plain(""));
      if IsBlobsData(dump[0]) { BlobsTableIsKept(dump[0]); }
      forall b | b in Kept(dump) ensures IsBlock(b) {
        if b != Kept(dump)[0] { assert b in Kept(dump[1..]); }
      }
    }
  }

  lemma BlobsTableIsKept(b: Block)
    requires IsBlobsData(b)
    ensures !IsExcluded(b)
  {
    assert BlobsTable()[0] == 'f' != "cds_model"[0];
    assert Printed(b.table)[0] == if b.table.isQuoted then '"' else 'f';
  }

  /** Where nothing else is cut, what is counted of the filtered text is the blobs' table of the whole dump, exactly when
      its header matches nowhere before in what is left. */
  lemma CountsAreKept(dump: seq<Block>)
    requires IsDump(dump) && IsPrinted(dump) && CutsNothingElse(dump)
    ensures var left := WithoutCdsModel(DumpText(dump));
      && (FindFrom(left, 0) == HeaderAt(Kept(dump)) <==> NothingReadsAsHeader(Kept(dump)))
      && (NothingReadsAsHeader(Kept(dump)) ==> Find(left) == Listed(dump))
      && (NothingReadsAsHeader(Kept(dump)) && NothingReadsAsHeader(dump) ==> Find(left) == Find(DumpText(dump)))
  {
    hide Find, FindFrom, HeaderAt, NothingReadsAsHeader, Filtered, CutsNothingElse, DumpText, Kept, IsDump, IsPrinted, Listed;
    OnlyCdsModelGoes(dump);
    KeptListed(dump);
    DumpIsFound(dump);
    DumpIsFound(Kept(dump));
  }
}
