/** Plain-SQL dumps: counting the blobs stored outside the database. */
module CopyBlocks {
  import opened Text
  import opened Wrappers

  // ----- a dump as PostgreSQL prints it ---------------------------------------------------------

  /** A name as it is printed, bare or between quotes. */
  datatype Name = Name(text: string, isQuoted: bool)

  /** Statements and comments, or a table's data; a row is its fields as they are printed, escapes and all. */
  datatype Block = Plain(text: string) | Copy(table: Name, columns: seq<Name>, rows: seq<seq<string>>)

  function JoinWith(parts: seq<string>, sep: string): (s: string)
  {
    if |parts| == 0 then "" else if |parts| == 1 then parts[0] else parts[0] + sep + JoinWith(parts[1..], sep)
  }

  function Terminator(): (line: string) { "\\." }

  function Printed(name: Name): (s: string) { if name.isQuoted then "\"" + name.text + "\"" else name.text }

  function PrintedAll(names: seq<Name>): (s: seq<string>)
    ensures |s| == |names|
    ensures forall i :: 0 <= i < |names| ==> s[i] == Printed(names[i])
  {
    if names == [] then [] else [Printed(names[0])] + PrintedAll(names[1..])
  }

  function Texts(names: seq<Name>): (s: seq<string>)
    ensures |s| == |names|
    ensures forall i :: 0 <= i < |names| ==> s[i] == names[i].text
  {
    if names == [] then [] else [names[0].text] + Texts(names[1..])
  }

  function ColumnList(columns: seq<Name>): (s: string) { JoinWith(PrintedAll(columns), ", ") }

  function HeaderLine(table: Name, columns: seq<Name>): (line: string)
  {
    "COPY public." + Printed(table) + " (" + ColumnList(columns) + ") FROM stdin;"
  }

  function RowLine(row: seq<string>): (line: string) { JoinWith(row, "\t") }

  function RowLines(rows: seq<seq<string>>): (lines: seq<string>)
    ensures |lines| == |rows|
    ensures forall i :: 0 <= i < |rows| ==> lines[i] == RowLine(rows[i])
  {
    if rows == [] then [] else [RowLine(rows[0])] + RowLines(rows[1..])
  }

  /** Every row with its line feed. */
  function RowsText(rows: seq<seq<string>>): (s: string)
  {
    if rows == [] then "" else RowLine(rows[0]) + ("\n" + RowsText(rows[1..]))
  }

  function DataText(rows: seq<seq<string>>): (s: string) { "\n" + (RowsText(rows) + (Terminator() + "\n")) }

  function BlockText(b: Block): (s: string)
  {
    match b
    case Plain(text) => text + "\n"
    case Copy(table, columns, rows) => HeaderLine(table, columns) + DataText(rows)
  }

  function DumpText(dump: seq<Block>): (s: string)
  {
    if dump == [] then "" else BlockText(dump[0]) + DumpText(dump[1..])
  }

  // ----- counting -------------------------------------------------------------------------------

  datatype Tally = Tally(blobs: nat, bytes: nat)

  function Drop(s: string, prefix: string): (r: string)
  {
    if StartsWith(s, prefix) then s[|prefix|..] else s
  }

  /** `\s+`: what follows, if there is white space at all. */
  function AfterSpace(s: string): (r: Option<string>)
  {
    if s != "" && IsSpace(s[0]) then Some(TrimStart(s)) else None
  }

  /** What follows the table's name in the header of its data, quoted or not, in the public schema or none. */
  function AfterTable(text: string): (r: Option<string>)
  {
    if !StartsWith(text, "COPY") then None
    else
      match AfterSpace(text[4..])
      case None => None
      case Some(s) =>
        var name := Drop(Drop(s, "public."), "\"");
        if StartsWith(name, "file_blobs") then AfterSpace(Drop(name[10..], "\"")) else None
  }

  /** `^` with the flag `m`. */
  predicate IsLineStart(text: string, at: nat)
    requires at <= |text|
  {
    at == 0 || IsLineTerminator(text[at - 1])
  }

  /** `$` with the flag `m`, before `rest`. */
  predicate EndsLine(rest: string) { rest == "" || IsLineTerminator(rest[0]) }

  /** A header matched: its column list, and the text behind it. */
  datatype Header = Header(list: string, rest: string)

  /** `/^COPY\s+(?:public\.)?"?file_blobs"?\s+\(([^)]*)\)\s+FROM stdin;$/m` matched at the start of `text`, where a line
      starts: its white space and its column list may run across lines. */
  function MatchHeader(text: string): (r: Option<Header>)
  {
    match AfterTable(text)
    case None => None
    case Some(s) =>
      var end := IndexOf(s, ")");
      if StartsWith(s, "(") && end > 0 then
        var from := AfterSpace(s[end + 1..]);
        if from.Some? then MatchEnd(s[1..end], from.value) else None
      else None
  }

  function MatchEnd(list: string, from: string): (r: Option<Header>)
  {
    if StartsWith(from, "FROM stdin;") && EndsLine(from[11..]) then Some(Header(list, from[11..])) else None
  }

  function Unquoted(s: string): (r: string)
  {
    if s == "" then "" else (if s[0] == '"' then "" else [s[0]]) + Unquoted(s[1..])
  }

  function Names(parts: seq<string>): (names: seq<string>)
    ensures |names| == |parts|
  {
    if parts == [] then [] else [Unquoted(Trim(parts[0]))] + Names(parts[1..])
  }

  /** The names in a header's column list. */
  function ColumnNames(list: string): (names: seq<string>) { Names(Split(list, ',')) }

  function IndexIn(names: seq<string>, name: string): (i: int)
    ensures i == -1 ==> name !in names
    ensures i != -1 ==> 0 <= i < |names| && names[i] == name
  {
    if names == [] then -1
    else if names[0] == name then 0
    else
      var i := IndexIn(names[1..], name);
      if i < 0 then -1 else i + 1
  }

  /** `Number(s) || 0`, for the decimal digits a size is printed in. */
  function NumberOrZero(s: string): (n: nat)
  {
    if s != "" && AreDigits(s) then NumberOf(s) else 0
  }

  /** A size is read as it was printed. */
  lemma SizeReadsBack(row: seq<string>, sizeAt: nat, size: nat)
    requires sizeAt < |row| && row[sizeAt] == Decimal(size)
    ensures SizeOf(row, sizeAt) == size
  {
    DecimalReadsBack(size);
  }

  /** The storage a row's blob lives in, when that is outside the database. */
  predicate IsExternal(row: seq<string>, storageAt: nat)
  {
    storageAt < |row| && row[storageAt] != "" && row[storageAt] != "db"
  }

  predicate LivesIn(row: seq<string>, storageAt: nat, storage: string)
  {
    IsExternal(row, storageAt) && row[storageAt] == storage
  }

  /** How many of `rows` live in `storage`. */
  function Blobs(rows: seq<seq<string>>, storageAt: nat, storage: string): (n: nat)
  {
    if rows == [] then 0
    else
      var last := rows[|rows| - 1];
      Blobs(rows[..|rows| - 1], storageAt, storage) + if LivesIn(last, storageAt, storage) then 1 else 0
  }

  function SizeOf(row: seq<string>, sizeAt: int): (n: nat)
  {
    if 0 <= sizeAt < |row| then NumberOrZero(row[sizeAt]) else 0
  }

  /** The sum of the sizes of those of `rows` that live in `storage`. */
  function Bytes(rows: seq<seq<string>>, storageAt: nat, sizeAt: int, storage: string): (n: nat)
  {
    if rows == [] then 0
    else
      var last := rows[|rows| - 1];
      Bytes(rows[..|rows| - 1], storageAt, sizeAt, storage) + if LivesIn(last, storageAt, storage) then SizeOf(last, sizeAt) else 0
  }

  /** Per storage other than the database: how many of the rows live there, and the sum of their sizes. */
  ghost predicate IsTally(counts: map<string, Tally>, rows: seq<seq<string>>, storageAt: nat, sizeAt: int)
  {
    forall storage ::
      if Blobs(rows, storageAt, storage) == 0 then storage !in counts
      else storage in counts
           && counts[storage] == Tally(Blobs(rows, storageAt, storage), Bytes(rows, storageAt, sizeAt, storage))
  }

  predicate MatchesAt(sql: string, at: nat)
    requires at <= |sql|
  {
    IsLineStart(sql, at) && MatchHeader(sql[at..]).Some?
  }

  /** The first place from `at` on where a header matches, or -1. */
  function FindFrom(sql: string, at: nat): (r: int)
    requires at <= |sql|
    ensures r == -1 ==> forall i :: at <= i <= |sql| ==> !MatchesAt(sql, i)
    ensures r != -1 ==> at <= r <= |sql| && MatchesAt(sql, r) && forall i :: at <= i < r ==> !MatchesAt(sql, i)
    decreases |sql| - at
  {
    if MatchesAt(sql, at) then at else if at == |sql| then -1 else FindFrom(sql, at + 1)
  }

  /** The text of the rows behind a header: from behind the character that ends its line, up to the first line feed with
      the start of a terminator behind it. */
  function Data(rest: string): (s: string)
  {
    var end := IndexOf(rest, EndOfData());
    if rest == "" || end == 0 then "" else if end < 0 then rest[1..] else rest[1..end]
  }

  function EndOfData(): (s: string) { "\n" + Terminator() }

  /** The rows of the lines that are not empty. */
  function RowsOf(lines: seq<string>): (rows: seq<seq<string>>)
  {
    if lines == [] then [] else (if lines[0] == "" then [] else [Split(lines[0], '\t')]) + RowsOf(lines[1..])
  }

  /** What the count is about: the rows behind the first header, and where storage and size stand in them. */
  datatype Found = Nothing | Rows(rows: seq<seq<string>>, storageAt: nat, sizeAt: int)

  function FoundIn(h: Header): (found: Found)
  {
    var names := ColumnNames(h.list);
    var storageAt := IndexIn(names, "storage");
    if storageAt < 0 then Nothing else Rows(RowsOf(Lines(Data(h.rest))), storageAt, IndexIn(names, "size_bytes"))
  }

  function Find(sql: string): (found: Found)
  {
    var at := FindFrom(sql, 0);
    if at < 0 then Nothing else FoundIn(MatchHeader(sql[at..]).value)
  }

  lemma TallyNext(rows: seq<seq<string>>, row: seq<string>, storageAt: nat, sizeAt: int, storage: string)
    ensures Blobs(rows + [row], storageAt, storage)
         == Blobs(rows, storageAt, storage) + if LivesIn(row, storageAt, storage) then 1 else 0
    ensures Bytes(rows + [row], storageAt, sizeAt, storage)
         == Bytes(rows, storageAt, sizeAt, storage) + if LivesIn(row, storageAt, storage) then SizeOf(row, sizeAt) else 0
  {
    hide LivesIn, SizeOf;
    assert (rows + [row])[..|rows|] == rows;
  }

  method TallyRow(counts: map<string, Tally>, ghost rows: seq<seq<string>>, row: seq<string>, storageAt: nat, sizeAt: int)
    returns (after: map<string, Tally>)
    requires IsTally(counts, rows, storageAt, sizeAt)
    ensures IsTally(after, rows + [row], storageAt, sizeAt)
  {
    hide Blobs, Bytes, SizeOf;
    forall storage
      ensures Blobs(rows + [row], storageAt, storage)
           == Blobs(rows, storageAt, storage) + if LivesIn(row, storageAt, storage) then 1 else 0
      ensures Bytes(rows + [row], storageAt, sizeAt, storage)
           == Bytes(rows, storageAt, sizeAt, storage) + if LivesIn(row, storageAt, storage) then SizeOf(row, sizeAt) else 0
    {
      TallyNext(rows, row, storageAt, sizeAt, storage);
      NoBlobsNoBytes(rows, storageAt, sizeAt, storage);
    }
    after := counts;
    if storageAt < |row| && row[storageAt] != "" && row[storageAt] != "db" {
      var storage := row[storageAt];
      NoBlobsNoBytes(rows, storageAt, sizeAt, storage);
      var entry := if storage in counts then counts[storage] else Tally(0, 0);
      after := counts[storage := Tally(entry.blobs + 1, entry.bytes + SizeOf(row, sizeAt))];
    }
  }

  lemma {:induction false} NoBlobsNoBytes(rows: seq<seq<string>>, storageAt: nat, sizeAt: int, storage: string)
    ensures Blobs(rows, storageAt, storage) == 0 ==> Bytes(rows, storageAt, sizeAt, storage) == 0
  {
    hide LivesIn, SizeOf;
    if rows != [] { NoBlobsNoBytes(rows[..|rows| - 1], storageAt, sizeAt, storage); }
  }

  /** The blobs outside the database that a dump lists, per storage. */
  method CountExternalBlobsInDump(sql: string) returns (counts: map<string, Tally>)
    ensures match Find(sql)
      case Nothing => counts == map[]
      case Rows(rows, storageAt, sizeAt) => IsTally(counts, rows, storageAt, sizeAt)
  {
    hide Lines, MatchHeader, ColumnNames, Split, IsTally, RowsOf, Data;
    counts := map[];
    var at := FindFrom(sql, 0);
    if at < 0 { return; }
    var header := MatchHeader(sql[at..]).value;
    var names := ColumnNames(header.list);
    var storageAt := IndexIn(names, "storage");
    if storageAt < 0 { return; }
    var sizeAt := IndexIn(names, "size_bytes");
    var lines := Lines(Data(header.rest));
    counts := TallyLines(lines, storageAt, sizeAt);
  }

  method TallyLines(lines: seq<string>, storageAt: nat, sizeAt: int) returns (counts: map<string, Tally>)
    ensures IsTally(counts, RowsOf(lines), storageAt, sizeAt)
  {
    hide IsTally, Split, RowsOf;
    counts := map[];
    ghost var rows: seq<seq<string>> := [];
    var i := 0;
    NothingTallied(storageAt, sizeAt);
    assert lines[0..] == lines && [] + RowsOf(lines) == RowsOf(lines);
    while i < |lines|
      invariant 0 <= i <= |lines| && rows + RowsOf(lines[i..]) == RowsOf(lines)
      invariant IsTally(counts, rows, storageAt, sizeAt)
    {
      RowsStep(lines, rows, i);
      if lines[i] != "" {
        var fields := Split(lines[i], '\t');
        counts := TallyRow(counts, rows, fields, storageAt, sizeAt);
        rows := rows + [fields];
      }
      i := i + 1;
    }
    NoLinesLeft(lines, rows);
  }

  lemma RowsStep(lines: seq<string>, rows: seq<seq<string>>, i: nat)
    requires i < |lines|
    ensures var left := RowsOf(lines[i + 1..]);
      rows + RowsOf(lines[i..]) == if lines[i] == "" then rows + left else (rows + [Split(lines[i], '\t')]) + left
  {
    hide Split;
    assert lines[i..][1..] == lines[i + 1..];
  }

  lemma NoLinesLeft(lines: seq<string>, rows: seq<seq<string>>)
    ensures rows + RowsOf(lines[|lines|..]) == rows
  {
  }

  lemma NothingTallied(storageAt: nat, sizeAt: int)
    ensures IsTally(map[], [], storageAt, sizeAt)
  {
  }

  // ----- reading a printed dump -----------------------------------------------------------------

  lemma {:induction false} SplitOne(s: string, sep: char)
    requires sep !in s
    ensures Split(s, sep) == [s]
  {
    if s != "" {
      assert s[0] in s && sep !in s[1..];
      SplitOne(s[1..], sep);
      assert Split(s[1..], sep)[1..] == [] && s == [s[0]] + s[1..];
    }
  }

  lemma {:induction false} SplitAfter(s: string, sep: char, rest: string)
    requires sep !in s
    ensures Split(s + ([sep] + rest), sep) == [s] + Split(rest, sep)
    decreases |s|
  {
    var t := s + ([sep] + rest);
    if s == "" {
      assert t[1..] == rest;
    } else {
      assert t[1..] == s[1..] + ([sep] + rest) && s[0] in s;
      SplitAfter(s[1..], sep, rest);
      assert [s[0]] + s[1..] == s && ([s[1..]] + Split(rest, sep))[1..] == Split(rest, sep);
    }
  }

  /** Splitting undoes joining. */
  lemma {:induction false} SplitOfJoin(parts: seq<string>, sep: char)
    requires parts != [] && forall part :: part in parts ==> sep !in part
    ensures Split(JoinWith(parts, [sep]), sep) == parts
  {
    hide Split;
    assert parts[0] in parts;
    if |parts| == 1 {
      SplitOne(parts[0], sep);
    } else {
      var rest := JoinWith(parts[1..], [sep]);
      SplitAfter(parts[0], sep, rest);
      assert JoinWith(parts, [sep]) == parts[0] + ([sep] + rest);
      SplitOfJoin(parts[1..], sep);
      assert parts == [parts[0]] + parts[1..];
    }
  }

  lemma {:induction false} UnquotedPlain(s: string)
    requires '"' !in s
    ensures Unquoted(s) == s
  {
    if s != "" {
      assert s[0] in s && '"' !in s[1..];
      UnquotedPlain(s[1..]);
      assert s == [s[0]] + s[1..];
    }
  }

  /** A column the header's list reads back: no name in it is cut, and bare ones are trimmed. */
  predicate IsColumn(c: Name)
  {
    && ',' !in c.text && ')' !in c.text && '"' !in c.text
    && (c.isQuoted || IsTrimmed(c.text))
  }

  lemma {:induction false} UnquotedQuoted(s: string)
    requires '"' !in s
    ensures Unquoted(s + "\"") == s
  {
    if s == "" {
      assert (s + "\"")[1..] == "";
    } else {
      assert (s + "\"")[1..] == s[1..] + "\"" && s[0] in s && '"' !in s[1..];
      UnquotedQuoted(s[1..]);
      assert s == [s[0]] + s[1..];
    }
  }

  lemma QuotedIsTrimmed(s: string)
    ensures IsTrimmed("\"" + s + "\"") && ("\"" + s + "\"")[1..] == s + "\""
  {
  }

  lemma NameOfPart(column: Name, before: string)
    requires IsColumn(column) && IsBlank(before)
    ensures Unquoted(Trim(before + Printed(column))) == column.text
  {
    hide IsTrimmed, IsBlank, Trim;
    NothingIsBlank();
    var printed := Printed(column);
    if column.isQuoted {
      QuotedIsTrimmed(column.text);
      UnquotedQuoted(column.text);
      assert printed[0] == '"';
    } else {
      UnquotedPlain(column.text);
    }
    TrimAround(before, printed, "");
    assert before + printed + "" == before + printed;
  }

  /** The columns behind the first, each with the space the separator ends in. */
  function Spaced(columns: seq<string>): (parts: seq<string>)
    ensures |parts| == |columns|
    ensures forall i :: 0 <= i < |columns| ==> parts[i] == " " + columns[i]
  {
    if columns == [] then [] else [" " + columns[0]] + Spaced(columns[1..])
  }

  lemma {:induction false} JoinSpaced(columns: seq<string>)
    requires columns != []
    ensures JoinWith(columns, ", ") == JoinWith([columns[0]] + Spaced(columns[1..]), ",")
  {
    if |columns| > 1 {
      var (rest, parts) := (columns[1..], [columns[0]] + Spaced(columns[1..]));
      JoinSpaced(rest);
      assert Spaced(rest)[1..] == Spaced(rest[1..]);
      SpaceFirst(rest[0], Spaced(rest[1..]));
      assert parts[1..] == [" " + rest[0]] + Spaced(rest[1..]);
      assert ", " == "," + " ";
    }
  }

  lemma SpaceFirst(first: string, rest: seq<string>)
    ensures JoinWith([" " + first] + rest, ",") == " " + JoinWith([first] + rest, ",")
  {
    assert ([" " + first] + rest)[1..] == rest && ([first] + rest)[1..] == rest;
  }

  predicate AreColumns(columns: seq<Name>) { forall c :: c in columns ==> IsColumn(c) }

  lemma {:induction false} NamesOfSpaced(columns: seq<Name>)
    requires AreColumns(columns)
    ensures Names(Spaced(PrintedAll(columns))) == Texts(columns)
  {
    hide IsColumn, Unquoted, Trim, Printed;
    if columns != [] {
      assert IsBlank(" ") && columns[0] in columns;
      NameOfPart(columns[0], " ");
      NamesOfSpaced(columns[1..]);
      var printed := PrintedAll(columns);
      assert printed[1..] == PrintedAll(columns[1..]);
      assert Spaced(printed)[1..] == Spaced(printed[1..]);
    }
  }

  lemma PrintedHasNo(c: Name)
    requires IsColumn(c)
    ensures ',' !in Printed(c) && ',' !in " " + Printed(c) && ')' !in Printed(c)
  {
    hide IsTrimmed;
  }

  lemma NoCommas(columns: seq<Name>)
    requires columns != [] && AreColumns(columns)
    ensures var printed := PrintedAll(columns); forall part :: part in [printed[0]] + Spaced(printed[1..]) ==> ',' !in part
  {
    hide IsColumn, Printed;
    var printed := PrintedAll(columns);
    forall part | part in [printed[0]] + Spaced(printed[1..]) ensures ',' !in part {
      var i :| 0 <= i < |columns| && part == if i == 0 then printed[0] else " " + printed[i];
      assert columns[i] in columns;
      PrintedHasNo(columns[i]);
    }
  }

  /** A printed column list is read back, quoted names without their quotes. */
  lemma ColumnsReadBack(columns: seq<Name>)
    requires columns != [] && AreColumns(columns)
    ensures ColumnNames(ColumnList(columns)) == Texts(columns)
  {
    hide Split, Unquoted, Trim, JoinWith, IsColumn, Printed;
    var printed := PrintedAll(columns);
    var parts := [printed[0]] + Spaced(printed[1..]);
    JoinSpaced(printed);
    NoCommas(columns);
    SplitOfJoin(parts, ',');
    assert columns[0] in columns && "" + printed[0] == printed[0];
    NothingIsBlank();
    NameOfPart(columns[0], "");
    NamesOfSpaced(columns[1..]);
    assert parts[1..] == Spaced(printed[1..]) && printed[1..] == PrintedAll(columns[1..]);
    assert Texts(columns) == [columns[0].text] + Texts(columns[1..]);
  }

  function BlobsTable(): (table: string) { "file_blobs" }

  /** A name without white space; between quotes, any but one that continues the blobs' table's with white space. */
  predicate IsTableName(t: Name)
  {
    if t.isQuoted then |t.text| > 10 && StartsWith(t.text, BlobsTable()) ==> AfterSpace(Drop(t.text[10..], "\"")).None?
    else t.text != "" && forall i :: 0 <= i < |t.text| ==> !IsSpace(t.text[i]) && t.text[i] != '"'
  }

  lemma SpaceThen(s: string)
    requires s != "" && !IsSpace(s[0])
    ensures AfterSpace(" " + s) == Some(s)
  {
    var t := " " + s;
    assert t[0] == ' ' && t[1..] == s;
    assert TrimStart(s) == s;
    assert TrimStart(t) == TrimStart(s);
  }

  lemma CopyParts(name: string)
    ensures var line := "COPY public." + name; line[4..] == " " + ("public." + name) && StartsWith(line, "COPY")
  {
  }

  lemma DropParts(name: string)
    ensures Drop("public." + name, "public.") == name
    ensures Drop("\"" + name, "\"") == name
    ensures name != "" && name[0] != '"' ==> Drop(name, "\"") == name
  {
    assert ("\"" + name)[1..] == name;
  }

  lemma NameParts(table: string, rest: string)
    ensures "COPY public." + table + " (" + rest == "COPY public." + (table + (" " + ("(" + rest)))
  {
  }

  lemma AfterCopy(table: Name, rest: string)
    requires IsTableName(table)
    ensures AfterTable("COPY public." + Printed(table) + " (" + rest)
         == if table.text == BlobsTable() then Some("(" + rest) else None
  {
    hide IsSpace, TrimStart, AfterSpace, BlobsTable, StartsWith, Drop, IsTableName, Printed;
    var tail := " " + ("(" + rest);
    var name := Printed(table) + tail;
    NameParts(Printed(table), rest);
    CopyParts(name);
    SpaceIsSpace();
    SpaceThen("public." + name);
    SpaceThen("(" + rest);
    DropParts(name);
    if table.isQuoted { QuotedMatches(table, tail); } else { BareMatches(table, tail); }
    AfterTableIs("COPY public." + name, name);
  }

  lemma AfterTableIs(line: string, name: string)
    requires StartsWith(line, "COPY") && AfterSpace(line[4..]) == Some("public." + name)
    requires Drop("public." + name, "public.") == name
    ensures AfterTable(line) == AfterName(Drop(name, "\""))
  {
    hide AfterSpace, Drop;
  }

  function AfterName(name: string): (r: Option<string>)
  {
    if StartsWith(name, BlobsTable()) then AfterSpace(Drop(name[10..], "\"")) else None
  }

  lemma SpaceIsSpace()
    ensures IsSpace(' ') && !IsSpace('(') && !IsSpace('p') && !IsSpace('F') && !IsSpace('"')
  {
  }

  /** Only the blobs' own table name is followed by a space where the header wants one. */
  lemma BareMatches(table: Name, tail: string)
    requires IsTableName(table) && !table.isQuoted && tail != "" && tail[0] == ' '
    ensures AfterName(Drop(Printed(table) + tail, "\"")) == if table.text == BlobsTable() then AfterSpace(tail) else None
  {
    hide IsSpace, TrimStart;
    SpaceIsSpace();
    var (t, name) := (table.text, table.text + tail);
    assert name[0] == t[0];
    DropParts(name);
    DropParts(tail);
    BlobsTableIsSolid();
    if |t| < 10 {
      assert name[|t|] == ' ' != BlobsTable()[|t|];
    } else {
      assert name[..10] == t[..10];
      if |t| == 10 {
        assert t[..10] == t && name[10..] == tail;
      } else {
        assert name[10..][0] == name[10] == t[10];
        DropParts(name[10..]);
      }
    }
  }

  lemma QuotedMatches(table: Name, tail: string)
    requires IsTableName(table) && table.isQuoted && tail != "" && tail[0] == ' '
    ensures AfterName(Drop(Printed(table) + tail, "\"")) == if table.text == BlobsTable() then AfterSpace(tail) else None
  {
    hide IsSpace, TrimStart, AfterSpace, Drop, StartsWith;
    var (t, name) := (table.text, table.text + ("\"" + tail));
    assert Printed(table) + tail == "\"" + name;
    DropParts(name);
    NameBehindQuote(t, tail);
  }

  lemma NameBehindQuote(t: string, tail: string)
    requires |t| > 10 && StartsWith(t, BlobsTable()) ==> AfterSpace(Drop(t[10..], "\"")).None?
    ensures AfterName(t + ("\"" + tail)) == if t == BlobsTable() then AfterSpace(tail) else None
  {
    hide IsSpace, TrimStart;
    var (behind, name) := ("\"" + tail, t + ("\"" + tail));
    BlobsTableIsSolid();
    SpaceIsSpace();
    DropParts(tail);
    if |t| < 10 {
      assert name[|t|] == '"' != BlobsTable()[|t|];
    } else {
      assert name[..10] == t[..10];
      if |t| == 10 {
        assert t[..10] == t && name[10..] == behind;
      } else {
        var x := t[10..];
        assert name[10..] == x + behind;
        assert (x + behind)[0] == x[0] && (|x| > 1 ==> (x + behind)[1] == x[1]) && (|x| == 1 ==> (x + behind)[1] == '"');
        assert x[0] == '"' ==> Drop(x, "\"") == x[1..] && Drop(x + behind, "\"") == (x + behind)[1..];
      }
    }
  }

  lemma BlobsTableIsSolid()
    ensures |BlobsTable()| == 10 && forall i :: 0 <= i < 10 ==> BlobsTable()[i] != ' ' && BlobsTable()[i] != '"'
  {
  }

  // ----- counting what a dump lists -------------------------------------------------------------

  /** Whatever column list without a closing parenthesis a header has, it is matched. */
  lemma ListReadsBack(list: string, rest: string)
    requires ')' !in list && EndsLine(rest)
    ensures var s := "(" + (list + (") FROM stdin;" + rest));
      && StartsWith(s, "(") && IndexOf(s, ")") > 0 && s[1..IndexOf(s, ")")] == list
      && AfterSpace(s[IndexOf(s, ")") + 1..]) == Some("FROM stdin;" + rest)
      && MatchEnd(list, "FROM stdin;" + rest) == Some(Header(list, rest))
  {
    hide AfterSpace, IndexOf;
    var end := " FROM stdin;" + rest;
    assert ") FROM stdin;" + rest == ")" + end;
    Enclosed("(", list, ")", end);
    FirstParen("(" + list, end);
    FromParts(rest);
    SpaceIsSpace();
    SpaceThen("FROM stdin;" + rest);
  }

  lemma FromParts(rest: string)
    ensures var from := "FROM stdin;" + rest;
      " FROM stdin;" + rest == " " + from && from[0] == 'F' && StartsWith(from, "FROM stdin;") && from[11..] == rest
  {
    assert " FROM stdin;" == " " + "FROM stdin;";
  }

  lemma MatchAfter(text: string, list: string, rest: string)
    requires AfterTable(text) == Some("(" + (list + (") FROM stdin;" + rest))) && ')' !in list && EndsLine(rest)
    ensures MatchHeader(text) == Some(Header(list, rest))
  {
    hide AfterTable, AfterSpace, IndexOf, MatchEnd;
    ListReadsBack(list, rest);
  }

  /** A printed header, whatever follows its line: matched if it is that of the blobs' data. */
  lemma HeaderReadsBack(table: Name, columns: seq<Name>, rest: string)
    requires IsTableName(table) && (table.text == BlobsTable() ==> AreColumns(columns)) && EndsLine(rest)
    ensures MatchHeader(HeaderLine(table, columns) + rest)
         == if table.text == BlobsTable() then Some(Header(ColumnList(columns), rest)) else None
  {
    hide AfterTable, IsTableName, IsColumn, BlobsTable, ColumnList, AfterSpace, IsSpace, IndexOf, Printed, EndsLine, MatchEnd;
    var (list, text) := (ColumnList(columns), HeaderLine(table, columns) + rest);
    HeaderParts("COPY public." + Printed(table), list, rest);
    AfterCopy(table, list + (") FROM stdin;" + rest));
    if table.text == BlobsTable() {
      ListHasNoParen(columns);
      MatchAfter(text, list, rest);
    }
  }

  lemma HeaderParts(front: string, list: string, rest: string)
    ensures front + " (" + list + ") FROM stdin;" + rest == front + " (" + (list + (") FROM stdin;" + rest))
  {
    Regrouped(front + " (" + list, ") FROM stdin;", rest);
    Regrouped(front + " (", list, ") FROM stdin;" + rest);
  }

  lemma Enclosed(before: string, s: string, behind: string, rest: string)
    requires |before| == |behind| == 1
    ensures var all := before + (s + (behind + rest));
      before <= all && all == (before + s) + (behind + rest) && all[1..|s| + 1] == s && all[|s| + 2..] == rest
  {
  }

  lemma {:induction false} ListHasNoParen(columns: seq<Name>)
    requires AreColumns(columns)
    ensures ')' !in ColumnList(columns)
  {
    hide IsColumn, Printed;
    if columns != [] {
      assert columns[0] in columns;
      PrintedHasNo(columns[0]);
      ListHasNoParen(columns[1..]);
      assert PrintedAll(columns)[1..] == PrintedAll(columns[1..]);
    }
  }

  lemma FirstParen(before: string, rest: string)
    requires ')' !in before
    ensures IndexOf(before + (")" + rest), ")") == |before|
  {
    var s := before + (")" + rest);
    assert OccursAt(s, ")", |before|);
    forall k | 0 <= k < |before| ensures !OccursAt(s, ")", k) {
      assert s[k] == before[k] && s[k..k + 1][0] == s[k];
    }
  }

  /** No line starts with a terminator in `line`, whatever line terminators it holds. */
  predicate HoldsNoEnd(line: string)
  {
    forall k :: 0 <= k < |line| && IsLineStart(line, k) ==> !OccursAt(line, Terminator(), k)
  }

  /** A line of data: PostgreSQL escapes tabs, line feeds and backslashes in a field, so no line in it starts like a
      terminator. */
  predicate IsRow(row: seq<string>)
  {
    row != [] && (forall field :: field in row ==> '\t' !in field && '\n' !in field) && HoldsNoEnd(RowLine(row))
  }

  predicate ArePrinted(rows: seq<seq<string>>) { forall row :: row in rows ==> IsRow(row) }

  predicate IsBlobsData(b: Block) { b.Copy? && b.table.text == BlobsTable() }

  /** A table's data as printed; the columns of the blobs' table can be read back. */
  predicate IsBlock(b: Block)
  {
    b.Copy? ==>
      && ArePrinted(b.rows)
      && (IsBlobsData(b) ==> b.columns != [] && AreColumns(b.columns))
  }

  predicate IsDump(dump: seq<Block>) { forall b :: b in dump ==> IsBlock(b) }

  /** The rows whose lines are not empty: all but those of a single empty field. */
  function Filled(rows: seq<seq<string>>): (r: seq<seq<string>>)
  {
    if rows == [] then [] else (if RowLine(rows[0]) == "" then [] else [rows[0]]) + Filled(rows[1..])
  }

  /** What the count should be about: the data of the blobs' table. */
  function Listed(dump: seq<Block>): (found: Found)
  {
    if dump == [] then Nothing
    else if IsBlobsData(dump[0]) then
      var names := Texts(dump[0].columns);
      var storageAt := IndexIn(names, "storage");
      if storageAt < 0 then Nothing else Rows(Filled(dump[0].rows), storageAt, IndexIn(names, "size_bytes"))
    else Listed(dump[1..])
  }

  /** The text before the data of the blobs' table, all of it if there is none. */
  function TextBefore(dump: seq<Block>): (s: string)
  {
    if dump == [] || IsBlobsData(dump[0]) then "" else BlockText(dump[0]) + TextBefore(dump[1..])
  }

  predicate HasBlobs(dump: seq<Block>) { exists b :: b in dump && IsBlobsData(b) }

  /** Where the header of the blobs' data stands. */
  function HeaderAt(dump: seq<Block>): (at: int) { if HasBlobs(dump) then |TextBefore(dump)| else -1 }

  /** At no place before the data of the blobs' table does its header match. */
  predicate NothingReadsAsHeader(dump: seq<Block>)
  {
    forall p :: 0 <= p < |TextBefore(dump)| && p <= |DumpText(dump)| ==> !MatchesAt(DumpText(dump), p)
  }

  lemma NoHeader(text: string)
    requires !StartsWith(text, "COPY")
    ensures MatchHeader(text).None?
  {
    hide IndexOf, AfterSpace, MatchEnd;
  }

  // ----- the rows behind a header ---------------------------------------------------------------

  /** A line of data starts like no terminator, and holds no line feed, so the end of the data is behind it. */
  lemma EndIsBehind(first: char, line: string, more: string)
    requires '\n' !in line && !StartsWith(line, Terminator()) && more != "" && more[0] == '\n'
    ensures var (at, left) := (IndexOf([first] + (line + more), EndOfData()), IndexOf(more, EndOfData()));
      at == if left < 0 then -1 else 1 + |line| + left
  {
    hide IndexOf;
    var (s, e) := ([first] + (line + more), EndOfData());
    forall k | 0 <= k < 1 + |line| ensures !OccursAt(s, e, k) { NoEndAt(first, line, more, k); }
    forall k | 0 <= k ensures OccursAt(s, e, 1 + |line| + k) <==> OccursAt(more, e, k) {
      assert s[1 + |line|..] == more;
      if k + 3 <= |more| { assert s[1 + |line| + k..1 + |line| + k + 3] == more[k..k + 3]; }
    }
    FirstShifts(s, more, e, 1 + |line|);
  }

  lemma EndChars(s: string, k: nat)
    ensures OccursAt(s, EndOfData(), k) <==> k + 3 <= |s| && s[k] == '\n' && s[k + 1] == '\\' && s[k + 2] == '.'
    ensures OccursAt(s, Terminator(), k) <==> k + 2 <= |s| && s[k] == '\\' && s[k + 1] == '.'
    ensures StartsWith(s, Terminator()) <==> OccursAt(s, Terminator(), 0)
  {
    if k + 3 <= |s| { assert s[k..k + 3] == [s[k], s[k + 1], s[k + 2]]; }
    if k + 2 <= |s| { assert s[k..k + 2] == [s[k], s[k + 1]]; }
  }

  lemma NoEndAt(first: char, line: string, more: string, k: nat)
    requires '\n' !in line && !StartsWith(line, Terminator()) && more != "" && more[0] == '\n' && k < 1 + |line|
    ensures !OccursAt([first] + (line + more), EndOfData(), k)
  {
    var s := [first] + (line + more);
    EndChars(s, k);
    EndChars(line, 0);
    if k > 0 { assert s[k] == line[k - 1] && line[k - 1] in line; }
  }

  lemma FirstShifts(s: string, more: string, t: string, ahead: nat)
    requires forall k :: 0 <= k < ahead ==> !OccursAt(s, t, k)
    requires forall k :: 0 <= k ==> (OccursAt(s, t, ahead + k) <==> OccursAt(more, t, k))
    ensures IndexOf(s, t) == if IndexOf(more, t) < 0 then -1 else ahead + IndexOf(more, t)
  {
    var (a, b) := (IndexOf(s, t), IndexOf(more, t));
    if b >= 0 { assert OccursAt(s, t, ahead + b); }
    if a >= ahead { assert OccursAt(more, t, a - ahead); }
  }

  lemma RowIsLine(row: seq<string>)
    requires IsRow(row)
    ensures '\n' !in RowLine(row) && !StartsWith(RowLine(row), Terminator())
  {
    EndChars(RowLine(row), 0);
    TabIsOne();
    JoinHasNo(row, '\n');
    if RowLine(row) != "" { assert IsLineStart(RowLine(row), 0); }
  }

  lemma TabIsOne()
    ensures "\t" == ['\t']
  {
  }

  lemma {:induction false} JoinHasNo(row: seq<string>, c: char)
    requires c != '\t' && forall field :: field in row ==> c !in field
    ensures c !in JoinWith(row, "\t")
  {
    if row != [] {
      assert row[0] in row;
      JoinHasNo(row[1..], c);
    }
  }

  lemma RowsParts(first: char, rows: seq<seq<string>>, rest: string)
    requires rows != []
    ensures [first] + (RowsText(rows) + rest) == [first] + (RowLine(rows[0]) + ("\n" + (RowsText(rows[1..]) + rest)))
    ensures |RowsText(rows)| == |RowLine(rows[0])| + 1 + |RowsText(rows[1..])|
  {
    hide RowLine;
  }

  /** Where the data of printed rows ends: at the line feed before the terminator. */
  lemma {:induction false} EndBehindRows(first: char, rows: seq<seq<string>>, rest: string)
    requires ArePrinted(rows) && (first == '\n' || rows != [])
    ensures IndexOf([first] + (RowsText(rows) + (Terminator() + rest)), EndOfData()) == |RowsText(rows)|
    decreases |rows|
  {
    hide IndexOf, RowLine, RowsText, IsRow;
    var end := Terminator() + rest;
    if rows == [] {
      NoRows(first, rest);
    } else {
      assert rows[0] in rows;
      RowIsLine(rows[0]);
      RowsParts(first, rows, end);
      EndBehindRows('\n', rows[1..], rest);
      var more := ['\n'] + (RowsText(rows[1..]) + end);
      assert "\n" + (RowsText(rows[1..]) + end) == more;
      EndIsBehind(first, RowLine(rows[0]), more);
    }
  }

  lemma NoRows(first: char, rest: string)
    ensures RowsText([]) == ""
    ensures first == '\n' ==> IndexOf([first] + (RowsText([]) + (Terminator() + rest)), EndOfData()) == 0
  {
    var s := [first] + (RowsText([]) + (Terminator() + rest));
    EndChars(s, 0);
  }

  /** The lines of the rows' data are the rows. */
  lemma {:induction false} RowsTextIsJoined(rows: seq<seq<string>>)
    requires rows != []
    ensures RowsText(rows) == Join(RowLines(rows)) + "\n"
  {
    hide RowLine;
    JoinFirst(RowLines(rows));
    if |rows| == 1 {
      assert rows[1..] == [] && RowsText(rows[1..]) == "";
    } else {
      RowsTextIsJoined(rows[1..]);
      assert RowLines(rows)[1..] == RowLines(rows[1..]);
    }
  }

  /** Behind a header's line, or behind any other line terminator that ends it, the data is the rows' lines. */
  lemma DataReadsBack(first: char, rows: seq<seq<string>>, rest: string)
    requires ArePrinted(rows) && (first == '\n' || rows != [])
    ensures RowsOf(Lines(Data([first] + (RowsText(rows) + (Terminator() + rest))))) == Filled(rows)
  {
    hide IndexOf, RowLine, RowsText, IsRow, Lines, Join, RowLines, RowsOf, Filled;
    EndBehindRows(first, rows, rest);
    NoRows(first, rest);
    if rows == [] {
      NothingFilled();
    } else {
      RowsTextIsJoined(rows);
      var (all, joined) := ([first] + (RowsText(rows) + (Terminator() + rest)), Join(RowLines(rows)));
      assert all[1..|RowsText(rows)|] == joined by { DataSlice(first, joined, Terminator() + rest); }
      LinesOfRows(rows);
      RowsOfLines(rows);
      if RowsText(rows) == "\n" { assert joined == ""; }
    }
  }

  lemma DataSlice(first: char, s: string, rest: string)
    ensures ([first] + ((s + "\n") + rest))[1..|s| + 1] == s
  {
  }

  lemma NothingFilled()
    ensures RowsOf(Lines("")) == [] == Filled([])
  {
    assert Lines("") == [""];
  }

  lemma LinesOfRows(rows: seq<seq<string>>)
    requires ArePrinted(rows) && rows != []
    ensures Lines(Join(RowLines(rows))) == RowLines(rows)
  {
    hide Lines, Join, RowLine, IsRow;
    forall i | 0 <= i < |rows| ensures IsLine(RowLines(rows)[i]) {
      assert rows[i] in rows;
      RowIsLine(rows[i]);
    }
    LinesOfJoin(RowLines(rows));
  }

  lemma {:induction false} RowsOfLines(rows: seq<seq<string>>)
    requires ArePrinted(rows)
    ensures RowsOf(RowLines(rows)) == Filled(rows)
  {
    hide RowLine, Split, IsRow;
    if rows != [] {
      assert rows[0] in rows && RowLines(rows)[1..] == RowLines(rows[1..]);
      RowReadsBack(rows[0]);
      RowsOfLines(rows[1..]);
    }
  }

  lemma RowReadsBack(row: seq<string>)
    requires IsRow(row)
    ensures Split(RowLine(row), '\t') == row
  {
    hide Split, Terminator, JoinWith, HoldsNoEnd;
    TabIsOne();
    SplitOfJoin(row, '\t');
  }

  // ----- counting what a dump lists -------------------------------------------------------------

  lemma BlobsNameIsTableName(b: Block)
    requires IsBlobsData(b)
    ensures IsTableName(b.table)
  {
    BlobsTableIsSolid();
    assert forall i :: 0 <= i < 10 ==> !IsSpace(BlobsTable()[i]);
  }

  lemma DataParts(rows: seq<seq<string>>, rest: string)
    ensures DataText(rows) + rest == ['\n'] + (RowsText(rows) + (Terminator() + ("\n" + rest))) && EndsLine(DataText(rows) + rest)
  {
    hide RowsText;
    Regrouped("\n", RowsText(rows) + (Terminator() + "\n"), rest);
    Regrouped(RowsText(rows), Terminator() + "\n", rest);
    Regrouped(Terminator(), "\n", rest);
  }

  lemma BlockParts(b: Block, rest: string)
    requires b.Copy?
    ensures BlockText(b) + rest == HeaderLine(b.table, b.columns) + (DataText(b.rows) + rest)
  {
    hide HeaderLine, DataText;
  }

  /** The data of the blobs' table is found at its own header, whatever follows. */
  lemma BlobsBlockIsFound(b: Block, rest: string)
    requires IsBlock(b) && IsBlobsData(b)
    ensures var h := MatchHeader(BlockText(b) + rest); h.Some? && FoundIn(h.value) == Listed([b])
  {
    hide MatchHeader, IsColumn, IsTableName, HeaderLine, BlobsTable, ColumnNames, RowsOf, Lines, Data, RowsText, Filled, IndexIn,
      ColumnList, DataText, BlockText, EndsLine, Terminator;
    BlobsNameIsTableName(b);
    BlockParts(b, rest);
    DataParts(b.rows, rest);
    HeaderReadsBack(b.table, b.columns, DataText(b.rows) + rest);
    ColumnsReadBack(b.columns);
    DataReadsBack('\n', b.rows, "\n" + rest);
    assert [b][0] == b;
  }

  lemma Last(s: string, t: string)
    requires t != ""
    ensures (s + t)[|s + t| - 1] == t[|t| - 1]
  {
  }

  lemma BlockEndsLine(b: Block)
    ensures BlockText(b) != "" && BlockText(b)[|BlockText(b)| - 1] == '\n'
  {
    hide HeaderLine, RowsText;
    if b.Copy? {
      Last(RowsText(b.rows), Terminator() + "\n");
      Last("\n", RowsText(b.rows) + (Terminator() + "\n"));
      Last(HeaderLine(b.table, b.columns), DataText(b.rows));
    }
  }

  /** The text behind that before the blobs' data: it starts with the header, where a line starts. */
  lemma {:induction false} TextFrom(dump: seq<Block>) returns (rest: string)
    requires IsDump(dump)
    ensures DumpText(dump) == TextBefore(dump) + rest
    ensures TextBefore(dump) == "" || TextBefore(dump)[|TextBefore(dump)| - 1] == '\n'
    ensures if HasBlobs(dump) then MatchHeader(rest).Some? && FoundIn(MatchHeader(rest).value) == Listed(dump)
            else rest == "" && Listed(dump) == Nothing
  {
    hide MatchHeader, FoundIn, IsBlock, BlockText, IsBlobsData, IndexIn, Filled;
    if dump == [] {
      rest := "";
    } else {
      assert dump[0] in dump;
      if IsBlobsData(dump[0]) {
        rest := DumpText(dump);
        BlobsBlockIsFound(dump[0], DumpText(dump[1..]));
        assert [dump[0]][0] == dump[0];
        assert "" + rest == rest;
      } else {
        rest := TextFrom(dump[1..]);
        assert HasBlobs(dump) == HasBlobs(dump[1..]) by {
          assert forall b :: b in dump <==> b == dump[0] || b in dump[1..];
        }
        Regrouped(BlockText(dump[0]), TextBefore(dump[1..]), rest);
        BlockEndsLine(dump[0]);
        if TextBefore(dump[1..]) != "" { Last(BlockText(dump[0]), TextBefore(dump[1..])); }
      }
    }
  }

  lemma NothingMatches()
    ensures MatchHeader("").None?
  {
    NoHeader("");
  }

  lemma Behind(before: string, rest: string)
    ensures (before + rest)[|before|..] == rest
  {
  }

  /** In every printed dump, the header found is that of the blobs' data exactly when it matches nowhere before, not across
      lines either; then what is counted is that table: all its rows, and no other's. */
  lemma DumpIsFound(dump: seq<Block>)
    requires IsDump(dump)
    ensures FindFrom(DumpText(dump), 0) == HeaderAt(dump) <==> NothingReadsAsHeader(dump)
    ensures NothingReadsAsHeader(dump) ==> Find(DumpText(dump)) == Listed(dump)
  {
    hide FoundIn, IsDump, DumpText, TextBefore, MatchHeader, HasBlobs, Listed;
    var (sql, before) := (DumpText(dump), TextBefore(dump));
    var rest := TextFrom(dump);
    Behind(before, rest);
    NothingMatches();
    if HasBlobs(dump) {
      assert IsLineStart(sql, |before|) && MatchesAt(sql, |before|);
    } else {
      assert sql == before && !MatchesAt(sql, |before|);
    }
  }

  /** No other table's own header is matched, whatever follows it, and no terminator is. */
  lemma OtherHeadersAreNone(b: Block, rest: string)
    requires b.Copy? && !IsBlobsData(b) && IsTableName(b.table)
    ensures MatchHeader(BlockText(b) + rest).None? && MatchHeader(Terminator() + rest).None?
  {
    hide HeaderLine, MatchHeader, IsTableName, DataText, EndsLine;
    BlockParts(b, rest);
    DataParts(b.rows, rest);
    HeaderReadsBack(b.table, b.columns, DataText(b.rows) + rest);
    assert (Terminator() + rest)[0] == '\\';
    NoHeader(Terminator() + rest);
  }

  // ----- rows of a single empty field count nothing ---------------------------------------------

  lemma {:induction false} FilledCountsAll(rows: seq<seq<string>>, storageAt: nat, sizeAt: int, storage: string)
    requires ArePrinted(rows)
    ensures Blobs(Filled(rows), storageAt, storage) == Blobs(rows, storageAt, storage)
    ensures Bytes(Filled(rows), storageAt, sizeAt, storage) == Bytes(rows, storageAt, sizeAt, storage)
    decreases |rows|
  {
    hide Blobs, Bytes, IsRow, RowLine, LivesIn, SizeOf;
    if rows != [] {
      var (before, last) := (rows[..|rows| - 1], rows[|rows| - 1]);
      assert rows == before + [last] && last in rows;
      RowHasFields(last);
      FilledCountsAll(before, storageAt, sizeAt, storage);
      FilledGrows(before, last);
      TallyNext(before, last, storageAt, sizeAt, storage);
      if RowLine(last) == "" {
        EmptyRowLivesNowhere(last, storageAt, storage);
        assert Filled(before) + [] == Filled(before);
      } else {
        TallyNext(Filled(before), last, storageAt, sizeAt, storage);
      }
    }
  }

  lemma {:induction false} FilledGrows(rows: seq<seq<string>>, row: seq<string>)
    ensures Filled(rows + [row]) == Filled(rows) + if RowLine(row) == "" then [] else [row]
  {
    hide RowLine;
    if rows == [] {
      assert [] + [row] == [row] && [row][1..] == [];
    } else {
      assert (rows + [row])[1..] == rows[1..] + [row] && (rows + [row])[0] == rows[0];
      FilledGrows(rows[1..], row);
      var first := if RowLine(rows[0]) == "" then [] else [rows[0]];
      var last := if RowLine(row) == "" then [] else [row];
      assert Filled(rows + [row]) == first + (Filled(rows[1..]) + last) == (first + Filled(rows[1..])) + last;
    }
  }

  lemma RowHasFields(row: seq<string>)
    requires IsRow(row)
    ensures row != []
  {
  }

  lemma EmptyRowLivesNowhere(row: seq<string>, storageAt: nat, storage: string)
    requires row != [] && RowLine(row) == ""
    ensures !LivesIn(row, storageAt, storage)
  {
    assert |row| > 1 ==> |RowLine(row)| >= 1;
  }

  /** So what is counted of a dump's rows is what all of them hold. */
  lemma TallyIsOfAll(counts: map<string, Tally>, rows: seq<seq<string>>, storageAt: nat, sizeAt: int)
    requires ArePrinted(rows)
    ensures IsTally(counts, Filled(rows), storageAt, sizeAt) <==> IsTally(counts, rows, storageAt, sizeAt)
  {
    hide Blobs, Bytes, Filled;
    forall storage
      ensures Blobs(Filled(rows), storageAt, storage) == Blobs(rows, storageAt, storage)
           && Bytes(Filled(rows), storageAt, sizeAt, storage) == Bytes(rows, storageAt, sizeAt, storage)
    {
      FilledCountsAll(rows, storageAt, sizeAt, storage);
    }
  }

  // ----- rows as PostgreSQL prints them ---------------------------------------------------------

  /** A field of a row: no value, or a text. */
  datatype Field = Null | Value(text: string)

  /** A character in COPY text format. */
  function EscapedChar(c: char): (s: string)
  {
    match c
    case '\\' => "\\\\"
    case '\n' => "\\n"
    case '\r' => "\\r"
    case '\t' => "\\t"
    case '\U{0008}' => "\\b"
    case '\U{000C}' => "\\f"
    case '\U{000B}' => "\\v"
    case c => [c]
  }

  function EscapedText(text: string): (s: string)
  {
    if text == "" then "" else EscapedChar(text[0]) + EscapedText(text[1..])
  }

  function PrintedField(field: Field): (s: string) { if field.Null? then "\\N" else EscapedText(field.text) }

  function PrintedRow(fields: seq<Field>): (row: seq<string>)
    ensures |row| == |fields| && forall i :: 0 <= i < |fields| ==> row[i] == PrintedField(fields[i])
  {
    if fields == [] then [] else [PrintedField(fields[0])] + PrintedRow(fields[1..])
  }

  /** A terminator occurs only behind a backslash, and a backslash at the end stands behind another. */
  predicate IsTame(s: string)
  {
    && (forall k :: 0 < k < |s| && s[k - 1] == '\\' && s[k] == '.' ==> k > 1 && s[k - 2] == '\\')
    && (s != "" && s[|s| - 1] == '\\' ==> |s| > 1 && s[|s| - 2] == '\\')
  }

  lemma TameConcat(a: string, b: string)
    requires IsTame(a) && IsTame(b)
    ensures IsTame(a + b)
  {
    var s := a + b;
    forall k | 0 < k < |s| && s[k - 1] == '\\' && s[k] == '.' ensures k > 1 && s[k - 2] == '\\' {
      if k < |a| {
        assert s[k - 1] == a[k - 1] && s[k] == a[k] && (k > 1 ==> s[k - 2] == a[k - 2]);
      } else if k == |a| {
        assert s[k - 1] == a[k - 1] && (k > 1 ==> s[k - 2] == a[k - 2]);
      } else {
        var j := k - |a|;
        assert s[k - 1] == b[j - 1] && s[k] == b[j] && (j > 1 ==> s[k - 2] == b[j - 2]);
      }
    }
    if s != "" && s[|s| - 1] == '\\' {
      if b == "" { assert s == a; } else { assert s[|s| - 1] == b[|b| - 1] && (|b| > 1 ==> s[|s| - 2] == b[|b| - 2]); }
    }
  }

  lemma {:induction false} EscapedIsTame(text: string)
    ensures IsTame(EscapedText(text)) && '\t' !in EscapedText(text) && '\n' !in EscapedText(text)
  {
    hide IsTame;
    if text == "" {
      SomeAreTame();
    } else {
      EscapedIsTame(text[1..]);
      CharIsTame(text[0]);
      TameConcat(EscapedChar(text[0]), EscapedText(text[1..]));
    }
  }

  lemma SomeAreTame()
    ensures IsTame("") && IsTame("\t") && IsTame("\\N")
  {
  }

  lemma CharIsTame(c: char)
    ensures IsTame(EscapedChar(c)) && '\t' !in EscapedChar(c) && '\n' !in EscapedChar(c)
  {
  }

  lemma FieldIsTame(field: Field)
    ensures var s := PrintedField(field); IsTame(s) && '\t' !in s && '\n' !in s
  {
    hide IsTame;
    SomeAreTame();
    if field.Value? { EscapedIsTame(field.text); }
  }

  lemma {:induction false} TameJoin(row: seq<string>)
    requires forall field :: field in row ==> IsTame(field)
    ensures IsTame(JoinWith(row, "\t"))
  {
    hide IsTame;
    SomeAreTame();
    if row != [] {
      assert row[0] in row;
      if |row| > 1 {
        TameJoin(row[1..]);
        TameConcat(row[0], "\t");
        TameConcat(row[0] + "\t", JoinWith(row[1..], "\t"));
      }
    }
  }

  lemma TameAt(s: string, k: nat)
    requires IsTame(s)
    ensures 0 < k < |s| && s[k - 1] == '\\' && s[k] == '.' ==> k > 1 && s[k - 2] == '\\'
  {
  }

  lemma TameHoldsNoEnd(line: string)
    requires IsTame(line)
    ensures HoldsNoEnd(line)
  {
    forall k | 0 <= k < |line| && IsLineStart(line, k) ensures !OccursAt(line, Terminator(), k) {
      EndChars(line, k);
      TameAt(line, k + 1);
    }
  }

  /** Every row in COPY text format is a line of data: whatever its fields hold, no line in it starts like a terminator. */
  lemma PrintedRowIsRow(fields: seq<Field>)
    requires fields != []
    ensures IsRow(PrintedRow(fields))
  {
    hide IsTame, HoldsNoEnd, PrintedField;
    var row := PrintedRow(fields);
    forall field | field in row ensures IsTame(field) && '\t' !in field && '\n' !in field {
      var i :| 0 <= i < |fields| && row[i] == field;
      FieldIsTame(fields[i]);
    }
    TameJoin(row);
    TameHoldsNoEnd(RowLine(row));
  }

  // ----- rows that read as the header -----------------------------------------------------------

  predicate IsOneLine(s: string) { forall i :: 0 <= i < |s| ==> !IsLineTerminator(s[i]) }

  lemma OneLineConcat(a: string, b: string)
    requires IsOneLine(a) && IsOneLine(b)
    ensures IsOneLine(a + b)
  {
  }

  /** Behind the header of another table, a match takes the place of the blobs' own header, wherever that is. */
  lemma FirstMatchIsTaken(table: Name, columns: seq<Name>, x: string)
    requires IsTableName(table) && table.text != BlobsTable() && IsOneLine(HeaderLine(table, columns)) && MatchHeader(x).Some?
    ensures Find(HeaderLine(table, columns) + ("\n" + x)) == FoundIn(MatchHeader(x).value)
  {
    hide MatchHeader, HeaderLine, IsTableName, FoundIn, BlobsTable;
    var header := HeaderLine(table, columns);
    var sql := header + ("\n" + x);
    HeaderReadsBack(table, columns, "\n" + x);
    assert sql[0..] == sql && !MatchesAt(sql, 0);
    forall p | 0 < p <= |header| ensures !MatchesAt(sql, p) { assert sql[p - 1] == header[p - 1]; }
    assert sql[|header|] == '\n' && sql[|header| + 1..] == x by { Regrouped(header, "\n", x); }
    assert MatchesAt(sql, |header| + 1);
    assert FindFrom(sql, 0) == |header| + 1;
  }

  /** Without the characters that COPY text format escapes here. */
  predicate IsCalm(s: string) { '\\' !in s && '\t' !in s && '\n' !in s }

  /** A text that is a row of one field, and its line. */
  lemma TextIsRow(s: string)
    requires IsCalm(s)
    ensures IsRow([s]) && RowLine([s]) == s
  {
    forall k | 0 <= k < |s| ensures !OccursAt(s, Terminator(), k) {
      EndChars(s, k);
      assert s[k] in s;
    }
  }

  lemma CalmConcat(a: string, b: string)
    requires IsCalm(a) && IsCalm(b)
    ensures IsCalm(a + b)
  {
  }

  function StorageColumn(): (columns: seq<Name>) { [Name("storage", false)] }

  /** A table `a` with these rows, and the blobs' data behind it, which is empty. */
  function DumpOf(rows: seq<seq<string>>): (dump: seq<Block>)
  {
    [Copy(Name("a", false), StorageColumn(), rows), Copy(Name(BlobsTable(), false), StorageColumn(), [])]
  }

  lemma StorageFacts()
    ensures AreColumns(StorageColumn()) && ColumnList(StorageColumn()) == "storage" && Texts(StorageColumn()) == ["storage"]
    ensures IsTableName(Name("a", false)) && "a" != BlobsTable()
    ensures IndexIn(["storage"], "storage") == 0 && IndexIn(["storage"], "size_bytes") == -1
  {
    hide IsTrimmed, IsSpace;
    StorageIsWord();
    assert PrintedAll(StorageColumn()) == ["storage"];
    assert ["storage"][1..] == [];
  }

  lemma StorageIsWord()
    ensures IsTrimmed("storage") && ',' !in "storage" && ')' !in "storage" && '"' !in "storage" && "storage" != "size_bytes"
    ensures !IsSpace('a')
  {
    assert !IsSpace('s') && !IsSpace('e') && "storage"[6] == 'e';
    assert |"storage"| == 7 && |"size_bytes"| == 10;
  }

  lemma HeaderOfA()
    ensures IsOneLine(HeaderLine(Name("a", false), StorageColumn()))
  {
    hide IsOneLine;
    StorageFacts();
    FivePieces();
    OneLineConcat("COPY public.", "a");
    OneLineConcat("COPY public." + "a", " (");
    OneLineConcat("COPY public." + "a" + " (", "storage");
    OneLineConcat("COPY public." + "a" + " (" + "storage", ") FROM stdin;");
  }

  lemma FivePieces()
    ensures IsOneLine("COPY public.") && IsOneLine("a") && IsOneLine(" (") && IsOneLine("storage") && IsOneLine(") FROM stdin;")
  {
  }

  /** The text of such a dump from its first row on. */
  function FromFirstRow(rows: seq<seq<string>>): (x: string)
  {
    RowsText(rows) + (Terminator() + ("\n" + DumpText([DumpOf(rows)[1]])))
  }

  lemma TextOfDump(rows: seq<seq<string>>)
    requires ArePrinted(rows)
    ensures var dump := DumpOf(rows);
      && IsDump(dump) && Listed(dump) == Rows([], 0, -1)
      && (MatchHeader(FromFirstRow(rows)).Some? ==> Find(DumpText(dump)) == FoundIn(MatchHeader(FromFirstRow(rows)).value))
  {
    hide HeaderLine, MatchHeader, FoundIn, RowsText, BlobsTable, IsTableName, IsColumn, IsRow, Find, DataText;
    var dump := DumpOf(rows);
    var behind := DumpText([dump[1]]);
    StorageFacts();
    HeaderOfA();
    assert dump[1..] == [dump[1]];
    BlockParts(dump[0], behind);
    DataParts(rows, behind);
    assert ['\n'] + FromFirstRow(rows) == "\n" + FromFirstRow(rows);
    if MatchHeader(FromFirstRow(rows)).Some? { FirstMatchIsTaken(dump[0].table, dump[0].columns, FromFirstRow(rows)); }
  }

  lemma TwoRowsText(a: seq<string>, b: seq<string>, more: seq<seq<string>>, rest: string)
    ensures RowsText([a, b] + more) + rest == RowLine(a) + ("\n" + (RowLine(b) + ("\n" + (RowsText(more) + rest))))
  {
    hide RowLine;
    var rows := [a, b] + more;
    assert rows[1..] == [b] + more && rows[1..][1..] == more;
  }

  /** A row that reads as the header: what is counted is the rest of its table. */
  lemma RowReadsAsHeader(row: seq<string>)
    requires IsRow(row)
    ensures var dump := DumpOf([[HeaderLine(Name(BlobsTable(), false), StorageColumn())], row]);
      IsDump(dump) && Find(DumpText(dump)) == Rows(Filled([row]), 0, -1) && Listed(dump) == Rows([], 0, -1)
  {
    hide HeaderLine, MatchHeader, RowsText, BlobsTable, IsColumn, IsRow, Find, DataText, Filled, FoundIn, IndexIn;
    var blobs := Copy(Name(BlobsTable(), false), StorageColumn(), [row]);
    var header := HeaderLine(blobs.table, blobs.columns);
    var rows := [[header], row];
    StorageFacts();
    HeaderIsRow();
    TextOfDump(rows);
    var more := DumpText([DumpOf(rows)[1]]);
    TwoRowsText([header], row, [], Terminator() + ("\n" + more));
    assert [[header], row] + [] == rows;
    OneRowText(row, Terminator() + ("\n" + more));
    BlockParts(blobs, more);
    DataParts([row], more);
    BlobsBlockIsFound(blobs, more);
    assert [blobs][0] == blobs;
  }

  lemma OneRowText(row: seq<string>, rest: string)
    ensures "\n" + (RowLine(row) + ("\n" + (RowsText([]) + rest))) == ['\n'] + (RowsText([row]) + rest)
  {
    hide RowLine;
    assert [row][1..] == [];
  }

  /** The blobs' header is a line of data too. */
  lemma HeaderIsRow()
    ensures var header := HeaderLine(Name(BlobsTable(), false), StorageColumn()); IsRow([header]) && RowLine([header]) == header
  {
    hide IsCalm, IsRow, RowLine, ColumnList;
    StorageFacts();
    CalmPieces();
    CalmConcat("COPY public.", BlobsTable());
    CalmConcat("COPY public." + BlobsTable(), " (");
    CalmConcat("COPY public." + BlobsTable() + " (", "storage");
    CalmConcat("COPY public." + BlobsTable() + " (" + "storage", ") FROM stdin;");
    TextIsRow(HeaderLine(Name(BlobsTable(), false), StorageColumn()));
  }

  lemma CalmPieces()
    ensures IsCalm("COPY public.") && IsCalm(BlobsTable()) && IsCalm(" (") && IsCalm("storage") && IsCalm(") FROM stdin;")
  {
  }

  /** The header without a schema, with any column list. */
  lemma BareHeader(list: string, rest: string)
    requires ')' !in list && EndsLine(rest)
    ensures MatchHeader("COPY file_blobs (" + (list + (") FROM stdin;" + rest))) == Some(Header(list, rest))
  {
    hide AfterSpace, IsSpace, MatchHeader, EndsLine;
    var more := "(" + (list + (") FROM stdin;" + rest));
    var name := "file_blobs" + (" " + more);
    var text := "COPY" + (" " + name);
    assert "COPY file_blobs (" == "COPY" + " " + "file_blobs" + " " + "(";
    assert text == "COPY file_blobs (" + (list + (") FROM stdin;" + rest));
    SpaceIsSpace();
    FIsNoSpace();
    SpaceThen(name);
    SpaceThen(more);
    BareParts(name, " " + more);
    assert text[4..] == " " + name && StartsWith(text, "COPY");
    assert AfterTable(text) == Some(more);
    MatchAfter(text, list, rest);
  }

  lemma FIsNoSpace()
    ensures !IsSpace('f')
  {
  }

  lemma BareParts(name: string, tail: string)
    requires name == "file_blobs" + tail && tail != "" && tail[0] == ' '
    ensures name[0] == 'f' && Drop(name, "public.") == name && Drop(name, "\"") == name && StartsWith(name, "file_blobs")
    ensures name[10..] == tail && Drop(tail, "\"") == tail
  {
    assert "public."[0] == 'p' && "\""[0] == '"';
  }

  function SplitHeader(): (rows: seq<seq<string>>) { [["COPY file_blobs (storage,"], ["x) FROM stdin;"]] }

  /** Two rows that read as the header together, the column list across their line feed. */
  lemma TwoRowsReadAsHeader(row: seq<string>)
    requires IsRow(row)
    ensures var dump := DumpOf(SplitHeader() + [row]);
      IsDump(dump) && Find(DumpText(dump)) == Rows(Filled([row]), 0, -1) && Listed(dump) == Rows([], 0, -1)
  {
    hide MatchHeader, RowsText, BlobsTable, IsRow, Find, RowLine, Lines, Data, RowsOf, Filled, ColumnNames, IndexIn, EndsLine;
    var (a, b) := ("COPY file_blobs (storage,", "x) FROM stdin;");
    var rows := SplitHeader() + [row];
    SplitHeaderRows();
    assert ArePrinted(rows);
    TextOfDump(rows);
    var end := Terminator() + ("\n" + DumpText([DumpOf(rows)[1]]));
    TwoRowsText([a], [b], [row], end);
    var rest := "\n" + (RowsText([row]) + end);
    var list := "storage,\nx";
    SplitParts(rest);
    LineFeedEnds(RowsText([row]) + end);
    BareHeader(list, rest);
    assert rest == ['\n'] + (RowsText([row]) + end);
    DataReadsBack('\n', [row], "\n" + DumpText([DumpOf(rows)[1]]));
    TwoColumns();
  }

  lemma LineFeedEnds(s: string)
    ensures EndsLine("\n" + s) && EndsLine("\U{2028}" + s)
  {
  }

  lemma SplitHeaderRows()
    ensures var (a, b) := ("COPY file_blobs (storage,", "x) FROM stdin;");
      IsRow([a]) && RowLine([a]) == a && IsRow([b]) && RowLine([b]) == b
  {
    hide IsCalm, IsRow, RowLine;
    CalmHalves();
    TextIsRow("COPY file_blobs (storage,");
    TextIsRow("x) FROM stdin;");
  }

  lemma CalmHalves()
    ensures IsCalm("COPY file_blobs (storage,") && IsCalm("x) FROM stdin;")
  {
    CopyFileIsCalm();
    assert IsCalm("blobs (storage,") && IsCalm("x) FROM stdin;");
    CalmConcat("COPY file_", "blobs (storage,");
    hide IsCalm;
    assert "COPY file_blobs (storage," == "COPY file_" + "blobs (storage,";
  }

  lemma CopyFileIsCalm()
    ensures IsCalm("COPY file_")
  {
  }

  lemma SplitParts(rest: string)
    ensures var (a, b) := ("COPY file_blobs (storage,", "x) FROM stdin;");
      a + ("\n" + (b + rest)) == "COPY file_blobs (" + ("storage,\nx" + (") FROM stdin;" + rest)) && ')' !in "storage,\nx"
  {
    assert "COPY file_blobs (storage," == "COPY file_blobs (" + "storage,";
    assert "x) FROM stdin;" == "x" + ") FROM stdin;" && "storage,\nx" == "storage," + "\n" + "x";
  }

  lemma TwoColumns()
    ensures var names := ColumnNames("storage,\nx"); IndexIn(names, "storage") == 0 && IndexIn(names, "size_bytes") == -1
  {
    hide Split, Trim, Unquoted;
    var parts := ["storage", "\nx"];
    assert "storage,\nx" == "storage" + ([','] + "\nx");
    SplitAfter("storage", ',', "\nx");
    SplitOne("\nx", ',');
    assert Split("storage,\nx", ',') == parts;
    StorageFacts();
    PartNames();
    assert parts[1..] == ["\nx"] && ["\nx"][1..] == [];
    assert Names(parts) == ["storage", "x"];
    var names := ["storage", "x"];
    assert names[1..] == ["x"] && ["x"][1..] == [] && "storage" != "size_bytes" && "x" != "size_bytes";
  }

  lemma PartNames()
    ensures Unquoted(Trim("storage")) == "storage" && Unquoted(Trim("\nx")) == "x"
  {
    hide Trim, Unquoted;
    StorageFacts();
    NothingIsBlank();
    assert IsColumn(StorageColumn()[0]);
    NameOfPart(Name("storage", false), "");
    assert "" + "storage" == "storage";
    assert !IsSpace('x') && IsBlank("\n");
    NameOfPart(Name("x", false), "\n");
    assert "\n" + "x" == "\nx";
  }

  /** The header, and a line separator (U+2028) behind it, which ends its line too. */
  function SeparatedHeader(): (row: seq<string>) { ["COPY file_blobs (storage)" + (" FROM stdin;" + "\U{2028}x")] }

  /** A row that reads as the header up to a line separator in it: what is behind that counts as a row too. */
  lemma SeparatorEndsHeader(row: seq<string>)
    requires IsRow(row)
    ensures var dump := DumpOf([SeparatedHeader(), row]);
      IsDump(dump) && Find(DumpText(dump)) == Rows([["x"]] + Filled([row]), 0, -1) && Listed(dump) == Rows([], 0, -1)
  {
    hide MatchHeader, RowsText, BlobsTable, IsRow, Find, RowLine, Lines, Data, RowsOf, Filled, ColumnNames, IndexIn, EndsLine,
      SeparatedHeader;
    var rows := [SeparatedHeader(), row];
    SeparatedRow();
    assert ArePrinted(rows);
    TextOfDump(rows);
    var behind := "\n" + DumpText([DumpOf(rows)[1]]);
    var end := Terminator() + behind;
    FirstRowText(SeparatedHeader(), row, end);
    FirstRowText(["x"], row, end);
    var rest := "\U{2028}" + (RowsText([["x"], row]) + end);
    SeparatedParts(RowsText([row]) + end);
    LineFeedEnds(RowsText([["x"], row]) + end);
    BareHeader("storage", rest);
    assert rest == ['\U{2028}'] + (RowsText([["x"], row]) + end);
    assert ArePrinted([["x"], row]);
    DataReadsBack('\U{2028}', [["x"], row], behind);
    FilledX(row);
    OneColumn();
  }

  lemma FirstRowText(first: seq<string>, row: seq<string>, rest: string)
    ensures RowsText([first, row]) + rest == RowLine(first) + ("\n" + (RowsText([row]) + rest))
  {
    hide RowLine;
    TwoRows(first, row);
    Regrouped(RowLine(first), "\n" + RowsText([row]), rest);
    Regrouped("\n", RowsText([row]), rest);
  }

  lemma TwoRows(first: seq<string>, row: seq<string>)
    ensures [first, row][1..] == [row]
  {
  }

  lemma SeparatedRow()
    ensures IsRow(SeparatedHeader()) && RowLine(SeparatedHeader()) == SeparatedHeader()[0]
    ensures IsRow(["x"]) && RowLine(["x"]) == "x"
  {
    hide IsCalm, IsRow, RowLine;
    CalmEnds();
    CalmConcat(" FROM stdin;", "\U{2028}x");
    CalmConcat("COPY file_blobs (storage)", " FROM stdin;" + "\U{2028}x");
    TextIsRow(SeparatedHeader()[0]);
    TextIsRow("x");
  }

  lemma CalmEnds()
    ensures IsCalm("COPY file_blobs (storage)") && IsCalm(" FROM stdin;") && IsCalm("\U{2028}x") && IsCalm("x")
  {
    CopyFileIsCalm();
    assert IsCalm("blobs (storage)");
    CalmConcat("COPY file_", "blobs (storage)");
    assert "COPY file_blobs (storage)" == "COPY file_" + "blobs (storage)";
  }

  lemma SeparatedParts(more: string)
    ensures SeparatedHeader()[0] + ("\n" + more)
         == "COPY file_blobs (" + ("storage" + (") FROM stdin;" + ("\U{2028}" + ("x" + ("\n" + more)))))
    ensures ')' !in "storage"
  {
    assert "COPY file_blobs (storage)" == "COPY file_blobs (" + "storage" + ")";
    assert ") FROM stdin;" == ")" + " FROM stdin;" && "\U{2028}x" == "\U{2028}" + "x";
  }

  lemma FilledX(row: seq<string>)
    ensures Filled([["x"], row]) == [["x"]] + Filled([row])
  {
    assert [["x"], row][1..] == [row] && RowLine(["x"]) == "x";
  }

  lemma OneColumn()
    ensures var names := ColumnNames("storage"); IndexIn(names, "storage") == 0 && IndexIn(names, "size_bytes") == -1
  {
    hide Split, Trim, Unquoted, Names;
    StorageFacts();
    ColumnsReadBack(StorageColumn());
  }
}
