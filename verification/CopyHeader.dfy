/** The header of the blobs' data as the expression for it describes it: what is matched, said of the text alone. */
module CopyHeader {
  import opened Text
  import opened Wrappers
  import opened CopyBlocks

  predicate AreSpaces(s: string) { s != "" && IsBlank(s) }

  /** `COPY`, the table's name with or without schema and quotes, the column list, and `FROM stdin;` at a line's end. */
  ghost predicate IsHeaderText(text: string, list: string, rest: string)
  {
    exists a, schema, q, r, b, c :: IsHeaderOf(text, list, rest, a, schema, q, r, b, c)
  }

  predicate IsHeaderOf(text: string, list: string, rest: string, a: string, schema: string, q: string, r: string, b: string,
                       c: string)
  {
    && AreSpaces(a) && AreSpaces(b) && AreSpaces(c) && schema in ["", "public."] && q in ["", "\""] && r in ["", "\""]
    && ')' !in list && EndsLine(rest)
    && text == "COPY" + (a + (schema + (q + ("file_blobs" + (r + (b + ("(" + (list + (")" + (c + ("FROM stdin;" + rest)))))))))))
  }

  // ----- what is written so is matched ----------------------------------------------------------

  lemma AfterSpaces(a: string, x: string)
    requires AreSpaces(a) && x != "" && !IsSpace(x[0])
    ensures AfterSpace(a + x) == Some(x)
  {
    hide IsSpace;
    TrimStartBlank(a, x);
    assert (a + x)[0] == a[0];
  }

  lemma DropOf(prefix: string, x: string)
    requires prefix != ""
    ensures Drop(prefix + x, prefix) == x
    ensures x != "" && x[0] != prefix[0] ==> Drop(x, prefix) == x
  {
  }

  lemma Starts()
    ensures "public."[0] == 'p' && "\""[0] == '"' && "file_blobs"[0] == 'f' && |"file_blobs"| == 10 && |"FROM stdin;"| == 11
    ensures !IsSpace('p') && !IsSpace('"') && !IsSpace('f') && !IsSpace('(') && !IsSpace('F')
  {
  }

  lemma NameIsDropped(schema: string, q: string, x: string)
    requires schema in ["", "public."] && q in ["", "\""] && x != "" && x[0] == 'f'
    ensures var name := schema + (q + x);
      Drop(Drop(name, "public."), "\"") == x && name != "" && name[0] in "p\"f"
  {
    Starts();
    var y := q + x;
    DropOf("\"", x);
    assert q == "" ==> y == x;
    DropOf("public.", y);
    assert schema == "" ==> schema + y == y;
  }

  lemma QuoteIsDropped(r: string, x: string)
    requires r in ["", "\""] && x != "" && x[0] != '"'
    ensures Drop(r + x, "\"") == x
  {
    DropOf("\"", x);
    assert r == "" ==> r + x == x;
  }

  lemma TableIsRead(a: string, schema: string, q: string, r: string, b: string, x: string)
    requires AreSpaces(a) && AreSpaces(b) && schema in ["", "public."] && q in ["", "\""] && r in ["", "\""]
    requires x != "" && x[0] == '('
    ensures AfterTable("COPY" + (a + (schema + (q + ("file_blobs" + (r + (b + x))))))) == Some(x)
  {
    hide IsSpace, TrimStart, Drop, AreSpaces;
    Starts();
    var behind := r + (b + x);
    var name := schema + (q + ("file_blobs" + behind));
    var table := "file_blobs" + behind;
    assert table[0] == 'f' && table[..10] == "file_blobs" && table[10..] == behind;
    NameIsDropped(schema, q, table);
    AfterSpaces(a, name);
    SpaceIsNoQuote(b);
    assert (b + x)[0] == b[0];
    QuoteIsDropped(r, b + x);
    AfterSpaces(b, x);
    var text := "COPY" + (a + name);
    assert text[..4] == "COPY" && text[4..] == a + name;
  }

  lemma SpaceIsNoQuote(b: string)
    requires AreSpaces(b)
    ensures b != "" && b[0] != '"'
  {
  }

  lemma ListEnds(list: string, x: string)
    requires ')' !in list
    ensures var s := "(" + (list + (")" + x));
      IndexOf(s, ")") == 1 + |list| && s[1..1 + |list|] == list && s[2 + |list|..] == x && StartsWith(s, "(")
  {
    var s := "(" + (list + (")" + x));
    var at := 1 + |list|;
    assert s[at..at + 1] == ")" && OccursAt(s, ")", at);
    forall i | 0 <= i < at ensures !OccursAt(s, ")", i) {
      assert s[i..i + 1] == [s[i]];
      if i > 0 { assert s[i] == list[i - 1]; }
    }
    var e := IndexOf(s, ")");
    assert e >= 0 && !(e < at) && !(at < e);
  }

  lemma EndIsRead(rest: string)
    ensures ("FROM stdin;" + rest)[11..] == rest && StartsWith("FROM stdin;" + rest, "FROM stdin;")
    ensures ("FROM stdin;" + rest)[0] == 'F'
  {
  }

  lemma WrittenIsMatched(text: string, list: string, rest: string, a: string, schema: string, q: string, r: string, b: string, c: string)
    requires IsHeaderOf(text, list, rest, a, schema, q, r, b, c)
    ensures MatchHeader(text) == Some(Header(list, rest))
  {
    hide IsSpace, AfterTable, AfterSpace, EndsLine, IndexFrom, AreSpaces;
    Starts();
    var end := "FROM stdin;" + rest;
    var s := "(" + (list + (")" + (c + end)));
    TableIsRead(a, schema, q, r, b, s);
    ListEnds(list, c + end);
    EndIsRead(rest);
    AfterSpaces(c, end);
  }

  // ----- what is matched is written so ----------------------------------------------------------

  lemma SpaceTaken(s: string) returns (a: string)
    requires AfterSpace(s).Some?
    ensures AreSpaces(a) && s == a + AfterSpace(s).value
  {
    hide IsSpace, TrimStart;
    TrimStartParts(s);
    a := s[..|s| - |TrimStart(s)|];
    SpaceIsTrimmed(s);
  }

  lemma SpaceIsTrimmed(s: string)
    requires s != "" && IsSpace(s[0])
    ensures |TrimStart(s)| < |s|
  {
    hide IsSpace;
  }

  lemma Dropped(s: string, prefix: string) returns (p: string)
    ensures p in ["", prefix] && s == p + Drop(s, prefix)
  {
    p := if StartsWith(s, prefix) then prefix else "";
  }

  lemma TableWasRead(text: string) returns (a: string, schema: string, q: string, r: string, b: string)
    requires AfterTable(text).Some?
    ensures AreSpaces(a) && AreSpaces(b) && schema in ["", "public."] && q in ["", "\""] && r in ["", "\""]
    ensures text == "COPY" + (a + (schema + (q + ("file_blobs" + (r + (b + AfterTable(text).value))))))
  {
    hide AfterSpace, Drop;
    assert text == "COPY" + text[4..];
    a := SpaceTaken(text[4..]);
    var s := AfterSpace(text[4..]).value;
    schema := Dropped(s, "public.");
    var u := Drop(s, "public.");
    q := Dropped(u, "\"");
    var name := Drop(u, "\"");
    assert name == "file_blobs" + name[10..];
    r := Dropped(name[10..], "\"");
    b := SpaceTaken(Drop(name[10..], "\""));
  }

  /** The list stands between the brackets and holds no closing one. */
  lemma ListWasRead(s: string, end: nat)
    requires StartsWith(s, "(") && IndexOf(s, ")") == end && end > 0
    ensures end < |s| && s == "(" + (s[1..end] + (")" + s[end + 1..])) && ')' !in s[1..end]
  {
    hide IndexFrom;
    assert s[end..end + 1] == ")" && s[..1] == "(";
    forall i | 1 <= i < end ensures s[i] != ')' {
      assert !OccursAt(s, ")", i);
      assert s[i..i + 1] == [s[i]];
    }
  }

  lemma MatchedParts(text: string)
    requires MatchHeader(text).Some?
    ensures AfterTable(text).Some?
    ensures var (s, h) := (AfterTable(text).value, MatchHeader(text).value);
      var end := IndexOf(s, ")");
      && StartsWith(s, "(") && 0 < end < |s| && AfterSpace(s[end + 1..]).Some? && h.list == s[1..end]
      && AfterSpace(s[end + 1..]).value == "FROM stdin;" + h.rest && EndsLine(h.rest)
  {
    hide AfterTable, AfterSpace, EndsLine;
    var s := AfterTable(text).value;
    var from := AfterSpace(s[IndexOf(s, ")") + 1..]).value;
    assert from == "FROM stdin;" + from[11..];
  }

  lemma MatchedIsWritten(text: string)
    requires MatchHeader(text).Some?
    ensures IsHeaderText(text, MatchHeader(text).value.list, MatchHeader(text).value.rest)
  {
    hide AfterTable, AfterSpace, EndsLine, AreSpaces, MatchHeader, IndexFrom;
    MatchedParts(text);
    var a, schema, q, r, b := TableWasRead(text);
    var (s, h) := (AfterTable(text).value, MatchHeader(text).value);
    var end := IndexOf(s, ")");
    ListWasRead(s, end);
    var c := SpaceTaken(s[end + 1..]);
    assert IsHeaderOf(text, h.list, h.rest, a, schema, q, r, b, c);
  }

  /** The header is matched at the start of a text exactly when it is written there, with its list and what follows. */
  lemma MatchesExactlyWhen(text: string, list: string, rest: string)
    ensures MatchHeader(text) == Some(Header(list, rest)) <==> IsHeaderText(text, list, rest)
  {
    hide MatchHeader, IsHeaderOf;
    if MatchHeader(text) == Some(Header(list, rest)) { MatchedIsWritten(text); }
    if IsHeaderText(text, list, rest) {
      var a, schema, q, r, b, c :| IsHeaderOf(text, list, rest, a, schema, q, r, b, c);
      WrittenIsMatched(text, list, rest, a, schema, q, r, b, c);
    }
  }
}
