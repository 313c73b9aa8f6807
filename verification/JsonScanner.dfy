/** The scanner that cuts the first JSON object out of a text, against the grammar of RFC 8259. */
module JsonScanner {
  import opened Wrappers

  // ----- JSON texts (RFC 8259, sections 2 to 7) -------------------------------------------------

  /** A character of a string as it is written: itself, a two-character escape, or a \u escape. */
  datatype StrChar = Plain(c: char) | Escape(e: char) | Unicode(hex: string)

  /** A JSON text with its white space: every text of the grammar is one of these. */
  datatype Value =
    | Literal(text: string)
    | String(chars: seq<StrChar>)
    | Array(ws: string, items: Items)
    | Object(ows: string, members: Members)

  datatype Items = NoItems | Item(before: string, item: Value, after: string, rest: Items)

  datatype Members =
    | NoMembers
    | Member(ws1: string, key: seq<StrChar>, ws2: string, ws3: string, value: Value, ws4: string, others: Members)

  predicate IsWs(s: string) { forall i :: 0 <= i < |s| ==> s[i] in " \t\n\r" }


  predicate IsStrChar(x: StrChar)
  {
    match x
    case Plain(c) => c != '"' && c != '\\' && c >= ' '
    case Escape(e) => e in "\"\\/bfnrt"
    case Unicode(hex) => |hex| == 4 && forall i :: 0 <= i < 4 ==> IsHex(hex[i])
  }

  /** A literal name, or a number (any run of the characters numbers are made of). */
  predicate IsLiteral(text: string)
  {
    text in ["true", "false", "null"] || (text != "" && forall i :: 0 <= i < |text| ==> text[i] in "-+.0123456789eE")
  }

  predicate IsString(chars: seq<StrChar>) { forall i :: 0 <= i < |chars| ==> IsStrChar(chars[i]) }

  predicate IsValue(v: Value)
  {
    match v
    case Literal(text) => IsLiteral(text)
    case String(chars) => IsString(chars)
    case Array(ws, items) => IsWs(ws) && AreItems(items)
    case Object(ws, members) => IsWs(ws) && AreMembers(members)
  }

  predicate AreItems(items: Items)
  {
    match items
    case NoItems => true
    case Item(before, item, after, rest) => IsWs(before) && IsValue(item) && IsWs(after) && AreItems(rest)
  }

  predicate AreMembers(members: Members)
  {
    match members
    case NoMembers => true
    case Member(ws1, key, ws2, ws3, value, ws4, others) =>
      IsWs(ws1) && IsString(key) && IsWs(ws2) && IsWs(ws3) && IsValue(value) && IsWs(ws4) && AreMembers(others)
  }

  function PrintChar(x: StrChar): (s: string)
  {
    match x
    case Plain(c) => [c]
    case Escape(e) => ['\\', e]
    case Unicode(hex) => "\\u" + hex
  }

  function PrintChars(chars: seq<StrChar>): (s: string)
  {
    if chars == [] then "" else PrintChar(chars[0]) + PrintChars(chars[1..])
  }

  function PrintString(chars: seq<StrChar>): (s: string) { "\"" + PrintChars(chars) + "\"" }

  function Print(v: Value): (s: string)
  {
    match v
    case Literal(text) => text
    case String(chars) => PrintString(chars)
    case Array(ws, items) => "[" + (if items.NoItems? then ws else PrintItems(items)) + "]"
    case Object(ws, members) => "{" + (if members.NoMembers? then ws else PrintMembers(members)) + "}"
  }

  function PrintItems(items: Items): (s: string)
  {
    match items
    case NoItems => ""
    case Item(before, item, after, rest) =>
      before + Print(item) + after + (if rest.NoItems? then "" else "," + PrintItems(rest))
  }

  function PrintMembers(members: Members): (s: string)
  {
    match members
    case NoMembers => ""
    case Member(ws1, key, ws2, ws3, value, ws4, others) =>
      ws1 + PrintString(key) + ws2 + ":" + ws3 + Print(value) + ws4
      + (if others.NoMembers? then "" else "," + PrintMembers(others))
  }

  // ----- the scanner's state --------------------------------------------------------------------

  datatype State = State(depth: int, inString: bool, escape: bool)

  /** A character of the text at depth one or more; a `}` that brings the depth to zero is not one of these. */
  function Step(s: State, c: char): (t: State)
  {
    if s.inString then
      if s.escape then s.(escape := false)
      else if c == '\\' then s.(escape := true)
      else if c == '"' then s.(inString := false)
      else s
    else if c == '"' then s.(inString := true)
    else if c == '{' then s.(depth := s.depth + 1)
    else if c == '}' then s.(depth := s.depth - 1)
    else s
  }

  /** The scanner returns at this character. */
  predicate Closes(s: State, c: char) { !s.inString && c == '}' && s.depth == 1 }

  /** The state after `text`, unless the scanner returns inside it. */
  function Run(s: State, text: string): (t: Option<State>)
    decreases |text|
  {
    if text == "" then Some(s)
    else if Closes(s, text[0]) then None
    else Run(Step(s, text[0]), text[1..])
  }

  lemma {:induction false} RunConcat(s: State, a: string, b: string)
    ensures Run(s, a + b) == match Run(s, a) case None => None case Some(t) => Run(t, b)
    decreases |a|
  {
    if a == "" {
      assert a + b == b;
    } else {
      assert (a + b)[1..] == a[1..] + b;
      if !Closes(s, a[0]) { RunConcat(Step(s, a[0]), a[1..], b); }
    }
  }

  function Outside(depth: int): (s: State) { State(depth, false, false) }
  function Inside(depth: int): (s: State) { State(depth, true, false) }

  /** `text` passes through the scanner and leaves it where it was. */
  predicate IsNeutral(depth: int, text: string) { Run(Outside(depth), text) == Some(Outside(depth)) }

  lemma NeutralConcat(depth: int, a: string, b: string)
    requires IsNeutral(depth, a) && IsNeutral(depth, b)
    ensures IsNeutral(depth, a + b)
  {
    RunConcat(Outside(depth), a, b);
  }

  lemma {:induction false} PlainTextIsNeutral(depth: int, text: string)
    requires forall i :: 0 <= i < |text| ==> text[i] !in "\"{}"
    ensures IsNeutral(depth, text)
    decreases |text|
  {
    if text != "" {
      assert text[0] !in "\"{}";
      PlainTextIsNeutral(depth, text[1..]);
    }
  }

  lemma {:induction false} PlainTextInString(depth: int, text: string)
    requires forall i :: 0 <= i < |text| ==> text[i] != '"' && text[i] != '\\'
    ensures Run(Inside(depth), text) == Some(Inside(depth))
    decreases |text|
  {
    if text != "" { PlainTextInString(depth, text[1..]); }
  }

  lemma CharStaysInString(depth: int, x: StrChar)
    requires IsStrChar(x)
    ensures Run(Inside(depth), PrintChar(x)) == Some(Inside(depth))
  {
    match x
    case Plain(c) => PlainTextInString(depth, [c]);
    case Escape(e) =>
      assert Run(State(depth, true, true), [e]) == Run(Inside(depth), "");
      assert PrintChar(x)[1..] == [e];
    case Unicode(hex) =>
      PlainTextInString(depth, hex);
      assert PrintChar(x) == ['\\', 'u'] + hex && ['\\', 'u'][1..] == ['u'];
      assert Run(State(depth, true, true), ['u']) == Run(Inside(depth), "");
      RunConcat(Inside(depth), ['\\', 'u'], hex);
  }

  lemma {:induction false} CharsStayInString(depth: int, chars: seq<StrChar>)
    requires IsString(chars)
    ensures Run(Inside(depth), PrintChars(chars)) == Some(Inside(depth))
  {
    if chars != [] {
      CharStaysInString(depth, chars[0]);
      CharsStayInString(depth, chars[1..]);
      RunConcat(Inside(depth), PrintChar(chars[0]), PrintChars(chars[1..]));
    }
  }

  lemma StringIsNeutral(depth: int, chars: seq<StrChar>)
    requires IsString(chars)
    ensures IsNeutral(depth, PrintString(chars))
  {
    CharsStayInString(depth, chars);
    RunConcat(Outside(depth), "\"", PrintChars(chars));
    RunConcat(Outside(depth), "\"" + PrintChars(chars), "\"");
    assert Run(Outside(depth), "\"") == Run(Inside(depth), "");
    assert Run(Inside(depth), "\"") == Run(Outside(depth), "");
  }

  /** Every value of the grammar is neutral at depth one or more: by induction on the grammar. */
  lemma {:induction false} ValueIsNeutral(depth: int, v: Value)
    requires IsValue(v) && depth >= 1
    ensures IsNeutral(depth, Print(v))
    decreases v
  {
    match v
    case Literal(text) => PlainTextIsNeutral(depth, text);
    case String(chars) => StringIsNeutral(depth, chars);
    case Array(ws, items) =>
      var body := if items.NoItems? then ws else PrintItems(items);
      if items.NoItems? { PlainTextIsNeutral(depth, ws); } else { ItemsAreNeutral(depth, items); }
      PlainTextIsNeutral(depth, "[");
      PlainTextIsNeutral(depth, "]");
      NeutralConcat(depth, "[", body);
      NeutralConcat(depth, "[" + body, "]");
    case Object(ws, members) =>
      BodyIsNeutral(depth + 1, v);
      Braces(depth, v);
  }

  function Body(v: Value): (s: string)
    requires v.Object?
  {
    if v.members.NoMembers? then v.ows else PrintMembers(v.members)
  }

  lemma BodyIsNeutral(depth: int, v: Value)
    requires v.Object? && IsValue(v) && depth >= 1
    ensures IsNeutral(depth, Body(v))
    decreases v, 0
  {
    if v.members.NoMembers? { PlainTextIsNeutral(depth, v.ows); } else { MembersAreNeutral(depth, v.members); }
  }

  lemma Braces(depth: int, v: Value)
    requires v.Object? && depth >= 1 && IsNeutral(depth + 1, Body(v))
    ensures IsNeutral(depth, Print(v))
  {
    assert Run(Outside(depth), "{") == Run(Outside(depth + 1), "");
    assert Run(Outside(depth + 1), "}") == Run(Outside(depth), "");
    RunConcat(Outside(depth), "{", Body(v));
    RunConcat(Outside(depth), "{" + Body(v), "}");
  }

  lemma {:induction false} ItemsAreNeutral(depth: int, items: Items)
    requires AreItems(items) && depth >= 1
    ensures IsNeutral(depth, PrintItems(items))
    decreases items
  {
    if items.Item? {
      PlainTextIsNeutral(depth, items.before);
      ValueIsNeutral(depth, items.item);
      PlainTextIsNeutral(depth, items.after);
      NeutralConcat(depth, items.before, Print(items.item));
      NeutralConcat(depth, items.before + Print(items.item), items.after);
      var tail := if items.rest.NoItems? then "" else "," + PrintItems(items.rest);
      if items.rest.Item? {
        ItemsAreNeutral(depth, items.rest);
        PlainTextIsNeutral(depth, ",");
        NeutralConcat(depth, ",", PrintItems(items.rest));
      }
      NeutralConcat(depth, items.before + Print(items.item) + items.after, tail);
    }
  }

  lemma {:induction false} MembersAreNeutral(depth: int, members: Members)
    requires AreMembers(members) && depth >= 1
    ensures IsNeutral(depth, PrintMembers(members))
    decreases members
  {
    if members.Member? {
      var m := members;
      PlainTextIsNeutral(depth, m.ws1);
      StringIsNeutral(depth, m.key);
      PlainTextIsNeutral(depth, m.ws2);
      PlainTextIsNeutral(depth, ":");
      PlainTextIsNeutral(depth, m.ws3);
      ValueIsNeutral(depth, m.value);
      PlainTextIsNeutral(depth, m.ws4);
      NeutralConcat(depth, m.ws1, PrintString(m.key));
      NeutralConcat(depth, m.ws1 + PrintString(m.key), m.ws2);
      NeutralConcat(depth, m.ws1 + PrintString(m.key) + m.ws2, ":");
      NeutralConcat(depth, m.ws1 + PrintString(m.key) + m.ws2 + ":", m.ws3);
      NeutralConcat(depth, m.ws1 + PrintString(m.key) + m.ws2 + ":" + m.ws3, Print(m.value));
      NeutralConcat(depth, m.ws1 + PrintString(m.key) + m.ws2 + ":" + m.ws3 + Print(m.value), m.ws4);
      var tail := if m.others.NoMembers? then "" else "," + PrintMembers(m.others);
      if m.others.Member? {
        MembersAreNeutral(depth, m.others);
        PlainTextIsNeutral(depth, ",");
        NeutralConcat(depth, ",", PrintMembers(m.others));
      }
      NeutralConcat(depth, m.ws1 + PrintString(m.key) + m.ws2 + ":" + m.ws3 + Print(m.value) + m.ws4, tail);
    }
  }

  // ----- the code -------------------------------------------------------------------------------

  datatype Extraction = Found(text: string) | NoObject | Unbalanced

  /** What the scanner returns for a text that starts with its first `{`. */
  ghost predicate IsExtraction(text: string, r: Extraction)
  {
    match r
    case NoObject => false
    case Unbalanced => Run(Outside(0), text).Some?
    case Found(found) =>
      found != "" && found <= text &&
      var last := |found| - 1;
      Run(Outside(0), found[..last]).Some? && Closes(Run(Outside(0), found[..last]).value, found[last])
  }

  method ExtractFirstJsonObject(text: string) returns (r: Extraction)
    ensures r.NoObject? <==> '{' !in text
    ensures forall start :: 0 <= start < |text| && text[start] == '{' && '{' !in text[..start] ==> IsExtraction(text[start..], r)
    // Any object text of the grammar, after text without a brace and before anything, is returned exactly.
    ensures forall before, v, after :: text == before + Print(v) + after && '{' !in before && v.Object? && IsValue(v) ==>
              r == Found(Print(v))
  {
    hide Run, Step, Closes, Print, IsValue;
    var start := 0;
    while start < |text| && text[start] != '{'
      invariant start <= |text| && '{' !in text[..start]
    {
      start := start + 1;
    }
    if start == |text| {
      assert text[..start] == text;
      r := NoObject;
    } else {
      r := Scan(text, start);
    }
    forall before, v, after | text == before + Print(v) + after && '{' !in before && v.Object? && IsValue(v)
      ensures r == Found(Print(v))
    {
      PrintStarts(v);
      assert text[|before|] == '{' && text[..|before|] == before;
      assert start == |before|;
      assert text[start..] == Print(v) + after;
      OnlyTheObject(v, after, r);
    }
  }

  lemma PrintStarts(v: Value)
    requires v.Object?
    ensures Print(v) != "" && Print(v)[0] == '{'
  {
  }

  /** The loop from the first brace on. */
  method Scan(text: string, start: nat) returns (r: Extraction)
    requires start < |text| && text[start] == '{'
    ensures IsExtraction(text[start..], r)
  {
    var depth, inString, escape := 0, false, false;
    ghost var tail := text[start..];
    for i := start to |text|
      invariant Run(Outside(0), tail[..i - start]) == Some(State(depth, inString, escape))
      invariant i > start || depth == 0
    {
      var c := text[i];
      ghost var before := State(depth, inString, escape);
      RunNext(tail, i - start, before);
      if inString {
        if escape {
          escape := false;
        } else if c == '\\' {
          escape := true;
        } else if c == '"' {
          inString := false;
        }
      } else {
        if c == '"' {
          inString := true;
        } else if c == '{' {
          depth := depth + 1;
        } else if c == '}' {
          depth := depth - 1;
          if depth == 0 {
            assert text[start..i + 1] == tail[..i - start + 1];
            assert tail[..i - start + 1][..i - start] == tail[..i - start];
            return Found(text[start..i + 1]);
          }
        }
      }
    }
    assert tail[..|text| - start] == tail;
    r := Unbalanced;
  }

  lemma RunNext(s: string, k: nat, before: State)
    requires k < |s| && Run(Outside(0), s[..k]) == Some(before)
    ensures !Closes(before, s[k]) ==> Run(Outside(0), s[..k + 1]) == Some(Step(before, s[k]))
  {
    RunConcat(Outside(0), s[..k], [s[k]]);
    assert s[..k + 1] == s[..k] + [s[k]];
    if !Closes(before, s[k]) {
      assert Run(before, [s[k]]) == Run(Step(before, s[k]), "");
    }
  }

  lemma {:induction false} RunOfPrefix(s: State, a: string, b: string)
    requires a <= b && Run(s, b).Some?
    ensures Run(s, a).Some?
  {
    RunConcat(s, a, b[|a|..]);
    assert a + b[|a|..] == b;
  }

  lemma OpenObject(v: Value)
    requires v.Object? && IsValue(v)
    ensures Print(v) == "{" + Body(v) + "}" && Run(Outside(0), "{" + Body(v)) == Some(Outside(1))
  {
    BodyIsNeutral(1, v);
    assert Run(Outside(0), "{") == Run(Outside(1), "");
    RunConcat(Outside(0), "{", Body(v));
  }

  /** The scanner returns at the first closing place, and nowhere else. */
  lemma OnlyPlaceToClose(text: string, open: string, rest: string, r: Extraction)
    requires text == open + "}" + rest && Run(Outside(0), open) == Some(Outside(1)) && IsExtraction(text, r)
    ensures r == Found(open + "}")
  {
    RunConcat(Outside(0), open, "}" + rest);
    assert open + ("}" + rest) == text;
    RunConcat(Outside(0), open, "}");
    hide Run, Step;
    assert Run(Outside(1), "}" + rest).None? && Run(Outside(1), "}").None? by { ClosesAtOnce(rest); }
    var last := |r.text| - 1;
    if last < |open| {
      assert r.text <= open;
      ShorterIsOpen(open, r.text);
    } else if last > |open| {
      assert open + "}" <= r.text[..last];
      RunOfPrefix(Outside(0), open + "}", r.text[..last]);
    } else {
      assert r.text == text[..|open| + 1] == open + "}";
    }
  }

  lemma ClosesAtOnce(rest: string)
    ensures Run(Outside(1), "}" + rest).None? && Run(Outside(1), "}").None?
  {
  }

  /** An object text followed by anything has one extraction: the object text. */
  lemma OnlyTheObject(v: Value, after: string, r: Extraction)
    requires v.Object? && IsValue(v) && IsExtraction(Print(v) + after, r)
    ensures r == Found(Print(v))
  {
    OpenObject(v);
    hide Run, Print, IsValue;
    OnlyPlaceToClose(Print(v) + after, "{" + Body(v), after, r);
  }

  /** Nothing inside the open part of the object closes it. */
  lemma ShorterIsOpen(open: string, found: string)
    requires Run(Outside(0), open).Some? && found != "" && found <= open
    requires Run(Outside(0), found[..|found| - 1]).Some?
    ensures !Closes(Run(Outside(0), found[..|found| - 1]).value, found[|found| - 1])
  {
    var last := |found| - 1;
    RunOfPrefix(Outside(0), found, open);
    RunConcat(Outside(0), found[..last], [found[last]]);
    assert found[..last] + [found[last]] == found;
  }
}
