/** The validator of the evaluation questions: the contract between the generator and the runner. */
module QuestionSchema {
  import opened Text
  import opened Wrappers

  /** A parsed JSON value (numbers are whole here). */
  datatype Json =
    | Null
    | Bool(b: bool)
    | Number(n: int)
    | Str(s: string)
    | Array(items: seq<Json>)
    | Object(fields: map<string, Json>)

  function QuestionKinds(): (kinds: seq<string>) { ["markdown", "pdf", "table", "scanned", "multihop"] }
  function OfficeKinds(): (kinds: seq<string>) { ["pptx", "xlsx"] }
  function MultihopFileKinds(): (kinds: seq<string>) { ["markdown", "pdf", "table"] }
  const MAX_QUOTE_CHARS := 300
  const MIN_QUESTIONS := 100
  const MAX_QUESTIONS := 200

  type Normalise = string -> string

  datatype Error =
    | NotAnObject | UnknownTopLevelFields | WrongVersion | WrongManifest | NoModel | NoDate | QuestionsNotAnArray
    | QuestionCount
    | Question(at: nat, fault: Fault)

  datatype Fault =
    | QuestionNotAnObject | UnknownFields | BadId | DuplicateId | EmptyQuestion | DuplicateQuestion | UnknownKind
    | NotInManifest | MultihopOnWrongKind | KindMismatch | NoQuotes | MultihopQuoteCount | EmptyQuote | QuoteTooLong
    | BadFiles

  datatype Entry = Entry(file: string, kind: string)

  /** `new Map(manifest.map(...))`: the last entry of a file counts. */
  function KindOf(manifest: seq<Entry>): (m: map<string, string>)
  {
    if manifest == [] then map[]
    else KindOf(manifest[..|manifest| - 1])[manifest[|manifest| - 1].file := manifest[|manifest| - 1].kind]
  }

  /** A property read: `undefined` when the value has none of that name. */
  function Get(j: Json, name: string): (v: Option<Json>)
  {
    if j.Object? && name in j.fields then Some(j.fields[name]) else None
  }

  function GetString(j: Json, name: string): (s: Option<string>)
  {
    match Get(j, name)
    case Some(Str(s)) => Some(s)
    case _ => None
  }

  /** `typeof v === 'object'` for a value that is not null. */
  predicate IsObjectLike(j: Json) { j.Object? || j.Array? }

  /** Whether `Object.keys` has a name outside `allowed`; an array's keys are its indices. */
  predicate HasOtherKeys(j: Json, allowed: set<string>)
  {
    (j.Object? && !(j.fields.Keys <= allowed)) || (j.Array? && |j.items| > 0)
  }

  function TopFields(): (names: set<string>) { {"version", "corpusManifestSha256", "generatedWith", "questions"} }
  function QuestionFields(): (names: set<string>) { {"id", "question", "file", "kind", "quotes", "files"} }

  /** `/^q\d{3,}$/`. */
  predicate IsId(s: string) { |s| >= 4 && s[0] == 'q' && AreDigits(s[1..]) }

  /** `/^\d{4}-\d{2}-\d{2}$/`. */
  predicate IsDate(s: string)
  {
    |s| == 10 && s[4] == '-' && s[7] == '-' && AreDigits(s[..4]) && AreDigits(s[5..7]) && AreDigits(s[8..])
  }

  // ----- what a valid set is --------------------------------------------------------------------

  /** A `q` and three digits or more. */
  ghost predicate IsIdText(s: string) { exists digits :: s == "q" + digits && |digits| >= 3 && AreDigits(digits) }

  /** Year, month and day, in digits. */
  ghost predicate IsDateText(s: string)
  {
    exists year, month, day ::
      && |year| == 4 && |month| == 2 && |day| == 2 && AreDigits(year) && AreDigits(month) && AreDigits(day)
      && s == year + ("-" + (month + ("-" + day)))
  }

  /** No files named, or for a multihop question two different ones with text, its own file first. */
  ghost predicate HasValidFiles(q: Json, kindOf: map<string, string>)
  {
    Get(q, "files").None? ||
    exists first, second ::
      && Get(q, "files") == Some(Array([Str(first), Str(second)])) && first != second
      && GetString(q, "kind") == Some("multihop") && GetString(q, "file") == Some(first)
      && first in kindOf && kindOf[first] in ["markdown", "pdf", "table"]
      && second in kindOf && kindOf[second] in ["markdown", "pdf", "table"]
  }

  predicate IsValidQuote(norm: Normalise, quote: Json)
  {
    quote.Str? && norm(quote.s) != "" && |quote.s| <= MAX_QUOTE_CHARS
  }

  predicate FileFitsKind(q: Json, kindOf: map<string, string>)
  {
    && GetString(q, "file").Some? && GetString(q, "file").value in kindOf
    && var kind := kindOf[GetString(q, "file").value];
       if GetString(q, "kind") == Some("multihop") then kind in MultihopFileKinds()
       else GetString(q, "kind") == Some(kind)
  }

  /** A question that is valid on its own. */
  ghost predicate IsValidQuestion(norm: Normalise, kindOf: map<string, string>, q: Json)
  {
    && q.Object? && q.fields.Keys <= QuestionFields()
    && GetString(q, "id").Some? && IsIdText(GetString(q, "id").value)
    && GetString(q, "question").Some? && Trim(GetString(q, "question").value) != ""
    && GetString(q, "kind").Some? && GetString(q, "kind").value in QuestionKinds() + OfficeKinds()
    && FileFitsKind(q, kindOf)
    && Get(q, "quotes").Some? && Get(q, "quotes").value.Array?
    && var quotes := Get(q, "quotes").value.items;
    && quotes != [] && (GetString(q, "kind") == Some("multihop") ==> |quotes| == 2)
    && (forall i :: 0 <= i < |quotes| ==> IsValidQuote(norm, quotes[i]))
    && HasValidFiles(q, kindOf)
  }

  function IdOf(q: Json): (id: string) { if GetString(q, "id").Some? then GetString(q, "id").value else "" }
  function TextOf(q: Json): (text: string) { if GetString(q, "question").Some? then GetString(q, "question").value else "" }

  /** Every question is valid, and no two share an id or a normalised text. */
  ghost predicate AreValidQuestions(norm: Normalise, kindOf: map<string, string>, questions: seq<Json>)
  {
    && (forall i :: 0 <= i < |questions| ==> IsValidQuestion(norm, kindOf, questions[i]))
    && (forall i, j :: 0 <= i < j < |questions| ==>
          IdOf(questions[i]) != IdOf(questions[j]) && norm(TextOf(questions[i])) != norm(TextOf(questions[j])))
  }

  ghost predicate IsValidHeader(document: Json, manifestSha256: string)
  {
    && document.Object? && document.fields.Keys <= TopFields()
    && Get(document, "version") == Some(Number(1))
    && GetString(document, "corpusManifestSha256") == Some(manifestSha256)
    && Get(document, "generatedWith").Some?
    && var g := Get(document, "generatedWith").value;
    && GetString(g, "model").Some? && GetString(g, "model").value != ""
    && GetString(g, "date").Some? && IsDateText(GetString(g, "date").value)
  }

  // ----- the code -------------------------------------------------------------------------------

  predicate FilesAreValid(q: Json, kindOf: map<string, string>)
  {
    Get(q, "files").None? ||
    var files := Get(q, "files").value;
    && GetString(q, "kind") == Some("multihop") && files.Array? && |files.items| == 2
    && Get(q, "file") == Some(files.items[0]) && files.items[0] != files.items[1]
    && forall i :: 0 <= i < 2 ==>
         files.items[i].Str? && files.items[i].s in kindOf && kindOf[files.items[i].s] in MultihopFileKinds()
  }

  lemma FilesAre(q: Json, kindOf: map<string, string>)
    ensures FilesAreValid(q, kindOf) <==> HasValidFiles(q, kindOf)
  {
    if Get(q, "files").Some? && FilesAreValid(q, kindOf) {
      var items := Get(q, "files").value.items;
      assert items == [Str(items[0].s), Str(items[1].s)];
    }
  }

  lemma IdsAre(s: string)
    ensures IsId(s) <==> IsIdText(s)
  {
    if IsId(s) { assert s == "q" + s[1..]; }
    if IsIdText(s) {
      var digits :| s == "q" + digits && |digits| >= 3 && AreDigits(digits);
      assert s[1..] == digits;
    }
  }

  lemma DatesAre(s: string)
    ensures IsDate(s) <==> IsDateText(s)
  {
    if IsDate(s) { assert s == s[..4] + ("-" + (s[5..7] + ("-" + s[8..]))); }
    if IsDateText(s) {
      var year, month, day :| |year| == 4 && |month| == 2 && |day| == 2 && AreDigits(year) && AreDigits(month) && AreDigits(day)
        && s == year + ("-" + (month + ("-" + day)));
      assert s[..4] == year && s[5..7] == month && s[8..] == day && s[4] == '-' && s[7] == '-';
    }
  }

  function When(wrong: bool, f: Fault): (faults: seq<Fault>) { if wrong then [f] else [] }

  function HeaderErrors(document: Json, manifestSha256: string): (errors: seq<Error>)
    ensures forall i :: 0 <= i < |errors| ==> !errors[i].Question?
  {
    var g := if Get(document, "generatedWith").Some? then Get(document, "generatedWith").value else Null;
    var model, date := GetString(g, "model"), GetString(g, "date");
    (if HasOtherKeys(document, TopFields()) then [UnknownTopLevelFields] else [])
    + (if Get(document, "version") != Some(Number(1)) then [WrongVersion] else [])
    + (if Get(document, "corpusManifestSha256") != Some(Str(manifestSha256)) then [WrongManifest] else [])
    + (if model.None? || model.value == "" then [NoModel] else [])
    + (if date.None? || !IsDate(date.value) then [NoDate] else [])
  }

  function KindAndFileFaults(kindOf: map<string, string>, q: Json): (faults: seq<Fault>)
  {
    var kind, file := GetString(q, "kind"), GetString(q, "file");
    When(kind.None? || kind.value !in QuestionKinds() + OfficeKinds(), UnknownKind)
    + (if file.None? || file.value !in kindOf then [NotInManifest]
       else if kind == Some("multihop") && kindOf[file.value] !in MultihopFileKinds() then [MultihopOnWrongKind]
       else if kind != Some("multihop") && kind != Some(kindOf[file.value]) then [KindMismatch]
       else [])
  }

  function QuoteFaults(norm: Normalise, quotes: seq<Json>): (faults: seq<Fault>)
    ensures faults == [] <==> forall i :: 0 <= i < |quotes| ==> IsValidQuote(norm, quotes[i])
  {
    if quotes == [] then []
    else
      var last := quotes[|quotes| - 1];
      QuoteFaults(norm, quotes[..|quotes| - 1])
      + (if !last.Str? || norm(last.s) == "" then [EmptyQuote]
         else if |last.s| > MAX_QUOTE_CHARS then [QuoteTooLong] else [])
  }

  /** From the kind on; without quotes the rest is not looked at. */
  function RestFaults(norm: Normalise, kindOf: map<string, string>, q: Json): (faults: seq<Fault>)
  {
    var quotes := Get(q, "quotes");
    KindAndFileFaults(kindOf, q)
    + (if quotes.None? || !quotes.value.Array? || quotes.value.items == [] then [NoQuotes]
       else
         When(GetString(q, "kind") == Some("multihop") && |quotes.value.items| != 2, MultihopQuoteCount)
         + QuoteFaults(norm, quotes.value.items)
         + When(!FilesAreValid(q, kindOf), BadFiles))
  }

  /** What one question pushes to the errors, given the ids and the texts seen before it. */
  function QuestionFaults(norm: Normalise, kindOf: map<string, string>, q: Json, ids: set<string>, texts: set<string>):
      (faults: seq<Fault>)
  {
    var id, text := GetString(q, "id"), GetString(q, "question");
    if !IsObjectLike(q) then [QuestionNotAnObject]
    else
      When(HasOtherKeys(q, QuestionFields()), UnknownFields)
      + (if id.None? || !IsId(id.value) then [BadId] else When(id.value in ids, DuplicateId))
      + (if text.None? || Trim(text.value) == "" then [EmptyQuestion] else When(norm(text.value) in texts, DuplicateQuestion))
      + RestFaults(norm, kindOf, q)
  }

  lemma FaultlessExactlyWhen(norm: Normalise, kindOf: map<string, string>, q: Json, ids: set<string>, texts: set<string>)
    ensures QuestionFaults(norm, kindOf, q, ids, texts) == [] <==>
            && IsValidQuestion(norm, kindOf, q)
            && IdOf(q) !in ids && norm(TextOf(q)) !in texts
  {
    hide IsId, IsIdText, Trim, HasValidFiles, FilesAreValid;
    FilesAre(q, kindOf);
    if GetString(q, "id").Some? { IdsAre(GetString(q, "id").value); }
  }

  /** The sets the loop keeps while everything is valid. */
  function Ids(questions: seq<Json>): (ids: set<string>)
  {
    set i | 0 <= i < |questions| :: IdOf(questions[i])
  }

  function Texts(norm: Normalise, questions: seq<Json>): (texts: set<string>)
  {
    set i | 0 <= i < |questions| :: norm(TextOf(questions[i]))
  }

  lemma GrowingSets(norm: Normalise, before: seq<Json>, q: Json)
    ensures Ids(before + [q]) == Ids(before) + {IdOf(q)}
    ensures Texts(norm, before + [q]) == Texts(norm, before) + {norm(TextOf(q))}
  {
    hide IdOf, TextOf;
    var more := before + [q];
    forall x | x in Ids(before) + {IdOf(q)} ensures x in Ids(more) {
      if x == IdOf(q) {
        assert more[|before|] == q;
      } else {
        var i :| 0 <= i < |before| && x == IdOf(before[i]);
        assert more[i] == before[i];
      }
    }
    forall x | x in Texts(norm, before) + {norm(TextOf(q))} ensures x in Texts(norm, more) {
      if x == norm(TextOf(q)) {
        assert more[|before|] == q;
      } else {
        var i :| 0 <= i < |before| && x == norm(TextOf(before[i]));
        assert more[i] == before[i];
      }
    }
  }

  lemma NextQuestion(norm: Normalise, kindOf: map<string, string>, before: seq<Json>, q: Json)
    ensures AreValidQuestions(norm, kindOf, before + [q]) <==>
            AreValidQuestions(norm, kindOf, before) && QuestionFaults(norm, kindOf, q, Ids(before), Texts(norm, before)) == []
  {
    FaultlessExactlyWhen(norm, kindOf, q, Ids(before), Texts(norm, before));
    hide QuestionFaults, IsValidQuestion, IdOf, TextOf;
    var more := before + [q];
    assert more[|before|] == q;
    assert forall i :: 0 <= i < |before| ==> more[i] == before[i];
    if AreValidQuestions(norm, kindOf, more) {
      assert IsValidQuestion(norm, kindOf, more[|before|]);
      forall i | 0 <= i < |before|
        ensures IdOf(before[i]) != IdOf(q) && norm(TextOf(before[i])) != norm(TextOf(q))
      {
        assert IdOf(more[i]) != IdOf(more[|before|]);
      }
    }
  }

  lemma ValidHasTexts(norm: Normalise, kindOf: map<string, string>, q: Json)
    ensures IsValidQuestion(norm, kindOf, q) ==>
            GetString(q, "id").Some? && GetString(q, "question").Some? && Trim(GetString(q, "question").value) != ""
  {
  }

  predicate HasQuestionErrors(errors: seq<Error>) { exists i :: 0 <= i < |errors| && errors[i].Question? }

  lemma HeaderErrorsExactlyWhen(document: Json, manifestSha256: string)
    ensures IsObjectLike(document) && Get(document, "questions").Some? ==>
              (HeaderErrors(document, manifestSha256) == [] <==> IsValidHeader(document, manifestSha256))
    ensures !IsObjectLike(document) || Get(document, "questions").None? ==> !document.Object? || "questions" !in document.fields
  {
    hide IsDate, IsDateText;
    if Get(document, "generatedWith").Some? {
      var date := GetString(Get(document, "generatedWith").value, "date");
      if date.Some? { DatesAre(date.value); }
    }
  }

  /** The loop over the questions: nothing is pushed exactly when all of them are valid and distinct. */
  method QuestionErrors(norm: Normalise, kindOf: map<string, string>, questions: seq<Json>) returns (errors: seq<Error>)
    ensures forall k :: 0 <= k < |errors| ==> errors[k].Question?
    ensures errors == [] <==> AreValidQuestions(norm, kindOf, questions)
  {
    hide IsValidQuestion, QuestionFaults, AreValidQuestions, Ids, Texts;
    errors := [];
    var ids: set<string>, texts: set<string> := {}, {};
    NoQuestions(norm, kindOf);
    for i := 0 to |questions|
      invariant forall k :: 0 <= k < |errors| ==> errors[k].Question?
      invariant errors == [] <==> AreValidQuestions(norm, kindOf, questions[..i])
      invariant errors == [] ==> ids == Ids(questions[..i]) && texts == Texts(norm, questions[..i])
    {
      var q := questions[i];
      var faults := QuestionFaults(norm, kindOf, q, ids, texts);
      NextQuestion(norm, kindOf, questions[..i], q);
      GrowingSets(norm, questions[..i], q);
      FaultlessExactlyWhen(norm, kindOf, q, ids, texts);
      ValidHasTexts(norm, kindOf, q);
      if GetString(q, "id").Some? {
        ids := ids + {GetString(q, "id").value};
      }
      if GetString(q, "question").Some? && Trim(GetString(q, "question").value) != "" {
        texts := texts + {norm(GetString(q, "question").value)};
      }
      assert questions[..i + 1] == questions[..i] + [q];
      errors := errors + seq(|faults|, k requires 0 <= k < |faults| => Question(i, faults[k]));
    }
    assert questions[..|questions|] == questions;
  }

  lemma NoQuestions(norm: Normalise, kindOf: map<string, string>)
    ensures AreValidQuestions(norm, kindOf, []) && Ids([]) == {} && Texts(norm, []) == {}
  {
  }

  method ValidateQuestionSet(norm: Normalise, document: Json, manifest: seq<Entry>, manifestSha256: string)
      returns (errors: seq<Error>)
    ensures errors == [] <==>
            && IsValidHeader(document, manifestSha256)
            && Get(document, "questions").Some? && Get(document, "questions").value.Array?
            && MIN_QUESTIONS <= |Get(document, "questions").value.items| <= MAX_QUESTIONS
            && AreValidQuestions(norm, KindOf(manifest), Get(document, "questions").value.items)
    ensures Get(document, "questions").Some? && Get(document, "questions").value.Array? ==>
            (!HasQuestionErrors(errors) <==> AreValidQuestions(norm, KindOf(manifest), Get(document, "questions").value.items))
  {
    hide HeaderErrors, IsValidHeader, AreValidQuestions;
    HeaderErrorsExactlyWhen(document, manifestSha256);
    if !IsObjectLike(document) {
      return [NotAnObject];
    }
    errors := HeaderErrors(document, manifestSha256);
    if !(Get(document, "questions").Some? && Get(document, "questions").value.Array?) {
      return errors + [QuestionsNotAnArray];
    }
    var questions := Get(document, "questions").value.items;
    if |questions| < MIN_QUESTIONS || |questions| > MAX_QUESTIONS {
      errors := errors + [QuestionCount];
    }
    var more := QuestionErrors(norm, KindOf(manifest), questions);
    ghost var header := errors;
    errors := errors + more;
    if more != [] {
      assert errors[|header|] == more[0];
    }
  }
}
