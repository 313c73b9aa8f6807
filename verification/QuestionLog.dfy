/** The accepted questions of a run, in order of acceptance, and why what is picked from them passes the
    per-question checks of the validator. */
module QuestionLog {
  import opened Text
  import opened QuestionSchema
  import opened QuestionVerifier
  import opened PickFair

  /** A corpus file with the text its questions are checked against. */
  datatype Doc = Doc(file: string, kind: string, text: string)

  function MultihopSourceKinds(): (kinds: seq<string>) { ["markdown", "pdf"] }

  predicate CanSupply(d: Doc, kind: string)
  {
    if kind == "multihop" then d.kind in MultihopSourceKinds() else d.kind == kind
  }

  ghost predicate Supplies(docs: seq<Doc>, kind: string, file: string)
  {
    exists d :: d in docs && d.file == file && CanSupply(d, kind)
  }

  /** An accepted question is grounded in a text of a file that may supply its kind. */
  ghost predicate IsGood(ops: Words, norm: map<string, string>, docs: seq<Doc>, x: Item)
  {
    && x.kind in QuestionKinds() && x.file in norm && Supplies(docs, x.kind, x.file)
    && Trim(x.question) != "" && IsGrounded(ops, norm, x.kind, x.file, x.question, x.quotes)
  }

  /** The verifier's memory and the accepted questions go together, and no two of them clash. */
  ghost predicate IsLog(ops: Words, norm: map<string, string>, docs: seq<Doc>, seen: seq<Seen>, log: seq<Item>)
  {
    && |seen| == |log|
    && (forall i :: 0 <= i < |log| ==> IsGood(ops, norm, docs, log[i]))
    && (forall i :: 0 <= i < |log| ==> seen[i] == SeenOf(ops, log[i].file, log[i].question, log[i].quotes))
    && (forall i, j :: 0 <= i < j < |log| ==> !Clashes(seen[i], seen[j]))
  }

  lemma CollapseStarts(s: string)
    ensures s != "" && !IsSpace(s[0]) ==> Collapse(s) != "" && Collapse(s)[0] == s[0]
  {
  }

  /** A cleaned question of ten characters is not blank. */
  lemma CleanIsNotBlank(question: string)
    requires |CleanQuestion(question)| >= 10
    ensures Trim(CleanQuestion(question)) != ""
  {
    TrimParts(question);
    CollapseStarts(Trim(question));
    TrimBlank(CleanQuestion(question));
  }

  /** A cleaned question is the words of the question with one space between them. */
  lemma CleanIsWords(before: string, words: seq<string>, gaps: seq<string>, after: string)
    requires IsBlank(before) && IsBlank(after) && |words| == |gaps| + 1 && AreWords(words) && AreGaps(gaps)
    ensures CleanQuestion(before + Spread(words, gaps) + after) == Spread(words, Singles(|gaps|))
  {
    hide Trim, Collapse, IsBlank, IsTrimmed;
    SpreadIsTrimmed(words, gaps);
    TrimAround(before, Spread(words, gaps), after);
    CollapseWords(words, gaps);
  }

  lemma LogGrows(ops: Words, norm: map<string, string>, docs: seq<Doc>, seen: seq<Seen>, log: seq<Item>, x: Item)
    requires IsLog(ops, norm, docs, seen, log) && IsGood(ops, norm, docs, x)
    requires IsNew(seen, SeenOf(ops, x.file, x.question, x.quotes))
    ensures IsLog(ops, norm, docs, seen + [SeenOf(ops, x.file, x.question, x.quotes)], log + [x])
  {
    hide IsGood, Clashes, SeenOf;
  }

  /** The accepted questions of one kind, in order. */
  function OfKind(log: seq<Item>, kind: string): (r: seq<Item>)
  {
    if log == [] then []
    else
      var last := log[|log| - 1];
      OfKind(log[..|log| - 1], kind) + if last.kind == kind then [last] else []
  }

  lemma OfKindGrows(log: seq<Item>, x: Item, kind: string)
    ensures OfKind(log + [x], kind) == OfKind(log, kind) + if x.kind == kind then [x] else []
  {
    assert (log + [x])[..|log|] == log;
  }

  // ----- no text twice --------------------------------------------------------------------------

  predicate DistinctTexts(norm: Normalise, items: seq<Item>)
  {
    forall i, j :: 0 <= i < j < |items| ==> norm(items[i].question) != norm(items[j].question)
  }

  /** Questions with the same normalised text have the same words, so the later one was rejected. */
  lemma SameTextClashes(ops: Words, a: Item, b: Item)
    requires ops.normalise(a.question) == ops.normalise(b.question)
    ensures Clashes(SeenOf(ops, a.file, a.question, a.quotes), SeenOf(ops, b.file, b.question, b.quotes))
  {
    var t := QuestionTokens(ops, a.question);
    assert t * t == t;
  }

  lemma LogHasDistinctTexts(ops: Words, norm: map<string, string>, docs: seq<Doc>, seen: seq<Seen>, log: seq<Item>)
    requires IsLog(ops, norm, docs, seen, log)
    ensures DistinctTexts(ops.normalise, log)
  {
    forall i, j | 0 <= i < j < |log| ensures ops.normalise(log[i].question) != ops.normalise(log[j].question) {
      assert !Clashes(seen[i], seen[j]);
      if ops.normalise(log[i].question) == ops.normalise(log[j].question) {
        SameTextClashes(ops, log[i], log[j]);
      }
    }
  }

  /** Every question of a set is grounded, and no two of them clash. */
  ghost predicate AreSound(ops: Words, norm: map<string, string>, docs: seq<Doc>, items: seq<Item>)
  {
    && (forall k :: 0 <= k < |items| ==> IsGood(ops, norm, docs, items[k]))
    && forall i, j :: 0 <= i < j < |items| ==>
         !Clashes(SeenOf(ops, items[i].file, items[i].question, items[i].quotes),
                  SeenOf(ops, items[j].file, items[j].question, items[j].quotes))
  }

  lemma ClashesBothWays(a: Seen, b: Seen)
    ensures Clashes(a, b) <==> Clashes(b, a)
  {
    assert a.tokens * b.tokens == b.tokens * a.tokens && a.tokens + b.tokens == b.tokens + a.tokens;
  }

  /** What is picked from the log, no text twice, is sound. */
  lemma PickedAreSound(ops: Words, norm: map<string, string>, docs: seq<Doc>, seen: seq<Seen>, log: seq<Item>, items: seq<Item>)
    requires IsLog(ops, norm, docs, seen, log)
    requires DistinctTexts(ops.normalise, items) && forall k :: 0 <= k < |items| ==> items[k] in log
    ensures AreSound(ops, norm, docs, items)
  {
    hide IsGood, Clashes, SeenOf;
    forall i, j | 0 <= i < j < |items|
      ensures !Clashes(SeenOf(ops, items[i].file, items[i].question, items[i].quotes),
                       SeenOf(ops, items[j].file, items[j].question, items[j].quotes))
    {
      var a :| 0 <= a < |log| && log[a] == items[i];
      var b :| 0 <= b < |log| && log[b] == items[j];
      ClashesBothWays(seen[a], seen[b]);
      assert a != b;
    }
  }

  lemma {:induction false} OfKindIsSelection(norm: Normalise, log: seq<Item>, kind: string)
    requires DistinctTexts(norm, log)
    ensures forall k :: 0 <= k < |OfKind(log, kind)| ==> OfKind(log, kind)[k] in log && OfKind(log, kind)[k].kind == kind
    ensures DistinctTexts(norm, OfKind(log, kind))
  {
    if log != [] {
      var before := log[..|log| - 1];
      OfKindIsSelection(norm, before, kind);
      assert log == before + [log[|log| - 1]];
    }
  }

  /** Taking each at most as often as it is there keeps the texts distinct. */
  lemma PickKeepsDistinct(norm: Normalise, items: seq<Item>, picked: seq<Item>)
    requires DistinctTexts(norm, items) && multiset(picked) <= multiset(items)
    ensures DistinctTexts(norm, picked)
    ensures forall k :: 0 <= k < |picked| ==> picked[k] in items
  {
    forall k | 0 <= k < |picked| ensures picked[k] in items {
      assert picked[k] in multiset(picked);
    }
    forall i, j | 0 <= i < j < |picked| ensures norm(picked[i].question) != norm(picked[j].question) {
      OnceEach(norm, items, picked[i]);
      assert picked == picked[..i] + [picked[i]] + picked[i + 1..j] + [picked[j]] + picked[j + 1..];
      assert picked[i] != picked[j];
      var a :| 0 <= a < |items| && items[a] == picked[i];
      var b :| 0 <= b < |items| && items[b] == picked[j];
    }
  }

  lemma {:induction false} OnceEach(norm: Normalise, items: seq<Item>, x: Item)
    requires DistinctTexts(norm, items)
    ensures multiset(items)[x] <= 1
  {
    if items != [] {
      var before, last := items[..|items| - 1], items[|items| - 1];
      OnceEach(norm, before, x);
      assert items == before + [last];
      if last == x {
        assert forall i :: 0 <= i < |before| ==> before[i] != x;
        assert x !in before;
      }
    }
  }
}
