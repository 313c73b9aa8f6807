/** From docs to questions: the whole generator, and why the validator can only object to the size of the set
    or to its header. */
module QuestionSet {
  import opened Text
  import opened QuestionSchema
  import opened QuestionVerifier
  import opened PickFair
  import opened QuestionLog
  import opened QuestionWindows
  import opened QuestionIds
  import opened QuestionRun
  import opened QuestionGenerator
  import opened Wrappers

  /** The object written for an accepted question. */
  function ToJson(i: nat, x: Item): (q: Json)
  {
    Object(map["id" := Str(IdAt(i)), "question" := Str(x.question), "file" := Str(x.file), "kind" := Str(x.kind),
               "quotes" := Array(seq(|x.quotes|, k requires 0 <= k < |x.quotes| => Str(x.quotes[k])))])
  }

  function Questions(items: seq<Item>): (qs: seq<Json>)
  {
    seq(|items|, i requires 0 <= i < |items| => ToJson(i, items[i]))
  }

  /** The manifest knows every doc with its kind. */
  predicate Knows(kindOf: map<string, string>, docs: seq<Doc>)
  {
    forall d :: d in docs ==> d.file in kindOf && kindOf[d.file] == d.kind
  }

  lemma Fields(i: nat, x: Item)
    ensures var q := ToJson(i, x);
            && q.Object? && GetString(q, "id") == Some(IdAt(i)) && GetString(q, "question") == Some(x.question)
            && GetString(q, "file") == Some(x.file) && GetString(q, "kind") == Some(x.kind)
            && Get(q, "files").None? && Get(q, "quotes").Some? && Get(q, "quotes").value.Array?
            && |Get(q, "quotes").value.items| == |x.quotes|
            && (forall k :: 0 <= k < |x.quotes| ==> Get(q, "quotes").value.items[k] == Str(x.quotes[k]))
            && q.fields.Keys <= QuestionFields()
  {
  }

  lemma GoodFitsManifest(docs: seq<Doc>, kindOf: map<string, string>, x: Item)
    requires Knows(kindOf, docs) && Supplies(docs, x.kind, x.file)
    ensures x.file in kindOf
    ensures if x.kind == "multihop" then kindOf[x.file] in MultihopFileKinds() else kindOf[x.file] == x.kind
  {
    var d :| d in docs && d.file == x.file && CanSupply(d, x.kind);
  }

  lemma GoodQuotes(ops: Words, norm: map<string, string>, kind: string, file: string, question: string, quotes: seq<string>, k: nat)
    requires file in norm && IsGrounded(ops, norm, kind, file, question, quotes) && k < |quotes|
    ensures ops.normalise(quotes[k]) != "" && |quotes[k]| <= MAX_QUOTE_CHARS
    ensures |quotes| == if kind == "multihop" then 2 else 1
  {
    assert IsQuotable(ops, norm, kind, file, question, quotes[k]);
  }

  /** Whatever the verifier accepts is valid on its own. */
  lemma GoodIsValid(ops: Words, norm: map<string, string>, docs: seq<Doc>, kindOf: map<string, string>, i: nat, x: Item)
    requires IsGood(ops, norm, docs, x) && Knows(kindOf, docs)
    ensures IsValidQuestion(ops.normalise, kindOf, ToJson(i, x))
  {
    hide IsGrounded, Trim, IdAt, IsId, IsIdText, ToJson, Get, GetString, QuestionFields, MultihopFileKinds;
    assert x.kind in QuestionKinds() + OfficeKinds();
    Fields(i, x);
    IdsSayPositions(i);
    IdsAre(IdAt(i));
    GoodFitsManifest(docs, kindOf, x);
    assert |x.quotes| == QuoteTotal(x.kind) by { QuoteCountOf(ops, norm, x.kind, x.file, x.question, x.quotes); }
    forall k | 0 <= k < |x.quotes| ensures IsValidQuote(ops.normalise, Str(x.quotes[k])) {
      GoodQuotes(ops, norm, x.kind, x.file, x.question, x.quotes, k);
    }
  }

  lemma QuoteCountOf(ops: Words, norm: map<string, string>, kind: string, file: string, question: string, quotes: seq<string>)
    requires file in norm && IsGrounded(ops, norm, kind, file, question, quotes)
    ensures |quotes| == QuoteTotal(kind)
  {
  }

  lemma IdsDiffer(i: nat, j: nat)
    requires IdAt(i) == IdAt(j)
    ensures i == j
  {
    IdsSayPositions(i);
    IdsSayPositions(j);
  }

  /** Good questions with distinct texts make a valid list, whatever the manifest calls the other files. */
  lemma GoodSetIsValid(ops: Words, norm: map<string, string>, docs: seq<Doc>, kindOf: map<string, string>, items: seq<Item>)
    requires forall k :: 0 <= k < |items| ==> IsGood(ops, norm, docs, items[k])
    requires DistinctTexts(ops.normalise, items) && Knows(kindOf, docs)
    ensures AreValidQuestions(ops.normalise, kindOf, Questions(items))
  {
    hide IsGood, IsValidQuestion, IdAt, ToJson, GetString;
    var qs := Questions(items);
    forall i | 0 <= i < |qs| ensures IsValidQuestion(ops.normalise, kindOf, qs[i]) {
      GoodIsValid(ops, norm, docs, kindOf, i, items[i]);
    }
    forall i, j | 0 <= i < j < |qs|
      ensures IdOf(qs[i]) != IdOf(qs[j]) && ops.normalise(TextOf(qs[i])) != ops.normalise(TextOf(qs[j]))
    {
      Fields(i, items[i]);
      Fields(j, items[j]);
      if IdAt(i) == IdAt(j) { IdsDiffer(i, j); }
    }
  }

  lemma DifferentTexts(norm: Normalise, log: seq<Item>, x: Item, y: Item)
    requires DistinctTexts(norm, log) && x in log && y in log && x != y
    ensures norm(x.question) != norm(y.question)
  {
    var a :| 0 <= a < |log| && log[a] == x;
    var b :| 0 <= b < |log| && log[b] == y;
  }

  /** What has been picked from the kinds so far: accepted questions of those kinds, no text twice. */
  predicate IsSelection(norm: Normalise, log: seq<Item>, kinds: seq<string>, items: seq<Item>)
  {
    DistinctTexts(norm, items) && forall k :: 0 <= k < |items| ==> items[k] in log && items[k].kind in kinds
  }

  lemma SelectionGrows(norm: Normalise, log: seq<Item>, kinds: seq<string>, items: seq<Item>, kind: string, picked: seq<Item>)
    requires DistinctTexts(norm, log) && IsSelection(norm, log, kinds, items) && kind !in kinds
    requires multiset(picked) <= multiset(OfKind(log, kind))
    ensures IsSelection(norm, log, kinds + [kind], items + picked)
  {
    OfKindIsSelection(norm, log, kind);
    PickKeepsDistinct(norm, OfKind(log, kind), picked);
    hide OfKind;
    forall k | 0 <= k < |picked| ensures picked[k] in log && picked[k].kind == kind {
      assert picked[k] in OfKind(log, kind);
    }
    var all := items + picked;
    forall i, j | 0 <= i < j < |all| ensures norm(all[i].question) != norm(all[j].question) {
      if i < |items| <= j {
        assert all[i] == items[i] && all[j] == picked[j - |items|];
        DifferentTexts(norm, log, all[i], all[j]);
      } else if i >= |items| {
        assert all[i] == picked[i - |items|] && all[j] == picked[j - |items|];
      }
    }
  }

  function TextsOf(docs: seq<Doc>): (texts: map<string, string>)
    ensures forall d :: d in docs ==> d.file in texts
  {
    if docs == [] then map[]
    else
      var last := docs[|docs| - 1];
      assert docs == docs[..|docs| - 1] + [last];
      TextsOf(docs[..|docs| - 1])[last.file := last.text]
  }

  lemma PicksGrow(picks: seq<seq<Item>>, picked: seq<Item>)
    ensures Concat(picks + [picked]) == Concat(picks) + picked
  {
    assert (picks + [picked])[..|picks|] == picks;
  }

  /** A fair pick of the accepted questions of each of the first `n` kinds. */
  predicate ArePicks(log: seq<Item>, mix: map<string, nat>, picks: seq<seq<Item>>, n: nat)
    requires mix.Keys == Kinds() && n <= |QuestionKinds()|
  {
    |picks| == n && forall i :: 0 <= i < n ==> IsFairPick(OfKind(log, QuestionKinds()[i]), mix[QuestionKinds()[i]], picks[i])
  }

  /** The final pick: a fair one of every kind, in kind order. */
  method Select(mix: map<string, nat>, accepted: map<string, seq<Item>>, ghost norm: Normalise, ghost log: seq<Item>)
      returns (items: seq<Item>, selected: map<string, nat>, ghost picks: seq<seq<Item>>)
    requires mix.Keys == Kinds() && IsByKind(log, accepted) && DistinctTexts(norm, log)
    ensures ArePicks(log, mix, picks, |QuestionKinds()|) && items == Concat(picks)
    ensures IsSelection(norm, log, QuestionKinds(), items)
    ensures selected.Keys == Kinds() && forall i :: 0 <= i < |QuestionKinds()| ==> selected[QuestionKinds()[i]] == |picks[i]|
  {
    hide OfKind, IsFairPick, DistinctTexts, QuestionKinds, IsSelection, Concat;
    var kinds := QuestionKinds();
    items, selected, picks := [], map[], [];
    NothingSelected(norm, log);
    NoPicks();
    for i := 0 to |kinds|
      invariant ArePicks(log, mix, picks, i) && items == Concat(picks) && IsSelection(norm, log, kinds[..i], items)
      invariant selected.Keys == set k | k in kinds[..i]
      invariant forall j :: 0 <= j < i ==> kinds[j] in selected && selected[kinds[j]] == |picks[j]|
    {
      var kind := kinds[i];
      assert kind in Kinds() && kinds[..i + 1] == kinds[..i] + [kind];
      assert kind !in kinds[..i] by { KindsDiffer(i); }
      var picked := PickFair.PickFair(accepted[kind], mix[kind]);
      PickFacts(accepted[kind], mix[kind], picked);
      SelectionGrows(norm, log, kinds[..i], items, kind, picked);
      PicksGrow(picks, picked);
      items := items + picked;
      picks := picks + [picked];
      selected := selected[kind := |picked|];
    }
    assert kinds[..|kinds|] == kinds;
  }

  /** How many questions the counts add up to. */
  function SelectedTotal(selected: map<string, nat>): (n: nat)
    requires selected.Keys == Kinds()
  {
    selected["markdown"] + selected["pdf"] + selected["table"] + selected["scanned"] + selected["multihop"]
  }

  lemma PicksStep(picks: seq<seq<Item>>, i: nat)
    requires i < |picks|
    ensures |Concat(picks[..i + 1])| == |Concat(picks[..i])| + |picks[i]|
  {
    assert picks[..i + 1][..i] == picks[..i];
  }

  lemma FivePicks(picks: seq<seq<Item>>)
    requires |picks| == 5
    ensures |Concat(picks)| == |picks[0]| + |picks[1]| + |picks[2]| + |picks[3]| + |picks[4]|
  {
    hide Concat;
    NoPicks();
    PicksStep(picks, 0);
    PicksStep(picks, 1);
    PicksStep(picks, 2);
    PicksStep(picks, 3);
    PicksStep(picks, 4);
    assert picks[..5] == picks && picks[..0] == [];
  }

  lemma NoPicks()
    ensures Concat<Item>([]) == []
  {
  }

  /** The set has as many questions as the counts say, of each kind what was accepted up to what the mix asks for. */
  lemma CountsAddUp(log: seq<Item>, mix: map<string, nat>, picks: seq<seq<Item>>, selected: map<string, nat>)
    requires mix.Keys == Kinds() && ArePicks(log, mix, picks, |QuestionKinds()|) && selected.Keys == Kinds()
    requires forall i :: 0 <= i < |QuestionKinds()| ==> selected[QuestionKinds()[i]] == |picks[i]|
    ensures |Concat(picks)| == SelectedTotal(selected)
    ensures forall k :: k in Kinds() ==> selected[k] == Min(mix[k], |OfKind(log, k)|)
  {
    hide Concat, OfKind, IsFairPick;
    FivePicks(picks);
    var kinds := QuestionKinds();
    assert kinds[0] == "markdown" && kinds[1] == "pdf" && kinds[2] == "table" && kinds[3] == "scanned" && kinds[4] == "multihop";
    forall k | k in Kinds() ensures selected[k] == Min(mix[k], |OfKind(log, k)|) {
      var i :| 0 <= i < |kinds| && kinds[i] == k;
      PickFacts(OfKind(log, k), mix[k], picks[i]);
    }
  }

  lemma NothingSelected(norm: Normalise, log: seq<Item>)
    ensures IsSelection(norm, log, [], [])
  {
  }

  lemma KindsDiffer(i: nat)
    requires i < |QuestionKinds()|
    ensures QuestionKinds()[i] !in QuestionKinds()[..i]
  {
    var kinds := QuestionKinds();
    assert kinds[0][0] == 'm' && |kinds[0]| == 8 && |kinds[1]| == 3 && |kinds[2]| == 5 && |kinds[3]| == 7;
    assert |kinds[4]| == 8 && kinds[4][1] == 'u' && kinds[0][1] == 'a';
  }

  lemma PickFacts(items: seq<Item>, quota: nat, out: seq<Item>)
    requires IsFairPick(items, quota, out)
    ensures multiset(out) <= multiset(items) && |out| == Min(quota, |items|)
  {
  }

  /** The accepted questions of all kinds, as the counts report them. */
  function AcceptedTotal(accepted: map<string, seq<Item>>): (n: nat)
    requires accepted.Keys == Kinds()
  {
    |accepted["markdown"]| + |accepted["pdf"]| + |accepted["table"]| + |accepted["scanned"]| + |accepted["multihop"]|
  }

  lemma {:induction false} KindsPartition(log: seq<Item>)
    requires forall i :: 0 <= i < |log| ==> log[i].kind in QuestionKinds()
    ensures |OfKind(log, "markdown")| + |OfKind(log, "pdf")| + |OfKind(log, "table")| + |OfKind(log, "scanned")|
            + |OfKind(log, "multihop")| == |log|
  {
    if log != [] {
      KindsPartition(log[..|log| - 1]);
    }
  }

  lemma EveryKindCounted(ops: Words, norm: map<string, string>, docs: seq<Doc>, seen: seq<Seen>, log: seq<Item>,
                         accepted: map<string, seq<Item>>)
    requires IsLog(ops, norm, docs, seen, log) && IsByKind(log, accepted)
    ensures accepted.Keys == Kinds() && AcceptedTotal(accepted) == |log|
  {
    hide OfKind, IsGrounded, Supplies;
    KindsPartition(log);
  }

  datatype Stats = Stats(calls: nat, candidates: nat, accepted: nat, verifyRejected: int, stopped: Stopped)

  function SetupOf(ops: Words, docs: seq<Doc>, mix: map<string, nat>, llm: Model, promptEstimate: (Window, nat) -> nat,
                   maxCalls: int, maxTokens: int, overgenerate: real): (setup: Setup)
  {
    var norm := map f | f in TextsOf(docs) :: ops.normalise(TextsOf(docs)[f]);
    Setup(ops, norm, mix, llm, promptEstimate, maxCalls, maxTokens, overgenerate)
  }

  /** The run over these docs. */
  ghost function RunOver(setup: Setup, docs: seq<Doc>, rounds: nat): (o: Outcome)
    requires setup.mix.Keys == Kinds()
  {
    Rounds(setup, Begin(PlansOf(docs, setup.mix)), rounds)
  }

  /** A kind the mix wants has files, but only white space in them. */
  ghost predicate WantsBlankKind(docs: seq<Doc>, mix: map<string, nat>)
    requires mix.Keys == Kinds()
  {
    exists k :: k in Kinds() && mix[k] > 0 && HasOnlyBlanks(docs, k)
  }

  lemma PositiveRequest(setup: Setup, kind: string)
    requires kind in setup.mix && setup.overgenerate >= 0.0
    ensures Request(setup, kind, 0) > 0 <==> setup.mix[kind] > 0 && setup.overgenerate > 0.0
  {
    var x := setup.mix[kind] as real * setup.overgenerate;
    assert setup.mix[kind] > 0 && setup.overgenerate > 0.0 ==> x > 0.0;
    assert setup.overgenerate == 0.0 ==> x == 0.0;
  }

  lemma PlannedBlank(docs: seq<Doc>, kind: string)
    ensures PlanOf(docs, kind) == [] <==> HasOnlyBlanks(docs, kind)
  {
    hide PoolOf, HasOnlyBlanks;
    PoolIsEmpty(docs, kind);
    PoolHasText(docs, kind);
    SameSize(docs, kind);
  }

  lemma SameSize(docs: seq<Doc>, kind: string)
    ensures |PlanOf(docs, kind)| == |PoolOf(docs, kind)|
  {
    hide PoolOf, QuestionWindows.Texts;
  }

  lemma BlankKinds(setup: Setup, docs: seq<Doc>)
    requires setup.mix.Keys == Kinds() && setup.overgenerate >= 0.0
    ensures HasBlankFrom(setup, PlansOf(docs, setup.mix), 0) <==> setup.overgenerate > 0.0 && WantsBlankKind(docs, setup.mix)
  {
    hide PlanOf, Request, HasOnlyBlanks, QuestionKinds;
    var plan := PlansOf(docs, setup.mix);
    forall k | k in Kinds()
      ensures IsBlankKind(setup, plan, k) <==> setup.mix[k] > 0 && HasOnlyBlanks(docs, k) && setup.overgenerate > 0.0
    {
      PositiveRequest(setup, k);
      PlannedBlank(docs, k);
    }
    if WantsBlankKind(docs, setup.mix) && setup.overgenerate > 0.0 {
      var k :| k in Kinds() && setup.mix[k] > 0 && HasOnlyBlanks(docs, k);
      var j :| 0 <= j < |QuestionKinds()| && QuestionKinds()[j] == k;
    }
  }

  /** The run throws: its last call failed for good, or, with no budget spent, it came to a kind with only blank text. */
  ghost predicate Throws(setup: Setup, docs: seq<Doc>, rounds: nat, end: State)
    requires setup.mix.Keys == Kinds()
  {
    || EndsFatally(setup, end.asked)
    || (end.stopped == NotStopped && rounds > 0 && setup.overgenerate > 0.0 && WantsBlankKind(docs, setup.mix))
  }

  /** What every run over docs guarantees, whatever the model answers. */
  lemma RunOverEnds(setup: Setup, docs: seq<Doc>, rounds: nat)
    requires setup.mix.Keys == Kinds() && setup.overgenerate >= 0.0
    ensures var o := RunOver(setup, docs, rounds);
      && IsAccounted(setup, o.state) && WithinBudget(setup, o.state.asked)
      && (o.flow == Throw <==> Throws(setup, docs, rounds, o.state))
  {
    hide PlansOf, WantsBlankKind, HasBlankFrom, EndsFatally, WithinBudget, IsAccounted, Rounds;
    PlansArePlans(docs, setup.mix);
    BlankKinds(setup, docs);
    PlannedKinds(docs, setup.mix);
    EveryRunEnds(setup, PlansOf(docs, setup.mix), rounds);
  }

  lemma PlannedKinds(docs: seq<Doc>, mix: map<string, nat>)
    requires mix.Keys == Kinds()
    ensures PlansOf(docs, mix).Keys <= mix.Keys
  {
  }

  /** The questions in kind order with the per-kind counts and the statistics; `None` when the code throws. `end` is the
      state the run ended in. */
  method GenerateQuestionSet(ops: Words, docs: seq<Doc>, mix: map<string, nat>, llm: Model,
                             promptEstimate: (Window, nat) -> nat, maxCalls: int, maxTokens: int,
                             rounds: nat, overgenerate: real)
      returns (r: Option<seq<Json>>, selected: map<string, nat>, stats: Stats, ghost end: State, ghost picks: seq<seq<Item>>)
    requires mix.Keys == Kinds() && overgenerate >= 0.0
    // It throws exactly when a wanted kind has no source, or the run over the docs throws.
    ensures var setup := SetupOf(ops, docs, mix, llm, promptEstimate, maxCalls, maxTokens, overgenerate);
            && end == (if IsSupplied(docs, mix) then RunOver(setup, docs, rounds).state else Begin(map[]))
            && (r.None? <==> !IsSupplied(docs, mix) || Throws(setup, docs, rounds, end))
            // The tokens, the log and the candidates are those of the replies, within both budgets.
            && IsAccounted(setup, end) && WithinBudget(setup, end.asked)
    // The set is a fair pick of what was accepted of every kind, in kind order, and as long as the counts say.
    ensures r.Some? ==> ArePicks(end.log, mix, picks, |QuestionKinds()|) && r.value == Questions(Concat(picks))
    ensures r.Some? ==> selected.Keys == Kinds() && |r.value| == SelectedTotal(selected)
    ensures r.Some? ==> forall k :: k in Kinds() ==> selected[k] == Min(mix[k], |OfKind(end.log, k)|)
    // Every question is grounded in the text of a file that may supply its kind, and no two clash.
    ensures r.Some? ==>
              AreSound(ops, SetupOf(ops, docs, mix, llm, promptEstimate, maxCalls, maxTokens, overgenerate).norm, docs, Concat(picks))
    // It is valid question by question, for every model behaviour.
    ensures r.Some? ==> forall kindOf :: Knows(kindOf, docs) ==> AreValidQuestions(ops.normalise, kindOf, r.value)
    // Every candidate is accounted for.
    ensures stats.calls == |end.asked| && stats.candidates == end.candidates && stats.accepted == |end.log|
    ensures stats.candidates == stats.accepted + stats.verifyRejected && stats.stopped == end.stopped
  {
    hide IsLog, Kinds, IsByKind, ArePlans, ArePicks, RunOver, PlansOf, IsSupplied, Throws, IsAccounted, WithinBudget, IsSelection,
      AreValidQuestions, Knows, QuestionKinds, OfKind, Concat, Questions, DistinctTexts, TextsOf, AreSound;
    r, selected, end, picks := None, map[], Begin(map[]), [];
    stats := Stats(0, 0, 0, 0, NotStopped);
    ghost var setup := SetupOf(ops, docs, mix, llm, promptEstimate, maxCalls, maxTokens, overgenerate);
    NothingRun(setup);
    var plan := PlanWindows(docs, mix);
    if plan.None? {
      return;
    }
    var g, flow := StartRun(ops, docs, mix, llm, promptEstimate, maxCalls, maxTokens, rounds, overgenerate, plan.value);
    RunOverEnds(setup, docs, rounds);
    end := g.Now();
    EveryKindCounted(ops, g.setup.norm, docs, g.verifier.seen, g.log, g.accepted);
    stats := Stats(g.calls, g.candidates, AcceptedTotal(g.accepted),
                   |g.rejected| - g.rejected[CallFailed] - g.rejected[UnparseableResponse], g.stopped);
    if flow == Throw {
      return;
    }
    var items;
    LogHasDistinctTexts(ops, g.setup.norm, docs, g.verifier.seen, g.log);
    items, selected, picks := Select(mix, g.accepted, ops.normalise, g.log);
    CountsAddUp(g.log, mix, picks, selected);
    SelectionIsSound(ops, g.setup.norm, docs, g.verifier.seen, g.log, items);
    forall kindOf | Knows(kindOf, docs) ensures AreValidQuestions(ops.normalise, kindOf, Questions(items)) {
      SelectionIsValid(ops, g.setup.norm, docs, g.verifier.seen, g.log, kindOf, items);
    }
    r := Some(Questions(items));
    AsMany(items);
  }

  lemma AsMany(items: seq<Item>)
    ensures |Questions(items)| == |items|
  {
  }

  lemma NothingRun(setup: Setup)
    ensures IsAccounted(setup, Begin(map[])) && WithinBudget(setup, Begin(map[]).asked)
  {
  }

  /** The generator with its verifier, run. */
  method StartRun(ops: Words, docs: seq<Doc>, mix: map<string, nat>, llm: Model, promptEstimate: (Window, nat) -> nat,
                  maxCalls: int, maxTokens: int, rounds: nat, overgenerate: real, plan: map<string, seq<Window>>)
      returns (g: Generator, flow: Flow)
    requires mix.Keys == Kinds() && overgenerate >= 0.0 && plan == PlansOf(docs, mix)
    ensures g.Valid() && g.docs == docs && g.setup == SetupOf(ops, docs, mix, llm, promptEstimate, maxCalls, maxTokens, overgenerate)
    ensures Outcome(g.Now(), flow) == RunOver(g.setup, docs, rounds)
  {
    hide IsLog, Kinds, IsByKind, ArePlans, PlansOf, Rounds;
    var verifier := new Verifier(ops, TextsOf(docs));
    var setup := Setup(ops, verifier.norm, mix, llm, promptEstimate, maxCalls, maxTokens, overgenerate);
    assert setup.norm == map f | f in TextsOf(docs) :: ops.normalise(TextsOf(docs)[f]);
    PlansArePlans(docs, mix);
    PlannedKinds(docs, mix);
    g := new Generator(setup, docs, verifier, plan);
    flow := g.Run(rounds);
  }

  lemma SelectionIsSound(ops: Words, norm: map<string, string>, docs: seq<Doc>, seen: seq<Seen>, log: seq<Item>, items: seq<Item>)
    requires IsLog(ops, norm, docs, seen, log) && IsSelection(ops.normalise, log, QuestionKinds(), items)
    ensures AreSound(ops, norm, docs, items)
  {
    hide IsLog, AreSound, QuestionKinds;
    PickedAreSound(ops, norm, docs, seen, log, items);
  }

  lemma SelectionIsValid(ops: Words, norm: map<string, string>, docs: seq<Doc>, seen: seq<Seen>, log: seq<Item>,
                         kindOf: map<string, string>, items: seq<Item>)
    requires IsLog(ops, norm, docs, seen, log) && IsSelection(ops.normalise, log, QuestionKinds(), items) && Knows(kindOf, docs)
    ensures AreValidQuestions(ops.normalise, kindOf, Questions(items))
  {
    hide IsGood, Clashes, SeenOf, QuestionKinds;
    forall k | 0 <= k < |items| ensures IsGood(ops, norm, docs, items[k]) {
      var i :| 0 <= i < |log| && log[i] == items[k];
    }
    GoodSetIsValid(ops, norm, docs, kindOf, items);
  }

  /** The file that is written: the questions under the header of this run. */
  function Document(questions: seq<Json>, manifestSha256: string, model: string, date: string): (d: Json)
  {
    Object(map["version" := Number(1), "corpusManifestSha256" := Str(manifestSha256),
               "generatedWith" := Object(map["model" := Str(model), "date" := Str(date)]),
               "questions" := Array(questions)])
  }

  lemma DocumentParts(questions: seq<Json>, manifestSha256: string, model: string, date: string)
    requires model != "" && IsDate(date)
    ensures Get(Document(questions, manifestSha256, model, date), "questions") == Some(Array(questions))
    ensures IsValidHeader(Document(questions, manifestSha256, model, date), manifestSha256)
  {
    hide IsDate, IsDateText;
    DatesAre(date);
  }

  /** A run from docs to the validator's verdict: the set is rejected only for its size, which is what was accepted of
      every kind, up to what the mix asks for. */
  method GenerateAndValidate(ops: Words, docs: seq<Doc>, manifest: seq<Entry>, manifestSha256: string, mix: map<string, nat>,
                             llm: Model, promptEstimate: (Window, nat) -> nat, maxCalls: int, maxTokens: int,
                             rounds: nat, overgenerate: real, model: string, date: string)
      returns (questions: Option<seq<Json>>, selected: map<string, nat>, errors: seq<Error>, ghost end: State)
    requires mix.Keys == Kinds() && overgenerate >= 0.0 && model != "" && IsDate(date)
    requires Knows(KindOf(manifest), docs)
    ensures var setup := SetupOf(ops, docs, mix, llm, promptEstimate, maxCalls, maxTokens, overgenerate);
            && end == (if IsSupplied(docs, mix) then RunOver(setup, docs, rounds).state else Begin(map[]))
            && (questions.None? <==> !IsSupplied(docs, mix) || Throws(setup, docs, rounds, end))
    ensures questions.Some? ==> selected.Keys == Kinds() && |questions.value| == SelectedTotal(selected)
    ensures questions.Some? ==> forall k :: k in Kinds() ==> selected[k] == Min(mix[k], |OfKind(end.log, k)|)
    ensures questions.Some? ==> (errors == [] <==> MIN_QUESTIONS <= SelectedTotal(selected) <= MAX_QUESTIONS)
    ensures questions.Some? ==> !HasQuestionErrors(errors)
  {
    hide AreValidQuestions, IsValidHeader, Document, Get, KindOf, IsDate, ArePicks, RunOver, IsSupplied, Throws, Kinds, OfKind,
      IsAccounted, WithinBudget;
    var stats;
    ghost var picks;
    questions, selected, stats, end, picks :=
      GenerateQuestionSet(ops, docs, mix, llm, promptEstimate, maxCalls, maxTokens, rounds, overgenerate);
    errors := [];
    if questions.Some? {
      DocumentParts(questions.value, manifestSha256, model, date);
      var d := Document(questions.value, manifestSha256, model, date);
      errors := ValidateQuestionSet(ops.normalise, d, manifest, manifestSha256);
    }
  }
}
