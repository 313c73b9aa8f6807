/** The generator loop: rounds over kinds and windows, within a budget of calls and tokens, over a model that
    may answer anything or fail. Its methods compute the run defined in `QuestionRun`. */
module QuestionGenerator {
  import opened Text
  import opened QuestionSchema
  import opened QuestionVerifier
  import opened PickFair
  import opened QuestionLog
  import opened QuestionWindows
  import opened QuestionRun
  import opened Wrappers
  import Apportionment

  /** The accepted questions, kept by kind. */
  ghost predicate IsByKind(log: seq<Item>, accepted: map<string, seq<Item>>)
  {
    accepted.Keys == Kinds() && forall k :: k in Kinds() ==> accepted[k] == OfKind(log, k)
  }

  ghost predicate ArePlans(docs: seq<Doc>, plan: map<string, seq<Window>>)
  {
    plan.Keys <= Kinds() && forall k :: k in plan ==> IsPlan(docs, k, plan[k])
  }

  lemma ByKindGrows(log: seq<Item>, accepted: map<string, seq<Item>>, x: Item)
    requires IsByKind(log, accepted) && x.kind in Kinds()
    ensures IsByKind(log + [x], accepted[x.kind := accepted[x.kind] + [x]])
  {
    hide Kinds, OfKind;
    forall k | k in Kinds() ensures OfKind(log + [x], k) == if x.kind == k then OfKind(log, k) + [x] else OfKind(log, k) {
      OfKindGrows(log, x, k);
    }
  }

  lemma PlanKept(docs: seq<Doc>, plan: map<string, seq<Window>>, kind: string, at: nat, w: Window)
    requires ArePlans(docs, plan) && kind in plan && at < |plan[kind]|
    requires w.kind == plan[kind][at].kind && w.share == plan[kind][at].share && w.file == plan[kind][at].file
    ensures ArePlans(docs, plan[kind := plan[kind][at := w]])
  {
    hide Kinds, Supplies;
  }

  /** Every kind the mix asks for has a source. */
  ghost predicate IsSupplied(docs: seq<Doc>, mix: map<string, nat>)
    requires mix.Keys == Kinds()
  {
    forall k :: k in Kinds() && mix[k] > 0 ==> HasSource(docs, k)
  }

  /** The plan of every kind the mix asks for. */
  ghost function PlansOf(docs: seq<Doc>, mix: map<string, nat>): (plan: map<string, seq<Window>>)
    requires mix.Keys == Kinds()
  {
    map k | k in Kinds() && mix[k] > 0 :: PlanOf(docs, k)
  }

  lemma PlansArePlans(docs: seq<Doc>, mix: map<string, nat>)
    requires mix.Keys == Kinds()
    ensures ArePlans(docs, PlansOf(docs, mix)) && IsPlanned(PlansOf(docs, mix))
  {
    hide Kinds, PlanOf;
    forall k | k in Kinds() ensures IsPlan(docs, k, PlanOf(docs, k)) {
      PlanIsPlan(docs, k);
    }
  }

  /** The plan of every kind the mix asks for; `None` when a kind has no source (the code throws). */
  method PlanWindows(docs: seq<Doc>, mix: map<string, nat>) returns (r: Option<map<string, seq<Window>>>)
    requires mix.Keys == Kinds()
    ensures r == if IsSupplied(docs, mix) then Some(PlansOf(docs, mix)) else None
  {
    hide PlanOf, HasSource, IsPlan, QuestionKinds;
    var kinds := QuestionKinds();
    var plan: map<string, seq<Window>> := map[];
    for i := 0 to |kinds|
      invariant plan == map k | k in kinds[..i] && mix[k] > 0 :: PlanOf(docs, k)
      invariant forall k :: k in kinds[..i] && mix[k] > 0 ==> HasSource(docs, k)
    {
      var kind := kinds[i];
      assert kind in Kinds() && kinds[..i + 1] == kinds[..i] + [kind];
      if mix[kind] > 0 {
        var windows := PlanKind(docs, kind);
        if windows.None? {
          return None;
        }
        plan := plan[kind := windows.value];
      }
    }
    assert kinds[..|kinds|] == kinds;
    assert plan == PlansOf(docs, mix);
    r := Some(plan);
  }

  /** A request split over the windows of its kind. */
  method SplitRequest(n: nat, ghost docs: seq<Doc>, ghost kind: string, windows: seq<Window>) returns (counts: seq<int>)
    requires IsPlan(docs, kind, windows) && windows != []
    ensures counts == CountsOf(n, Weights(windows))
    ensures |counts| == |windows| && forall i :: 0 <= i < |counts| ==> counts[i] >= 0
  {
    hide CountsOf, Weights, IsPlan, Apportionment.IsApportionment, Apportionment.AreWeights;
    WeightsAreWeights(docs, kind, windows);
    counts := Apportionment.Allocate(n, Weights(windows));
    Apportionment.ApportionmentIsUnique(n, Weights(windows), counts, CountsOf(n, Weights(windows)));
    CountsAreNatural(n, Weights(windows), counts);
  }

  class Generator {
    const setup: Setup
    const docs: seq<Doc>
    const verifier: Verifier

    var plan: map<string, seq<Window>>
    var accepted: map<string, seq<Item>>
    var calls: nat
    var promptTokens: int
    var completionTokens: int
    var estimatedTokens: int
    var candidates: nat
    var rejected: multiset<Reason>
    var stopped: Stopped

    /** The accepted questions in order, and the calls made. */
    ghost var log: seq<Item>
    ghost var asked: seq<Asked>

    /** Where the run is. */
    ghost function Now(): (st: State)
      reads this
    {
      State(plan, log, asked, promptTokens + completionTokens, candidates, stopped)
    }

    /** Every candidate was either accepted or rejected by the verifier. */
    ghost predicate CandidatesAddUp()
      reads this`candidates, this`log, this`rejected
    {
      candidates == |log| + |rejected| - rejected[CallFailed] - rejected[UnparseableResponse]
    }

    ghost predicate Valid()
      reads this, verifier
    {
      && verifier.ops == setup.ops && verifier.norm == setup.norm && setup.mix.Keys == Kinds() && setup.overgenerate >= 0.0
      && (forall d :: d in docs ==> d.file in setup.norm)
      && IsLog(setup.ops, setup.norm, docs, verifier.seen, log)
      && IsByKind(log, accepted) && ArePlans(docs, plan)
      && calls == |asked| && CandidatesAddUp()
    }

    constructor (setup: Setup, docs: seq<Doc>, verifier: Verifier, plan: map<string, seq<Window>>)
      requires ArePlans(docs, plan)
      requires verifier.ops == setup.ops && verifier.norm == setup.norm && verifier.seen == []
      requires setup.mix.Keys == Kinds() && setup.overgenerate >= 0.0
      requires forall d :: d in docs ==> d.file in setup.norm
      ensures Valid() && Now() == Begin(plan)
      ensures this.setup == setup && this.docs == docs && this.verifier == verifier
    {
      this.setup, this.docs, this.verifier, this.plan := setup, docs, verifier, plan;
      accepted := map k | k in Kinds() :: [];
      calls, promptTokens, completionTokens, estimatedTokens, candidates := 0, 0, 0, 0, 0;
      rejected, stopped, log, asked := multiset{}, NotStopped, [], [];
    }

    method Charge(prompt: int, completion: int, estimated: bool)
      modifies this`promptTokens, this`completionTokens, this`estimatedTokens
      ensures promptTokens == old(promptTokens) + prompt && completionTokens == old(completionTokens) + completion
      ensures estimatedTokens == old(estimatedTokens) + if estimated then prompt + completion else 0
    {
      promptTokens, completionTokens := promptTokens + prompt, completionTokens + completion;
      if estimated { estimatedTokens := estimatedTokens + prompt + completion; }
    }

    /** Asks the verifier about one candidate of a window: it accepts exactly what is acceptable after the log. */
    method Judge(c: Json, kind: string, file: string) returns (v: Verdict)
      requires verifier.ops == setup.ops && verifier.norm == setup.norm
      requires kind in QuestionKinds() && file in verifier.norm && Supplies(docs, kind, file)
      requires IsLog(setup.ops, setup.norm, docs, verifier.seen, log)
      modifies verifier
      ensures v.Accepted? <==> IsAcceptable(setup, log, c, kind, file)
      ensures v.Rejected? ==>
                && v.reason != CallFailed && v.reason != UnparseableResponse
                && IsLog(setup.ops, setup.norm, docs, verifier.seen, log)
      ensures v.Accepted? ==>
                && ItemOf(c, kind, file) == Item(kind, file, v.question, v.quotes)
                && IsLog(setup.ops, setup.norm, docs, verifier.seen, log + [ItemOf(c, kind, file)])
    {
      hide IsGrounded, SeenOf, IsNew, Strings, Trimmed, CleanQuestion, IsGood;
      assert verifier.seen == Memory(setup.ops, log);
      v := verifier.Verify(c, kind, file);
      if v.Accepted? {
        assert |v.question| >= 10 by { GroundedIsLong(setup.ops, setup.norm, kind, file, v.question, v.quotes); }
        CleanIsNotBlank(GetString(c, "question").value);
        var x := ItemOf(c, kind, file);
        assert IsGood(setup.ops, setup.norm, docs, x) by { GoodItem(setup, docs, x); }
        hide IsLog;
        LogGrows(setup.ops, setup.norm, docs, old(verifier.seen), log, x);
      }
    }

    /** Keeps an accepted question. */
    method Keep(x: Item)
      requires IsByKind(log, accepted) && x.kind in Kinds()
      modifies this`log, this`accepted
      ensures log == old(log) + [x] && IsByKind(log, accepted)
    {
      hide IsByKind, Kinds;
      assert x.kind in accepted by { KindsAreKept(log, accepted); }
      ByKindGrows(log, accepted, x);
      log := log + [x];
      accepted := accepted[x.kind := accepted[x.kind] + [x]];
    }

    /** Keeps or rejects one candidate of window `w`, and gives the window back with what it remembers. */
    method Decide(c: Json, w: Window) returns (after: Window)
      requires Valid() && w.kind in Kinds() && w.kind in QuestionKinds() && Supplies(docs, w.kind, w.file) && w.file in verifier.norm
      modifies this`candidates, this`rejected, this`log, this`accepted, verifier
      ensures Valid() && log == LogWith(setup, old(log), c, w.kind, w.file) && candidates == old(candidates) + 1
      ensures after == WindowWith(setup, old(log), w, c)
    {
      hide IsLog, Supplies, IsByKind, ArePlans, Trim, IsAcceptable, WindowWith, Kinds, QuestionKinds;
      after := w;
      candidates := candidates + 1;
      if GetString(c, "question").Some? {
        after := w.(asked := w.asked + [Trim(GetString(c, "question").value)]);
      }
      var v := Judge(c, w.kind, w.file);
      NextWindow(setup, log, w, c, v.Accepted?);
      if v.Rejected? {
        rejected := rejected + multiset{v.reason};
      } else {
        Keep(Item(w.kind, w.file, v.question, v.quotes));
        after := after.(accepted := after.accepted + 1);
      }
    }

    /** One candidate of window `at`. */
    method Take(c: Json, kind: string, at: nat)
      requires Valid() && kind in plan && at < |plan[kind]|
      modifies this, verifier
      ensures Valid() && Now() == Taken(setup, old(Now()), c, kind, at)
      ensures estimatedTokens == old(estimatedTokens)
    {
      hide IsLog, Supplies, IsByKind, ArePlans, LogWith, SameShape, WindowWith, Kinds, QuestionKinds;
      PlannedFile(kind, at);
      WindowStays(setup, log, plan[kind][at], c);
      var w := Decide(c, plan[kind][at]);
      PlanKept(docs, plan, kind, at, w);
      plan := plan[kind := plan[kind][at := w]];
    }

    /** The candidates of one answer. */
    method TakeAll(cs: seq<Json>, kind: string, at: nat)
      requires Valid() && kind in plan && at < |plan[kind]|
      modifies this, verifier
      ensures Valid() && Now() == TakenAll(setup, old(Now()), cs, kind, at)
      ensures estimatedTokens == old(estimatedTokens)
    {
      hide IsLog, IsByKind, ArePlans, Taken, SameShape;
      NoneTaken(Now(), kind, at);
      for i := 0 to |cs|
        invariant Valid() && Now() == TakenAll(setup, old(Now()), cs[..i], kind, at)
        invariant estimatedTokens == old(estimatedTokens)
      {
        SameWindow(old(plan), plan, kind, at);
        assert cs[..i + 1][..i] == cs[..i];
        Take(cs[i], kind, at);
      }
      assert cs[..|cs|] == cs;
    }

    /** One call about window `at`, unless a budget is spent. */
    method Ask(kind: string, at: nat, count: nat) returns (flow: Flow)
      requires Valid() && kind in plan && at < |plan[kind]|
      modifies this, verifier
      ensures Valid() && Outcome(Now(), flow) == AskOne(setup, old(Now()), kind, at, count)
      ensures old(calls) >= setup.maxCalls || old(promptTokens + completionTokens) >= setup.maxTokens ==> flow == Stop && calls == old(calls)
    {
      hide IsLog, IsByKind, ArePlans, TakenAll, CostOf, SameShape;
      if calls >= setup.maxCalls {
        stopped := MaxCalls;
        return Stop;
      }
      if promptTokens + completionTokens >= setup.maxTokens {
        stopped := MaxTokens;
        return Stop;
      }
      var reply := setup.llm(calls);
      var w := plan[kind][at];
      asked := asked + [Asked(w, count)];
      calls := calls + 1;
      var found;
      flow, found := Settle(reply, setup.promptEstimate(w, count));
      assert Now() == Called(setup, old(Now()), kind, at, count).(stopped := stopped);
      NoneTaken(Now(), kind, at);
      if found.Some? {
        TakeAll(found.value, kind, at);
      }
    }

    method ChargeAttempts(estimate: nat, attempts: nat)
      modifies this`promptTokens, this`completionTokens, this`estimatedTokens
      ensures promptTokens == old(promptTokens) + Prompts(estimate, attempts) && completionTokens == old(completionTokens)
      ensures estimatedTokens == old(estimatedTokens) + Prompts(estimate, attempts)
    {
      Charge(estimate * attempts, 0, true);
    }

    /** Notes a call that brought no candidates. */
    method Reject(reason: Reason)
      requires Valid() && (reason == CallFailed || reason == UnparseableResponse)
      modifies this`rejected
      ensures Valid() && rejected == old(rejected) + multiset{reason}
    {
      hide IsLog, IsByKind, ArePlans, Kinds;
      rejected := rejected + multiset{reason};
    }

    /** Charges a reply: a failed attempt still costs its prompt, and what is not reported is estimated.
        Returns the candidates to look at. */
    method Settle(reply: Reply, estimate: nat) returns (flow: Flow, found: Option<seq<Json>>)
      requires Valid()
      modifies this`promptTokens, this`completionTokens, this`estimatedTokens, this`stopped, this`rejected
      ensures Valid()
      ensures promptTokens + completionTokens == old(promptTokens + completionTokens) + CostOf(reply, estimate)
      ensures estimatedTokens == old(estimatedTokens) + CostOf(reply, estimate)
                - if reply.Response? && reply.usage.Reported? then reply.usage.prompt + reply.usage.completion else 0
      ensures flow == if IsOverBudget(reply) then Stop else if IsFatal(reply) then Throw else Go
      ensures stopped == if IsOverBudget(reply) then MaxCalls else old(stopped)
      ensures found == if reply.Response? then reply.candidates else None
    {
      hide IsLog, IsByKind, ArePlans, Prompts, Kinds, CandidatesAddUp;
      NoPrompts(estimate);
      flow, found := Go, None;
      if reply.CallError? {
        ChargeAttempts(estimate, if reply.failedAttempts.None? then 1 else reply.failedAttempts.value);
        if reply.budget {
          stopped, flow := MaxCalls, Stop;
        } else if reply.fatal {
          flow := Throw;
        } else {
          Reject(CallFailed);
        }
        return;
      }
      if reply.attempts > 1 {
        ChargeAttempts(estimate, reply.attempts - 1);
      }
      if reply.usage.Reported? {
        Charge(reply.usage.prompt, reply.usage.completion, false);
      } else {
        Charge(estimate, reply.textTokens, true);
      }
      found := reply.candidates;
      if found.None? {
        Reject(UnparseableResponse);
      }
    }

    /** One kind of one round: the deficit is split over the windows, each asked at most once. */
    method RunKind(kind: string) returns (flow: Flow)
      requires Valid() && kind in plan
      modifies this, verifier
      ensures Valid() && kind in setup.mix && Outcome(Now(), flow) == KindRun(setup, old(Now()), kind)
    {
      hide IsLog, IsByKind, ArePlans, KindRun, AskFrom, CountsOf, OfKind, Weights, SameShape, Request, IsPlan;
      PlannedKind(kind);
      ghost var st, have := Now(), |OfKind(log, kind)|;
      if setup.mix[kind] <= |accepted[kind]| {
        EnoughIsThere(setup, st, kind);
        return Go;
      }
      var n := Ceil((setup.mix[kind] - |accepted[kind]|) as real * setup.overgenerate);
      RequestIs(setup, kind, have);
      var windows := plan[kind];
      if windows == [] {
        // Nothing to hand the remainder to: the code indexes an empty order.
        NothingToAsk(setup, st, kind, n);
        return if n > 0 then Throw else Go;
      }
      var counts := SplitRequest(n, docs, kind, windows);
      AsksFor(setup, st, kind, n, counts);
      assert Now() == st;
      flow := AskAll(kind, counts);
    }

    method AskAll(kind: string, counts: seq<int>) returns (flow: Flow)
      requires Valid() && kind in plan && |counts| == |plan[kind]| && forall i :: 0 <= i < |counts| ==> counts[i] >= 0
      modifies this, verifier
      ensures Valid() && Outcome(Now(), flow) == AskFrom(setup, old(Now()), kind, counts, 0)
    {
      hide IsLog, IsByKind, ArePlans, AskOne, SameShape;
      for at := 0 to |counts|
        invariant Valid() && kind in plan && |plan[kind]| == |counts|
        invariant AskFrom(setup, Now(), kind, counts, at) == AskFrom(setup, old(Now()), kind, counts, 0)
      {
        var count := AtMost(counts[at], MAX_PER_CALL);
        if count != 0 {
          ghost var before := plan;
          var step := Ask(kind, at, count);
          SameWindow(before, plan, kind, at);
          if step != Go {
            return step;
          }
        }
      }
      flow := Go;
    }

    /** One round; the kinds in the order of the plan. */
    method RunRound() returns (flow: Flow)
      requires Valid() && plan.Keys <= setup.mix.Keys
      modifies this, verifier
      ensures Valid() && plan.Keys == old(plan.Keys) && Outcome(Now(), flow) == RoundFrom(setup, old(Now()), 0)
    {
      hide IsLog, IsByKind, ArePlans, KindRun, SameShape, QuestionKinds;
      for k := 0 to |QuestionKinds()|
        invariant Valid() && plan.Keys == old(plan.Keys)
        invariant RoundFrom(setup, Now(), k) == RoundFrom(setup, old(Now()), 0)
      {
        var kind := QuestionKinds()[k];
        if kind in plan {
          ghost var before := plan;
          flow := RunKind(kind);
          SameKeys(before, plan);
          if flow != Go {
            return;
          }
        }
      }
      flow := Go;
    }

    /** All rounds. */
    method Run(rounds: nat) returns (flow: Flow)
      requires Valid() && plan.Keys <= setup.mix.Keys
      modifies this, verifier
      ensures Valid() && Outcome(Now(), flow) == Rounds(setup, old(Now()), rounds)
    {
      hide IsLog, IsByKind, ArePlans, RoundFrom, SameShape;
      for round := 0 to rounds
        invariant Valid() && plan.Keys == old(plan.Keys)
        invariant Rounds(setup, Now(), rounds - round) == Rounds(setup, old(Now()), rounds)
      {
        flow := RunRound();
        if flow != Go {
          return;
        }
      }
      flow := Go;
    }

    lemma PlannedKind(kind: string)
      requires Valid() && kind in plan
      ensures kind in setup.mix && kind in accepted && accepted[kind] == OfKind(log, kind) && IsPlan(docs, kind, plan[kind])
    {
      hide IsLog, OfKind;
    }

    lemma PlannedFile(kind: string, at: nat)
      requires Valid() && kind in plan && at < |plan[kind]|
      ensures kind in QuestionKinds() && kind in Kinds() && kind in accepted
      ensures var w := plan[kind][at]; w.kind == kind && Supplies(docs, kind, w.file) && w.file in verifier.norm
    {
      hide IsLog, OfKind;
      assert kind in Kinds() && kind in accepted;
      assert IsPlan(docs, kind, plan[kind]);
    }

    lemma NoneTaken(st: State, kind: string, at: nat)
      requires kind in st.plan && at < |st.plan[kind]|
      ensures TakenAll(setup, st, [], kind, at) == st
    {
    }
  }

  lemma KindsAreKept(log: seq<Item>, accepted: map<string, seq<Item>>)
    requires IsByKind(log, accepted)
    ensures accepted.Keys == Kinds()
  {
  }

  lemma NextWindow(setup: Setup, log: seq<Item>, w: Window, c: Json, isAccepted: bool)
    requires isAccepted <==> IsAcceptable(setup, log, c, w.kind, w.file)
    ensures var question := GetString(c, "question");
      var next := if question.Some? then w.(asked := w.asked + [Trim(question.value)]) else w;
      WindowWith(setup, log, w, c) == if isAccepted then next.(accepted := w.accepted + 1) else next
  {
    hide IsAcceptable, Trim;
  }

  lemma RequestIs(setup: Setup, kind: string, have: nat)
    requires kind in setup.mix && have < setup.mix[kind] && setup.overgenerate >= 0.0
    ensures Request(setup, kind, have) == Ceil((setup.mix[kind] - have) as real * setup.overgenerate) >= 0
  {
    var x := (setup.mix[kind] - have) as real * setup.overgenerate;
    assert x >= 0.0;
  }

  lemma NoPrompts(estimate: nat)
    ensures Prompts(estimate, 0) == 0
  {
  }

  lemma GroundedIsLong(ops: Words, norm: map<string, string>, kind: string, file: string, question: string, quotes: seq<string>)
    requires file in norm && IsGrounded(ops, norm, kind, file, question, quotes)
    ensures |question| >= 10
  {
  }

  lemma GoodItem(setup: Setup, docs: seq<Doc>, x: Item)
    requires x.kind in QuestionKinds() && x.file in setup.norm && Supplies(docs, x.kind, x.file) && Trim(x.question) != ""
    requires IsGrounded(setup.ops, setup.norm, x.kind, x.file, x.question, x.quotes)
    ensures IsGood(setup.ops, setup.norm, docs, x)
  {
  }

  lemma CountsAreNatural(n: nat, w: seq<real>, counts: seq<int>)
    requires Apportionment.AreWeights(w) && Apportionment.IsApportionment(n, w, counts)
    ensures |counts| == |w| && forall i :: 0 <= i < |counts| ==> counts[i] >= 0
  {
  }
}
