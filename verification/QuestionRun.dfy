/** A run of the generator as a function of the model's replies: what is asked, what it costs, what is accepted and
    when it ends. The generator's methods compute this function; what it guarantees is proved here. */
module QuestionRun {
  import opened Text
  import opened QuestionSchema
  import opened QuestionVerifier
  import opened PickFair
  import opened QuestionLog
  import opened QuestionWindows
  import opened Wrappers
  import Apportionment

  const MAX_PER_CALL := 15

  datatype Usage = Reported(prompt: int, completion: int) | Unreported

  /** What a call to the model comes back with. `textTokens` is the estimate for the answer's text. */
  datatype Reply =
    | Response(attempts: nat, usage: Usage, textTokens: nat, candidates: Option<seq<Json>>)
    | CallError(failedAttempts: Option<nat>, budget: bool, fatal: bool)

  /** The n-th call's reply: any function, so every behaviour of a model is one. */
  type Model = nat -> Reply

  datatype Stopped = NotStopped | MaxCalls | MaxTokens

  /** Go on, leave all loops, or an exception. */
  datatype Flow = Go | Stop | Throw

  /** The parameters of a run; `norm` holds the normalised texts of the verifier. */
  datatype Setup = Setup(
    ops: Words, norm: map<string, string>, mix: map<string, nat>, llm: Model, promptEstimate: (Window, nat) -> nat,
    maxCalls: int, maxTokens: int, overgenerate: real)

  /** A call: the window as it was then, and how many questions were asked for. */
  datatype Asked = Asked(window: Window, count: nat)

  /** Where a run is: the windows, the accepted questions in order, the calls made, the tokens charged. */
  datatype State = State(
    plan: map<string, seq<Window>>, log: seq<Item>, asked: seq<Asked>, spent: int, candidates: nat, stopped: Stopped)

  datatype Outcome = Outcome(state: State, flow: Flow)

  function Ceil(x: real): (n: int) { -((-x).Floor) }

  function Kinds(): (kinds: set<string>) { set k | k in QuestionKinds() }

  // ----- what a call costs ----------------------------------------------------------------------

  /** How many prompts a reply cost without an answer: those of the attempts before the one that was answered. */
  function FailedAttempts(reply: Reply): (n: nat)
  {
    match reply
    case Response(attempts, _, _, _) => if attempts > 1 then attempts - 1 else 0
    case CallError(failed, _, _) => if failed.None? then 1 else failed.value
  }

  /** The tokens of the answer and its prompt, as reported, or else as estimated. */
  function AnswerTokens(reply: Reply, estimate: nat): (n: int)
  {
    match reply
    case CallError(_, _, _) => 0
    case Response(_, Reported(prompt, completion), _, _) => prompt + completion
    case Response(_, Unreported, textTokens, _) => estimate + textTokens
  }

  function Prompts(estimate: nat, attempts: nat): (n: nat) { estimate * attempts }

  function CostOf(reply: Reply, estimate: nat): (n: int)
  {
    Prompts(estimate, FailedAttempts(reply)) + AnswerTokens(reply, estimate)
  }

  /** The cost of the calls so far: of the first reply, the second, and so on. */
  function Spent(setup: Setup, asked: seq<Asked>): (n: int)
  {
    if asked == [] then 0
    else
      var last := asked[|asked| - 1];
      Spent(setup, asked[..|asked| - 1])
      + CostOf(setup.llm(|asked| - 1), setup.promptEstimate(last.window, last.count))
  }

  // ----- what is accepted -----------------------------------------------------------------------

  /** What the verifier remembers after the questions of the log. */
  function Memory(ops: Words, log: seq<Item>): (seen: seq<Seen>)
  {
    seq(|log|, i requires 0 <= i < |log| => SeenOf(ops, log[i].file, log[i].question, log[i].quotes))
  }

  function ItemOf(c: Json, kind: string, file: string): (x: Item)
    requires IsWellFormed(c)
  {
    Item(kind, file, CleanQuestion(GetString(c, "question").value), Trimmed(Strings(Get(c, "quotes").value).value))
  }

  /** The candidate is accepted after the questions of the log. */
  ghost predicate IsAcceptable(setup: Setup, log: seq<Item>, c: Json, kind: string, file: string)
  {
    && file in setup.norm && IsWellFormed(c)
    && var x := ItemOf(c, kind, file);
    && IsGrounded(setup.ops, setup.norm, kind, file, x.question, x.quotes)
    && IsNew(Memory(setup.ops, log), SeenOf(setup.ops, file, x.question, x.quotes))
  }

  ghost function LogWith(setup: Setup, log: seq<Item>, c: Json, kind: string, file: string): (after: seq<Item>)
  {
    if IsAcceptable(setup, log, c, kind, file) then log + [ItemOf(c, kind, file)] else log
  }

  ghost function LogWithAll(setup: Setup, log: seq<Item>, cs: seq<Json>, kind: string, file: string): (after: seq<Item>)
  {
    if cs == [] then log
    else LogWith(setup, LogWithAll(setup, log, cs[..|cs| - 1], kind, file), cs[|cs| - 1], kind, file)
  }

  /** The candidates to look at in a reply. */
  function CandidatesOf(reply: Reply): (cs: seq<Json>)
  {
    if reply.Response? && reply.candidates.Some? then reply.candidates.value else []
  }

  /** The log after the calls so far: what is acceptable of the replies, in order. */
  ghost function LogOf(setup: Setup, asked: seq<Asked>): (log: seq<Item>)
  {
    if asked == [] then []
    else
      var n, window := |asked| - 1, asked[|asked| - 1].window;
      LogWithAll(setup, LogOf(setup, asked[..n]), CandidatesOf(setup.llm(n)), window.kind, window.file)
  }

  /** How many candidates the replies held. */
  function CandidateTotal(setup: Setup, asked: seq<Asked>): (n: nat)
  {
    if asked == [] then 0 else CandidateTotal(setup, asked[..|asked| - 1]) + |CandidatesOf(setup.llm(|asked| - 1))|
  }

  // ----- a run ----------------------------------------------------------------------------------

  /** The window after a candidate: its question is not to be asked again, and fresh windows come first. */
  ghost function WindowWith(setup: Setup, log: seq<Item>, w: Window, c: Json): (after: Window)
  {
    var question := GetString(c, "question");
    var more := if question.Some? then w.asked + [Trim(question.value)] else w.asked;
    w.(asked := more, accepted := w.accepted + if IsAcceptable(setup, log, c, w.kind, w.file) then 1 else 0)
  }

  /** The plan with the same windows of the same texts. */
  predicate SameShape(a: map<string, seq<Window>>, b: map<string, seq<Window>>)
  {
    a.Keys == b.Keys && forall k :: k in a ==>
      |a[k]| == |b[k]| && forall i :: 0 <= i < |a[k]| ==>
        && a[k][i].kind == b[k][i].kind && a[k][i].file == b[k][i].file && a[k][i].text == b[k][i].text
        && a[k][i].share == b[k][i].share
  }

  /** One candidate of window `at`. */
  ghost function Taken(setup: Setup, st: State, c: Json, kind: string, at: nat): (after: State)
    requires kind in st.plan && at < |st.plan[kind]|
    ensures SameShape(st.plan, after.plan)
  {
    hide IsAcceptable;
    var w := st.plan[kind][at];
    st.(log := LogWith(setup, st.log, c, w.kind, w.file), candidates := st.candidates + 1,
        plan := st.plan[kind := st.plan[kind][at := WindowWith(setup, st.log, w, c)]])
  }

  ghost function TakenAll(setup: Setup, st: State, cs: seq<Json>, kind: string, at: nat): (after: State)
    requires kind in st.plan && at < |st.plan[kind]|
    ensures SameShape(st.plan, after.plan)
  {
    hide Taken;
    if cs == [] then st else Taken(setup, TakenAll(setup, st, cs[..|cs| - 1], kind, at), cs[|cs| - 1], kind, at)
  }

  predicate IsFatal(reply: Reply) { reply.CallError? && !reply.budget && reply.fatal }

  predicate IsOverBudget(reply: Reply) { reply.CallError? && reply.budget }

  /** The call made and charged. */
  function Called(setup: Setup, st: State, kind: string, at: nat, count: nat): (after: State)
    requires kind in st.plan && at < |st.plan[kind]|
  {
    var w := st.plan[kind][at];
    st.(asked := st.asked + [Asked(w, count)],
        spent := st.spent + CostOf(setup.llm(|st.asked|), setup.promptEstimate(w, count)))
  }

  /** One call about window `at`, unless a budget is spent. */
  ghost function AskOne(setup: Setup, st: State, kind: string, at: nat, count: nat): (o: Outcome)
    requires kind in st.plan && at < |st.plan[kind]|
    ensures SameShape(st.plan, o.state.plan)
  {
    hide TakenAll, CostOf;
    if |st.asked| >= setup.maxCalls then Outcome(st.(stopped := MaxCalls), Stop)
    else if st.spent >= setup.maxTokens then Outcome(st.(stopped := MaxTokens), Stop)
    else
      var (reply, called) := (setup.llm(|st.asked|), Called(setup, st, kind, at, count));
      if IsOverBudget(reply) then Outcome(called.(stopped := MaxCalls), Stop)
      else if IsFatal(reply) then Outcome(called, Throw)
      else Outcome(TakenAll(setup, called, CandidatesOf(reply), kind, at), Go)
  }

  function AtMost(n: int, most: nat): (m: nat) { if n < 0 then 0 else if n < most then n else most }

  /** The windows from `at` on, each asked for its count unless that is none. */
  ghost function AskFrom(setup: Setup, st: State, kind: string, counts: seq<int>, at: nat): (o: Outcome)
    requires kind in st.plan
    ensures SameShape(st.plan, o.state.plan)
    decreases |st.plan[kind]| - at
  {
    hide AskOne;
    if at >= |counts| || at >= |st.plan[kind]| then Outcome(st, Go)
    else
      var count := AtMost(counts[at], MAX_PER_CALL);
      if count == 0 then AskFrom(setup, st, kind, counts, at + 1)
      else
        var o := AskOne(setup, st, kind, at, count);
        if o.flow != Go then o else AskFrom(setup, o.state, kind, counts, at + 1)
  }

  /** The apportionment of `n` by the weights: there is one, and no other. */
  ghost function CountsOf(n: nat, w: seq<real>): (counts: seq<int>)
    ensures Apportionment.AreWeights(w) ==> Apportionment.IsApportionment(n, w, counts)
  {
    hide Apportionment.AreWeights, Apportionment.IsApportionment;
    if Apportionment.AreWeights(w) then
      Apportionment.ApportionmentExists(n, w);
      var out :| Apportionment.IsApportionment(n, w, out);
      out
    else []
  }

  /** How many questions of a kind to ask for: what is missing, and some more. */
  function Request(setup: Setup, kind: string, have: nat): (n: nat)
    requires kind in setup.mix
  {
    var n := Ceil((setup.mix[kind] - have) as real * setup.overgenerate);
    if setup.mix[kind] <= have || n < 0 then 0 else n
  }

  /** One kind of one round: the deficit is split over the windows, each asked at most once. */
  ghost function KindRun(setup: Setup, st: State, kind: string): (o: Outcome)
    requires kind in st.plan && kind in setup.mix
    ensures SameShape(st.plan, o.state.plan)
  {
    hide AskFrom, CountsOf;
    var n := Request(setup, kind, |OfKind(st.log, kind)|);
    if setup.mix[kind] <= |OfKind(st.log, kind)| then Outcome(st, Go)
    else if st.plan[kind] == [] then Outcome(st, if n > 0 then Throw else Go)
    else AskFrom(setup, st, kind, CountsOf(n, Weights(st.plan[kind])), 0)
  }

  lemma EnoughIsThere(setup: Setup, st: State, kind: string)
    requires kind in st.plan && kind in setup.mix && setup.mix[kind] <= |OfKind(st.log, kind)|
    ensures KindRun(setup, st, kind) == Outcome(st, Go)
  {
    hide AskFrom, CountsOf, OfKind, Weights, Request, SameShape;
  }

  lemma NothingToAsk(setup: Setup, st: State, kind: string, n: nat)
    requires kind in st.plan && kind in setup.mix && setup.mix[kind] > |OfKind(st.log, kind)| && st.plan[kind] == []
    requires n == Request(setup, kind, |OfKind(st.log, kind)|)
    ensures KindRun(setup, st, kind) == Outcome(st, if n > 0 then Throw else Go)
  {
    hide AskFrom, CountsOf, OfKind, Weights, Request, SameShape;
  }

  lemma AsksFor(setup: Setup, st: State, kind: string, n: nat, counts: seq<int>)
    requires kind in st.plan && kind in setup.mix && setup.mix[kind] > |OfKind(st.log, kind)| && st.plan[kind] != []
    requires n == Request(setup, kind, |OfKind(st.log, kind)|) && counts == CountsOf(n, Weights(st.plan[kind]))
    ensures KindRun(setup, st, kind) == AskFrom(setup, st, kind, counts, 0)
  {
    hide AskFrom, CountsOf, OfKind, Weights, Request, SameShape;
  }

  /** The kinds of one round from the `k`-th on, in order. */
  ghost function RoundFrom(setup: Setup, st: State, k: nat): (o: Outcome)
    requires st.plan.Keys <= setup.mix.Keys
    ensures SameShape(st.plan, o.state.plan)
    decreases |QuestionKinds()| - k
  {
    hide KindRun, QuestionKinds;
    if k >= |QuestionKinds()| then Outcome(st, Go)
    else
      var kind := QuestionKinds()[k];
      var o := if kind in st.plan then KindRun(setup, st, kind) else Outcome(st, Go);
      if o.flow != Go then o else RoundFrom(setup, o.state, k + 1)
  }

  ghost function Rounds(setup: Setup, st: State, rounds: nat): (o: Outcome)
    requires st.plan.Keys <= setup.mix.Keys
    ensures SameShape(st.plan, o.state.plan)
    decreases rounds
  {
    hide RoundFrom;
    if rounds == 0 then Outcome(st, Go)
    else
      var o := RoundFrom(setup, st, 0);
      if o.flow != Go then o else Rounds(setup, o.state, rounds - 1)
  }

  function Begin(plan: map<string, seq<Window>>): (st: State) { State(plan, [], [], 0, 0, NotStopped) }

  // ----- what every run keeps -------------------------------------------------------------------

  /** The charged tokens are the costs of the replies, the log is what is acceptable of them, and every candidate of
      theirs was looked at. */
  ghost predicate IsAccounted(setup: Setup, st: State)
  {
    && st.spent == Spent(setup, st.asked) && st.log == LogOf(setup, st.asked)
    && st.candidates == CandidateTotal(setup, st.asked)
  }

  /** No call beyond the limit, and none started with the tokens used up. */
  predicate WithinBudget(setup: Setup, asked: seq<Asked>)
  {
    forall i :: 0 <= i < |asked| ==> i < setup.maxCalls && Spent(setup, asked[..i]) < setup.maxTokens
  }

  /** The last call failed for good. */
  predicate EndsFatally(setup: Setup, asked: seq<Asked>) { asked != [] && IsFatal(setup.llm(|asked| - 1)) }

  /** The client's cap on requests was spent in the last call. */
  predicate EndsOverBudget(setup: Setup, asked: seq<Asked>) { asked != [] && IsOverBudget(setup.llm(|asked| - 1)) }

  /** No call before the last failed for good or over the client's budget. */
  predicate OnlyLastEnds(setup: Setup, asked: seq<Asked>)
  {
    forall i :: 0 <= i < |asked| - 1 ==> !IsFatal(setup.llm(i)) && !IsOverBudget(setup.llm(i))
  }

  /** Every window is in the plan of its kind, and of the kinds without windows nothing is accepted. */
  predicate IsTidy(plan: map<string, seq<Window>>, log: seq<Item>)
  {
    && (forall k, i :: k in plan && 0 <= i < |plan[k]| ==> plan[k][i].kind == k)
    && (forall k :: k in plan && plan[k] == [] ==> OfKind(log, k) == [])
  }

  ghost predicate Keeps(setup: Setup, st: State)
  {
    && IsAccounted(setup, st) && WithinBudget(setup, st.asked) && IsTidy(st.plan, st.log)
    && OnlyLastEnds(setup, st.asked)
  }

  ghost predicate IsRunning(setup: Setup, st: State)
  {
    && Keeps(setup, st) && !EndsFatally(setup, st.asked) && !EndsOverBudget(setup, st.asked)
    && st.stopped == NotStopped
  }

  /** How a part of a run ends: stopped by a budget, by an exception, or neither. */
  ghost predicate Ends(setup: Setup, o: Outcome)
  {
    && Keeps(setup, o.state) && (o.flow == Stop <==> o.state.stopped != NotStopped)
    && (o.flow == Go ==> IsRunning(setup, o.state)) && (EndsFatally(setup, o.state.asked) ==> o.flow == Throw)
    && (EndsOverBudget(setup, o.state.asked) ==> o.state.stopped == MaxCalls)
  }

  lemma PlanAfter(plan: map<string, seq<Window>>, kind: string, at: nat, w: Window)
    requires kind in plan && at < |plan[kind]| && w.kind == plan[kind][at].kind
    requires forall k, i :: k in plan && 0 <= i < |plan[k]| ==> plan[k][i].kind == k
    ensures var after := plan[kind := plan[kind][at := w]];
      forall k, i :: k in after && 0 <= i < |after[k]| ==> after[k][i].kind == k
  {
  }

  lemma {:induction false} TakenAllKeeps(setup: Setup, st: State, cs: seq<Json>, kind: string, at: nat)
    requires IsTidy(st.plan, st.log) && kind in st.plan && at < |st.plan[kind]|
    ensures var after := TakenAll(setup, st, cs, kind, at);
      && IsTidy(after.plan, after.log) && after.asked == st.asked && after.spent == st.spent && after.stopped == st.stopped
      && after.log == LogWithAll(setup, st.log, cs, kind, st.plan[kind][at].file) && after.candidates == st.candidates + |cs|
    decreases |cs|
  {
    hide IsAcceptable, SameShape, WindowWith, OfKind, LogWithAll;
    LogWithNone(setup, st.log, kind, st.plan[kind][at].file);
    if cs != [] {
      var (c, before) := (cs[|cs| - 1], TakenAll(setup, st, cs[..|cs| - 1], kind, at));
      TakenAllKeeps(setup, st, cs[..|cs| - 1], kind, at);
      LogWithLast(setup, st.log, cs, kind, st.plan[kind][at].file);
      SameWindow(st.plan, before.plan, kind, at);
      var w := before.plan[kind][at];
      WindowStays(setup, before.log, w, c);
      PlanAfter(before.plan, kind, at, WindowWith(setup, before.log, w, c));
      forall k | k in before.plan && k != kind ensures OfKind(LogWith(setup, before.log, c, kind, w.file), k) == OfKind(before.log, k) {
        OtherKinds(setup, before.log, c, kind, w.file, k);
      }
    }
  }

  lemma SameWindow(a: map<string, seq<Window>>, b: map<string, seq<Window>>, kind: string, at: nat)
    requires SameShape(a, b) && kind in a && at < |a[kind]|
    ensures kind in b && |a[kind]| == |b[kind]| && a[kind][at].kind == b[kind][at].kind && a[kind][at].file == b[kind][at].file
  {
  }

  lemma LogWithNone(setup: Setup, log: seq<Item>, kind: string, file: string)
    ensures LogWithAll(setup, log, [], kind, file) == log
  {
  }

  lemma LogWithLast(setup: Setup, log: seq<Item>, cs: seq<Json>, kind: string, file: string)
    requires cs != []
    ensures LogWithAll(setup, log, cs, kind, file)
         == LogWith(setup, LogWithAll(setup, log, cs[..|cs| - 1], kind, file), cs[|cs| - 1], kind, file)
  {
    hide LogWith;
  }

  lemma WindowStays(setup: Setup, log: seq<Item>, w: Window, c: Json)
    ensures var after := WindowWith(setup, log, w, c);
      after.kind == w.kind && after.file == w.file && after.text == w.text && after.share == w.share
  {
    hide IsAcceptable;
  }

  lemma OtherKinds(setup: Setup, log: seq<Item>, c: Json, kind: string, file: string, other: string)
    requires other != kind
    ensures OfKind(LogWith(setup, log, c, kind, file), other) == OfKind(log, other)
  {
    hide IsAcceptable, OfKind;
    if IsAcceptable(setup, log, c, kind, file) {
      AcceptableIsWellFormed(setup, log, c, kind, file);
      OfKindGrows(log, ItemOf(c, kind, file), other);
    }
  }

  lemma AcceptableIsWellFormed(setup: Setup, log: seq<Item>, c: Json, kind: string, file: string)
    requires IsAcceptable(setup, log, c, kind, file)
    ensures IsWellFormed(c) && ItemOf(c, kind, file).kind == kind
  {
  }

  lemma CalledKeeps(setup: Setup, st: State, kind: string, at: nat, count: nat)
    requires IsRunning(setup, st) && kind in st.plan && at < |st.plan[kind]|
    requires |st.asked| < setup.maxCalls && st.spent < setup.maxTokens
    ensures var called := Called(setup, st, kind, at, count);
      && called.spent == Spent(setup, called.asked) && WithinBudget(setup, called.asked) && IsTidy(called.plan, called.log)
      && called.asked[..|st.asked|] == st.asked && |called.asked| == |st.asked| + 1 && OnlyLastEnds(setup, called.asked)
  {
    hide CostOf, LogOf, CandidateTotal, OfKind;
    var called := Called(setup, st, kind, at, count);
    assert called.asked[..|st.asked|] == st.asked;
    forall i | 0 <= i < |called.asked| ensures i < setup.maxCalls && Spent(setup, called.asked[..i]) < setup.maxTokens {
      assert called.asked[..i] == st.asked[..i];
      assert i == |st.asked| ==> called.asked[..i] == st.asked;
    }
  }

  lemma LogStep(setup: Setup, before: seq<Asked>, call: Asked)
    ensures var cs := CandidatesOf(setup.llm(|before|));
      && LogOf(setup, before + [call]) == LogWithAll(setup, LogOf(setup, before), cs, call.window.kind, call.window.file)
      && CandidateTotal(setup, before + [call]) == CandidateTotal(setup, before) + |cs|
  {
    hide LogWithAll, CandidatesOf;
    assert (before + [call])[..|before|] == before;
  }

  lemma AskOneEnds(setup: Setup, st: State, kind: string, at: nat, count: nat)
    requires IsRunning(setup, st) && kind in st.plan && at < |st.plan[kind]|
    ensures var o := AskOne(setup, st, kind, at, count);
      && Ends(setup, o) && (o.flow == Throw <==> EndsFatally(setup, o.state.asked)) && st.asked <= o.state.asked
      && (o.flow == Go ==> |o.state.asked| == |st.asked| + 1 && o.state.asked[|st.asked|].window.kind == kind)
  {
    hide IsTidy, LogOf, Spent, CandidateTotal, LogWithAll, TakenAll, CostOf, SameShape, WithinBudget;
    if |st.asked| < setup.maxCalls && st.spent < setup.maxTokens {
      var w := st.plan[kind][at];
      assert w.kind == kind by { KindMatches(st, kind, at); }
      CalledKeeps(setup, st, kind, at, count);
      LogStep(setup, st.asked, Asked(w, count));
      var (called, reply) := (Called(setup, st, kind, at, count), setup.llm(|st.asked|));
      LogWithNone(setup, st.log, kind, w.file);
      TakenAllKeeps(setup, called, CandidatesOf(reply), kind, at);
    }
  }

  lemma KindMatches(st: State, kind: string, at: nat)
    requires IsTidy(st.plan, st.log) && kind in st.plan && at < |st.plan[kind]|
    ensures st.plan[kind][at].kind == kind
  {
  }

  /** Asking the windows of a kind goes on until a budget is spent or a call fails for good. */
  lemma {:induction false} AskFromEnds(setup: Setup, st: State, kind: string, counts: seq<int>, at: nat)
    requires IsRunning(setup, st) && kind in st.plan
    ensures var o := AskFrom(setup, st, kind, counts, at);
      && Ends(setup, o) && (o.flow == Throw <==> EndsFatally(setup, o.state.asked)) && st.asked <= o.state.asked
    decreases |st.plan[kind]| - at
  {
    hide AskOne, SameShape, IsTidy, IsAccounted, WithinBudget;
    if at < |counts| && at < |st.plan[kind]| {
      var count := AtMost(counts[at], MAX_PER_CALL);
      if count == 0 {
        AskFromEnds(setup, st, kind, counts, at + 1);
      } else {
        AskOneEnds(setup, st, kind, at, count);
        var o := AskOne(setup, st, kind, at, count);
        if o.flow == Go {
          SameWindow(st.plan, o.state.plan, kind, at);
          AskFromEnds(setup, o.state, kind, counts, at + 1);
        }
      }
    }
  }

  /** The mix asks for questions of a kind that has only blank text. */
  predicate IsBlankKind(setup: Setup, plan: map<string, seq<Window>>, kind: string)
  {
    kind in plan && kind in setup.mix && plan[kind] == [] && Request(setup, kind, 0) > 0
  }

  /** A kind ends in an exception exactly when a call fails for good or there is nothing to ask about. */
  lemma KindRunEnds(setup: Setup, st: State, kind: string)
    requires IsRunning(setup, st) && kind in st.plan && kind in setup.mix
    ensures var o := KindRun(setup, st, kind);
      && Ends(setup, o) && st.asked <= o.state.asked
      && (o.flow == Throw <==> EndsFatally(setup, o.state.asked) || IsBlankKind(setup, st.plan, kind))
  {
    hide SameShape, IsAccounted, WithinBudget, AskFrom, CountsOf, OfKind, Weights;
    var n := Request(setup, kind, |OfKind(st.log, kind)|);
    if st.plan[kind] == [] {
      assert OfKind(st.log, kind) == [];
    } else {
      AskFromEnds(setup, st, kind, CountsOf(n, Weights(st.plan[kind])), 0);
    }
  }

  /** One of the kinds from the `k`-th on has only blank text. */
  predicate HasBlankFrom(setup: Setup, plan: map<string, seq<Window>>, k: nat)
  {
    exists j :: k <= j < |QuestionKinds()| && IsBlankKind(setup, plan, QuestionKinds()[j])
  }

  lemma SameBlank(setup: Setup, a: map<string, seq<Window>>, b: map<string, seq<Window>>)
    requires SameShape(a, b)
    ensures forall kind :: IsBlankKind(setup, a, kind) <==> IsBlankKind(setup, b, kind)
    ensures forall k: nat :: HasBlankFrom(setup, a, k) <==> HasBlankFrom(setup, b, k)
  {
    hide Request, QuestionKinds;
  }

  lemma BlankFromNext(setup: Setup, plan: map<string, seq<Window>>, k: nat)
    ensures k < |QuestionKinds()| ==>
      (HasBlankFrom(setup, plan, k) <==> IsBlankKind(setup, plan, QuestionKinds()[k]) || HasBlankFrom(setup, plan, k + 1))
    ensures k >= |QuestionKinds()| ==> !HasBlankFrom(setup, plan, k)
  {
    hide IsBlankKind, QuestionKinds;
  }

  lemma NotPlannedNotBlank(setup: Setup, plan: map<string, seq<Window>>, kind: string)
    requires kind !in plan
    ensures !IsBlankKind(setup, plan, kind)
  {
  }

  /** A round that is not stopped throws exactly when a call fails for good or some kind has only blank text. */
  lemma {:induction false} RoundFromEnds(setup: Setup, st: State, k: nat)
    requires IsRunning(setup, st) && st.plan.Keys <= setup.mix.Keys
    ensures var o := RoundFrom(setup, st, k);
      && Ends(setup, o) && st.asked <= o.state.asked
      && (o.flow != Stop ==> (o.flow == Throw <==> EndsFatally(setup, o.state.asked) || HasBlankFrom(setup, st.plan, k)))
    decreases |QuestionKinds()| - k
  {
    hide SameShape, IsAccounted, WithinBudget, IsTidy, KindRun, IsBlankKind, HasBlankFrom, QuestionKinds;
    BlankFromNext(setup, st.plan, k);
    if k < |QuestionKinds()| {
      var kind := QuestionKinds()[k];
      if kind in st.plan {
        KindRunEnds(setup, st, kind);
        var o := KindRun(setup, st, kind);
        if o.flow == Go {
          SameBlank(setup, st.plan, o.state.plan);
          assert o.state.plan.Keys == st.plan.Keys by { SameKeys(st.plan, o.state.plan); }
          RoundFromEnds(setup, o.state, k + 1);
        }
      } else {
        NotPlannedNotBlank(setup, st.plan, kind);
        RoundFromEnds(setup, st, k + 1);
      }
    }
  }

  lemma SameKeys(a: map<string, seq<Window>>, b: map<string, seq<Window>>)
    requires SameShape(a, b)
    ensures a.Keys == b.Keys
  {
  }

  lemma {:induction false} RoundsEnd(setup: Setup, st: State, rounds: nat)
    requires IsRunning(setup, st) && st.plan.Keys <= setup.mix.Keys
    ensures var o := Rounds(setup, st, rounds);
      && Ends(setup, o) && st.asked <= o.state.asked
      && (o.flow != Stop ==>
            (o.flow == Throw <==> EndsFatally(setup, o.state.asked) || (rounds > 0 && HasBlankFrom(setup, st.plan, 0))))
    decreases rounds
  {
    hide SameShape, IsAccounted, WithinBudget, IsTidy, RoundFrom, HasBlankFrom;
    if rounds > 0 {
      RoundFromEnds(setup, st, 0);
      var o := RoundFrom(setup, st, 0);
      if o.flow == Go {
        SameBlank(setup, st.plan, o.state.plan);
        SameKeys(st.plan, o.state.plan);
        RoundsEnd(setup, o.state, rounds - 1);
      }
    }
  }

  predicate IsPlanned(plan: map<string, seq<Window>>)
  {
    forall k, i :: k in plan && 0 <= i < |plan[k]| ==> plan[k][i].kind == k && plan[k][i].share > 0.0
  }

  lemma BeginsRunning(setup: Setup, plan: map<string, seq<Window>>)
    requires IsPlanned(plan)
    ensures IsRunning(setup, Begin(plan))
  {
  }

  /** Every run, whatever the model answers: the tokens charged are the costs of its replies, the questions are what is
      acceptable of them, no call is made beyond a budget or after one that failed for good or over the client's budget,
      and it throws exactly when its last call failed for good or, without a budget spent, some kind it wants has only
      blank text. */
  lemma EveryRunEnds(setup: Setup, plan: map<string, seq<Window>>, rounds: nat)
    requires IsPlanned(plan) && plan.Keys <= setup.mix.Keys
    ensures var o := Rounds(setup, Begin(plan), rounds);
      && IsAccounted(setup, o.state) && WithinBudget(setup, o.state.asked) && OnlyLastEnds(setup, o.state.asked)
      && (o.flow == Stop <==> o.state.stopped != NotStopped)
      && (EndsOverBudget(setup, o.state.asked) ==> o.state.stopped == MaxCalls)
      && (o.flow == Throw <==>
            EndsFatally(setup, o.state.asked)
            || (o.state.stopped == NotStopped && rounds > 0 && HasBlankFrom(setup, plan, 0)))
  {
    hide IsAccounted, WithinBudget, IsTidy, Rounds, HasBlankFrom, IsPlanned, EndsFatally;
    BeginsRunning(setup, plan);
    RoundsEnd(setup, Begin(plan), rounds);
  }

  // ----- no kind is forgotten -------------------------------------------------------------------

  predicate IsAsked(asked: seq<Asked>, kind: string) { exists i :: 0 <= i < |asked| && asked[i].window.kind == kind }

  lemma StillAsked(before: seq<Asked>, after: seq<Asked>, kind: string)
    requires before <= after && IsAsked(before, kind)
    ensures IsAsked(after, kind)
  {
    var i :| 0 <= i < |before| && before[i].window.kind == kind;
    assert after[i] == before[i];
  }

  lemma {:induction false} OtherKindsAll(setup: Setup, log: seq<Item>, cs: seq<Json>, kind: string, file: string, other: string)
    requires other != kind
    ensures OfKind(LogWithAll(setup, log, cs, kind, file), other) == OfKind(log, other)
    decreases |cs|
  {
    hide LogWith, LogWithAll, OfKind;
    if cs == [] {
      LogWithNone(setup, log, kind, file);
    } else {
      OtherKindsAll(setup, log, cs[..|cs| - 1], kind, file, other);
      LogWithLast(setup, log, cs, kind, file);
      OtherKinds(setup, LogWithAll(setup, log, cs[..|cs| - 1], kind, file), cs[|cs| - 1], kind, file, other);
    }
  }

  /** Only a kind that was asked about has questions. */
  lemma {:induction false} AcceptedIsAsked(setup: Setup, asked: seq<Asked>, kind: string)
    requires OfKind(LogOf(setup, asked), kind) != []
    ensures IsAsked(asked, kind)
    decreases |asked|
  {
    hide OfKind, LogWithAll, CandidatesOf;
    if asked == [] {
      NothingOfKind(kind);
    } else {
      var (before, w) := (asked[..|asked| - 1], asked[|asked| - 1].window);
      if w.kind != kind {
        OtherKindsAll(setup, LogOf(setup, before), CandidatesOf(setup.llm(|asked| - 1)), w.kind, w.file, kind);
        AcceptedIsAsked(setup, before, kind);
        StillAsked(before, asked, kind);
      }
    }
  }

  lemma NothingOfKind(kind: string)
    ensures OfKind([], kind) == []
  {
  }

  lemma {:induction false} AskFromAsks(setup: Setup, st: State, kind: string, counts: seq<int>, at: nat, j: nat)
    requires IsRunning(setup, st) && kind in st.plan && at <= j < |counts| && j < |st.plan[kind]| && counts[j] > 0
    ensures var o := AskFrom(setup, st, kind, counts, at); o.flow == Go ==> IsAsked(o.state.asked, kind)
    decreases |st.plan[kind]| - at
  {
    hide AskOne, SameShape, IsTidy, IsAccounted, WithinBudget;
    var count := AtMost(counts[at], MAX_PER_CALL);
    if count == 0 {
      AskFromAsks(setup, st, kind, counts, at + 1, j);
    } else {
      AskOneEnds(setup, st, kind, at, count);
      var o := AskOne(setup, st, kind, at, count);
      if o.flow == Go {
        assert IsAsked(o.state.asked, kind);
        SameWindow(st.plan, o.state.plan, kind, at);
        AskFromEnds(setup, o.state, kind, counts, at + 1);
        StillAsked(o.state.asked, AskFrom(setup, o.state, kind, counts, at + 1).state.asked, kind);
      }
    }
  }

  lemma {:induction false} SomeCount(counts: seq<int>) returns (j: nat)
    requires Apportionment.Sum(counts) > 0
    ensures j < |counts| && counts[j] > 0
    decreases |counts|
  {
    var n := |counts| - 1;
    if counts[n] > 0 { j := n; } else { j := SomeCount(counts[..n]); }
  }

  lemma WeightsArePositive(plan: map<string, seq<Window>>, kind: string)
    requires IsPlanned(plan) && kind in plan && plan[kind] != []
    ensures Apportionment.AreWeights(Weights(plan[kind]))
  {
    PositiveTotal(Weights(plan[kind]));
  }

  /** A kind's turn that is not cut short leaves it asked about. */
  lemma KindRunAsks(setup: Setup, st: State, kind: string)
    requires IsRunning(setup, st) && IsPlanned(st.plan) && kind in st.plan && kind in setup.mix && Request(setup, kind, 0) > 0
    ensures var o := KindRun(setup, st, kind); o.flow == Go ==> IsAsked(o.state.asked, kind)
  {
    hide SameShape, WithinBudget, IsTidy, AskFrom, CountsOf, OfKind, LogOf, Weights, Spent, CandidateTotal, Apportionment.AreWeights,
      Apportionment.Part, Apportionment.Before, Apportionment.Sum, Apportionment.Remainder, IsPlanned, IsAsked;
    KindRunEnds(setup, st, kind);
    var o := KindRun(setup, st, kind);
    if |OfKind(st.log, kind)| > 0 {
      AcceptedIsAsked(setup, st.asked, kind);
      StillAsked(st.asked, o.state.asked, kind);
    } else if st.plan[kind] != [] {
      WeightsArePositive(st.plan, kind);
      var n := Request(setup, kind, 0);
      var counts := CountsOf(n, Weights(st.plan[kind]));
      var j := SomeCount(counts);
      AskFromAsks(setup, st, kind, counts, 0, j);
    }
  }

  lemma PlannedStays(a: map<string, seq<Window>>, b: map<string, seq<Window>>)
    requires SameShape(a, b) && IsPlanned(a)
    ensures IsPlanned(b)
  {
  }

  lemma {:induction false} RoundFromAsks(setup: Setup, st: State, k: nat, j: nat)
    requires IsRunning(setup, st) && IsPlanned(st.plan) && st.plan.Keys <= setup.mix.Keys && k <= j < |QuestionKinds()|
    requires var kind := QuestionKinds()[j]; kind in st.plan && Request(setup, kind, 0) > 0
    ensures var o := RoundFrom(setup, st, k); o.flow == Go ==> IsAsked(o.state.asked, QuestionKinds()[j])
    decreases |QuestionKinds()| - k
  {
    hide SameShape, IsAccounted, WithinBudget, IsTidy, KindRun, HasBlankFrom, QuestionKinds, IsPlanned, IsAsked, Request;
    var kind := QuestionKinds()[k];
    if kind in st.plan {
      KindRunEnds(setup, st, kind);
      var o := KindRun(setup, st, kind);
      if o.flow == Go {
        SameKeys(st.plan, o.state.plan);
        PlannedStays(st.plan, o.state.plan);
        if k == j {
          KindRunAsks(setup, st, kind);
          RoundFromEnds(setup, o.state, k + 1);
          StillAsked(o.state.asked, RoundFrom(setup, o.state, k + 1).state.asked, kind);
        } else {
          RoundFromAsks(setup, o.state, k + 1, j);
        }
      }
    } else {
      RoundFromAsks(setup, st, k + 1, j);
    }
  }

  /** A run that ends by itself has asked about every kind the mix wants. */
  lemma NoKindIsForgotten(setup: Setup, plan: map<string, seq<Window>>, rounds: nat, j: nat)
    requires IsPlanned(plan) && plan.Keys <= setup.mix.Keys && rounds > 0 && j < |QuestionKinds()|
    requires var kind := QuestionKinds()[j]; kind in plan && Request(setup, kind, 0) > 0
    ensures var o := Rounds(setup, Begin(plan), rounds); o.flow == Go ==> IsAsked(o.state.asked, QuestionKinds()[j])
  {
    hide SameShape, IsAccounted, WithinBudget, IsTidy, RoundFrom, HasBlankFrom, QuestionKinds, IsPlanned, IsAsked, Request;
    BeginsRunning(setup, plan);
    var st := Begin(plan);
    RoundFromEnds(setup, st, 0);
    RoundFromAsks(setup, st, 0, j);
    var o := RoundFrom(setup, st, 0);
    if o.flow == Go {
      SameKeys(st.plan, o.state.plan);
      RoundsEnd(setup, o.state, rounds - 1);
      StillAsked(o.state.asked, Rounds(setup, o.state, rounds - 1).state.asked, QuestionKinds()[j]);
    }
  }

  lemma CallsWithinLimit(setup: Setup, asked: seq<Asked>)
    requires WithinBudget(setup, asked) && asked != []
    ensures |asked| <= setup.maxCalls
  {
    hide Spent;
    assert Spent(setup, asked[..|asked| - 1]) < setup.maxTokens;
  }

  // ----- what is asked for ----------------------------------------------------------------------

  /** How many are asked for: none when there are enough, else the missing ones times the factor, rounded up. */
  lemma RequestIsRoundedUp(setup: Setup, kind: string, have: nat)
    requires kind in setup.mix && setup.overgenerate >= 0.0
    ensures var (n, missing) := (Request(setup, kind, have), setup.mix[kind] - have);
      if missing <= 0 then n == 0 else n as real - 1.0 < missing as real * setup.overgenerate <= n as real
  {
    var x := (setup.mix[kind] - have) as real * setup.overgenerate;
    if setup.mix[kind] > have { assert x >= 0.0; }
  }

  /** The calls for these counts: each window once, in order, for at most fifteen questions, and none for none. */
  function CallsFor(windows: seq<Window>, counts: seq<int>, at: nat): (calls: seq<Asked>)
    decreases |windows| - at
  {
    if at >= |counts| || at >= |windows| then []
    else
      (if counts[at] <= 0 then [] else [Asked(windows[at], if counts[at] > 15 then 15 else counts[at])])
      + CallsFor(windows, counts, at + 1)
  }

  lemma {:induction false} SameFrom(a: seq<Window>, b: seq<Window>, counts: seq<int>, at: nat)
    requires |a| == |b| && forall j :: at <= j < |a| ==> a[j] == b[j]
    ensures CallsFor(a, counts, at) == CallsFor(b, counts, at)
    decreases |a| - at
  {
    if at < |counts| && at < |a| { SameFrom(a, b, counts, at + 1); }
  }

  predicate OthersStay(a: map<string, seq<Window>>, b: map<string, seq<Window>>, kind: string, at: nat)
  {
    kind in a && kind in b && |a[kind]| == |b[kind]| && forall j :: 0 <= j < |a[kind]| && j != at ==> a[kind][j] == b[kind][j]
  }

  lemma {:induction false} TakenAllOthers(setup: Setup, st: State, cs: seq<Json>, kind: string, at: nat)
    requires kind in st.plan && at < |st.plan[kind]|
    ensures OthersStay(st.plan, TakenAll(setup, st, cs, kind, at).plan, kind, at)
    ensures TakenAll(setup, st, cs, kind, at).asked == st.asked
    decreases |cs|
  {
    hide IsAcceptable, WindowWith, LogWith;
    if cs != [] { TakenAllOthers(setup, st, cs[..|cs| - 1], kind, at); }
  }

  lemma AskOneAsks(setup: Setup, st: State, kind: string, at: nat, count: nat)
    requires kind in st.plan && at < |st.plan[kind]|
    ensures var o := AskOne(setup, st, kind, at, count);
      && (o.state.asked == st.asked + [Asked(st.plan[kind][at], count)] || (o.flow != Go && o.state.asked == st.asked))
      && OthersStay(st.plan, o.state.plan, kind, at)
  {
    hide TakenAll, CostOf, SameShape, IsFatal, IsOverBudget;
    if |st.asked| < setup.maxCalls && st.spent < setup.maxTokens {
      var (reply, called) := (setup.llm(|st.asked|), Called(setup, st, kind, at, count));
      TakenAllOthers(setup, called, CandidatesOf(reply), kind, at);
    }
  }

  lemma NoCalls(windows: seq<Window>, counts: seq<int>, at: nat)
    ensures at >= |counts| || at >= |windows| ==> CallsFor(windows, counts, at) == []
  {
  }

  lemma FirstCall(windows: seq<Window>, counts: seq<int>, at: nat)
    requires at < |counts| && at < |windows|
    ensures var count := AtMost(counts[at], MAX_PER_CALL);
      CallsFor(windows, counts, at) == (if count == 0 then [] else [Asked(windows[at], count)]) + CallsFor(windows, counts, at + 1)
  {
  }

  lemma Behind(asked: seq<Asked>, first: seq<Asked>, rest: seq<Asked>)
    ensures (asked + first) + rest == asked + (first + rest)
    ensures asked + first <= asked + (first + rest)
    ensures asked <= asked + (first + rest)
  {
    assert (asked + first) + rest == asked + (first + rest);
  }

  lemma {:induction false} AskFromAsksInTurn(setup: Setup, st: State, kind: string, counts: seq<int>, at: nat)
    requires kind in st.plan
    ensures var (o, calls) := (AskFrom(setup, st, kind, counts, at), CallsFor(st.plan[kind], counts, at));
      && st.asked <= o.state.asked <= st.asked + calls && (o.flow == Go ==> o.state.asked == st.asked + calls)
    decreases |st.plan[kind]| - at
  {
    hide AskOne, SameShape, CallsFor;
    NoCalls(st.plan[kind], counts, at);
    if at < |counts| && at < |st.plan[kind]| {
      var count := AtMost(counts[at], MAX_PER_CALL);
      FirstCall(st.plan[kind], counts, at);
      var rest := CallsFor(st.plan[kind], counts, at + 1);
      if count == 0 {
        AskFromAsksInTurn(setup, st, kind, counts, at + 1);
        assert [] + rest == rest;
      } else {
        AskOneAsks(setup, st, kind, at, count);
        var o := AskOne(setup, st, kind, at, count);
        Behind(st.asked, [Asked(st.plan[kind][at], count)], rest);
        if o.flow == Go {
          AskFromAsksInTurn(setup, o.state, kind, counts, at + 1);
          SameFrom(st.plan[kind], o.state.plan[kind], counts, at + 1);
        }
      }
    }
  }

  /** A window's share, less for every question of it that was accepted. */
  predicate AreShares(w: seq<real>, windows: seq<Window>)
  {
    |w| == |windows| && forall i :: 0 <= i < |w| ==> w[i] == windows[i].share / (1 + windows[i].accepted) as real
  }

  /** A kind's turn asks for what is missing, split over its windows by these shares: each window once and in order, for at
      most fifteen. A turn cut short has made the first of these calls. */
  lemma KindRunAsksFor(setup: Setup, st: State, kind: string) returns (w: seq<real>, counts: seq<int>)
    requires kind in st.plan && kind in setup.mix && setup.mix[kind] > |OfKind(st.log, kind)| && IsPlanned(st.plan)
    requires st.plan[kind] != []
    ensures AreShares(w, st.plan[kind]) && Apportionment.AreWeights(w)
    ensures Apportionment.IsApportionment(Request(setup, kind, |OfKind(st.log, kind)|), w, counts)
    ensures var (o, calls) := (KindRun(setup, st, kind), CallsFor(st.plan[kind], counts, 0));
      && st.asked <= o.state.asked <= st.asked + calls && (o.flow == Go ==> o.state.asked == st.asked + calls)
  {
    hide AskFrom, OfKind, Request, SameShape, CallsFor, Apportionment.AreWeights, Apportionment.IsApportionment, IsPlanned;
    var n := Request(setup, kind, |OfKind(st.log, kind)|);
    WeightsArePositive(st.plan, kind);
    w := Weights(st.plan[kind]);
    counts := CountsOf(n, w);
    AsksFor(setup, st, kind, n, counts);
    AskFromAsksInTurn(setup, st, kind, counts, 0);
  }
}
