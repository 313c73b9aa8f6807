/** The two budgets of a generator run together: the calls of the loop, and the requests of the client behind them. */
module RunRequests {
  import opened SapClient
  import Questions = QuestionRun
  import QuestionWindows

  /** What one call came to, and how many completions it posted: the answered one and the failed ones before it, or as
      many as the error says. */
  predicate IsServed(o: Outcome, posted: nat)
  {
    && posted <= RETRIES
    && (o.Answer? ==> 1 <= o.attempts == posted)
    && (o.Error? && o.errorAttempts.Some? ==> o.errorAttempts.value == posted)
    && (o.Error? && o.failure == GaveUp ==> o.errorAttempts.Some?)
  }

  function Sum(ns: seq<nat>): (n: nat)
  {
    if ns == [] then 0 else Sum(ns[..|ns| - 1]) + ns[|ns| - 1]
  }

  lemma SumGrows(ns: seq<nat>, n: nat)
    ensures Sum(ns + [n]) == Sum(ns) + n
  {
    assert (ns + [n])[..|ns|] == ns;
  }

  lemma SomeOfAll(log: seq<Request>, r: Request)
    ensures CountOf(log, r) <= |log|
  {
    var m := multiset(log);
    assert m[r] <= |m| by { assert |m| == |m[r := 0]| + m[r]; }
  }

  lemma NoneOfNothing(r: Request)
    ensures CountOf([], r) == 0
  {
  }

  /** One `complete` for every call of a run: `posted` says how many completions each of them posted. */
  method ServeRun(client: Client, calls: nat) returns (outcomes: seq<Outcome>, ghost posted: seq<nat>)
    requires client.Valid() && client.log == []
    modifies client
    ensures client.Valid() && |outcomes| == |posted| == calls
    ensures forall i :: 0 <= i < calls ==> IsServed(outcomes[i], posted[i])
    ensures Sum(posted) == CountOf(client.log, PostCompletion)
    ensures Sum(posted) > 0 ==> Sum(posted) <= client.maxRequests
  {
    hide CountOf, IsProper, NeedsToken, Sum, IsOutcome, IsServed;
    outcomes, posted := [], [];
    NoneOfNothing(PostCompletion);
    NothingPosted();
    for n := 0 to calls
      invariant client.Valid() && |outcomes| == |posted| == n && Sum(posted) == CountOf(client.log, PostCompletion)
      invariant forall i :: 0 <= i < n ==> IsServed(outcomes[i], posted[i])
    {
      ghost var (log, before) := (client.log, client.sleeps);
      var o := client.Complete();
      OutcomeIsServed(o, log, client.log, |before|, client.sleeps, client.service, client.clock);
      ghost var own: nat := CountOf(client.log, PostCompletion) - CountOf(log, PostCompletion);
      SumGrows(posted, own);
      outcomes, posted := outcomes + [o], posted + [own];
    }
    SomeOfAll(client.log, PostCompletion);
  }

  lemma OutcomeIsServed(o: Outcome, before: seq<Request>, log: seq<Request>, m: nat, sleeps: seq<Sleep>, service: Service,
                        clock: Clock)
    requires IsOutcome(o, before, log, m, sleeps, service, clock)
    ensures before <= log && CountOf(before, PostCompletion) <= CountOf(log, PostCompletion)
    ensures IsServed(o, CountOf(log, PostCompletion) - CountOf(before, PostCompletion))
  {
    hide CountOf, OnlyLastEnds, HasEnded, EndsAnswered, AreWaits;
  }

  lemma NothingPosted()
    ensures Sum([]) == 0
  {
  }

  // ----- the run whose replies these are --------------------------------------------------------

  /** The loop's reply is what the client returned or threw. */
  predicate IsReplyOf(reply: Questions.Reply, o: Outcome)
  {
    match o
    case Answer(attempts) => reply.Response? && reply.attempts == attempts
    case Error(failure, attempts) => reply == Questions.CallError(attempts, failure == Budget, failure == Fatal)
  }

  /** How many prompts a reply is charged with: those of its failed attempts, and that of its answer. */
  function PromptsOf(reply: Questions.Reply): (n: nat)
  {
    Questions.FailedAttempts(reply) + if reply.Response? then 1 else 0
  }

  function PromptTotal(setup: Questions.Setup, calls: nat): (n: nat)
  {
    if calls == 0 then 0 else PromptTotal(setup, calls - 1) + PromptsOf(setup.llm(calls - 1))
  }

  /** The calls a run made are those of a client: its replies are what came of them. */
  ghost predicate RanOn(setup: Questions.Setup, asked: seq<Questions.Asked>, outcomes: seq<Outcome>, posted: seq<nat>)
  {
    && |asked| == |outcomes| == |posted|
    && forall i :: 0 <= i < |outcomes| ==> IsServed(outcomes[i], posted[i]) && IsReplyOf(setup.llm(i), outcomes[i])
  }

  /** The error does not say how many completions it took. */
  predicate SaysNothing(o: Outcome) { o.Error? && o.errorAttempts.None? }

  lemma ChargedIsPosted(reply: Questions.Reply, o: Outcome, posted: nat)
    requires IsServed(o, posted) && IsReplyOf(reply, o)
    ensures if SaysNothing(o) then PromptsOf(reply) == 1 else PromptsOf(reply) == posted
  {
  }

  /** Only what ends a run says nothing, and only a call that ends it can be fatal or over the budget. */
  lemma GoesOn(reply: Questions.Reply, o: Outcome, posted: nat)
    requires IsServed(o, posted) && IsReplyOf(reply, o) && !Questions.IsFatal(reply) && !Questions.IsOverBudget(reply)
    ensures (o.Answer? || o.failure == GaveUp) && !SaysNothing(o)
  {
  }

  lemma {:induction false} TotalsAgree(setup: Questions.Setup, outcomes: seq<Outcome>, posted: seq<nat>, n: nat)
    requires n <= |outcomes| == |posted|
    requires forall i :: 0 <= i < n ==>
               IsServed(outcomes[i], posted[i]) && IsReplyOf(setup.llm(i), outcomes[i]) && !SaysNothing(outcomes[i])
    ensures PromptTotal(setup, n) == Sum(posted[..n])
    ensures Sum(posted[..n]) <= RETRIES * n
    decreases n
  {
    hide IsReplyOf, PromptsOf;
    if n > 0 {
      TotalsAgree(setup, outcomes, posted, n - 1);
      ChargedIsPosted(setup.llm(n - 1), outcomes[n - 1], posted[n - 1]);
      assert posted[..n][..n - 1] == posted[..n - 1];
    }
  }

  /** A run on the client. Only its last call can fail for good, which the run throws on, or find the cap on requests
      spent, which stops it as its own limit does; every other one is answered or given up after all attempts. The
      prompts it is charged with are the completions that were posted, to the number, unless its last call failed without
      saying how many it took: that one counts as one prompt, and posted at most three completions. */
  lemma RunOnClient(setup: Questions.Setup, plan: map<string, seq<QuestionWindows.Window>>, rounds: nat, outcomes: seq<Outcome>,
                    posted: seq<nat>)
    requires Questions.IsPlanned(plan) && plan.Keys <= setup.mix.Keys
    requires RanOn(setup, Questions.Rounds(setup, Questions.Begin(plan), rounds).state.asked, outcomes, posted)
    ensures var (o, n) := (Questions.Rounds(setup, Questions.Begin(plan), rounds), |outcomes|);
      && (n > 0 ==> n <= setup.maxCalls) && Sum(posted) <= RETRIES * n
      && (forall i :: 0 <= i < n - 1 ==> outcomes[i].Answer? || outcomes[i].failure == GaveUp)
      && (n > 0 && outcomes[n - 1].Error? && outcomes[n - 1].failure == Fatal ==> o.flow == Questions.Throw)
      && (n > 0 && outcomes[n - 1].Error? && outcomes[n - 1].failure == Budget ==>
            o.flow == Questions.Stop && o.state.stopped == Questions.MaxCalls)
      && (if n > 0 && SaysNothing(outcomes[n - 1])
          then PromptTotal(setup, n) == Sum(posted) - posted[n - 1] + 1
          else PromptTotal(setup, n) == Sum(posted))
  {
    hide Questions.IsPlanned, Questions.Rounds, Questions.IsAccounted, Questions.HasBlankFrom, Questions.WithinBudget, IsServed,
      IsReplyOf, SaysNothing, Sum, PromptTotal, PromptsOf, Questions.IsFatal, Questions.IsOverBudget;
    Questions.EveryRunEnds(setup, plan, rounds);
    var (o, n) := (Questions.Rounds(setup, Questions.Begin(plan), rounds), |outcomes|);
    forall i | 0 <= i < n - 1 ensures (outcomes[i].Answer? || outcomes[i].failure == GaveUp) && !SaysNothing(outcomes[i]) {
      GoesOn(setup.llm(i), outcomes[i], posted[i]);
    }
    if n == 0 {
      assert posted[..0] == posted;
      TotalsAgree(setup, outcomes, posted, 0);
    } else {
      Questions.CallsWithinLimit(setup, o.state.asked);
      LastEnds(setup.llm(n - 1), outcomes[n - 1]);
      LastTotal(setup, outcomes, posted);
    }
  }

  lemma LastEnds(reply: Questions.Reply, o: Outcome)
    requires IsReplyOf(reply, o)
    ensures Questions.IsFatal(reply) <==> o.Error? && o.failure == Fatal
    ensures Questions.IsOverBudget(reply) <==> o.Error? && o.failure == Budget
  {
  }

  lemma LastTotal(setup: Questions.Setup, outcomes: seq<Outcome>, posted: seq<nat>)
    requires |outcomes| == |posted| > 0
    requires forall i :: 0 <= i < |outcomes| ==> IsServed(outcomes[i], posted[i]) && IsReplyOf(setup.llm(i), outcomes[i])
    requires forall i :: 0 <= i < |outcomes| - 1 ==> !SaysNothing(outcomes[i])
    ensures var n := |outcomes|;
      && Sum(posted) <= RETRIES * n
      && PromptTotal(setup, n) == if SaysNothing(outcomes[n - 1]) then Sum(posted) - posted[n - 1] + 1 else Sum(posted)
  {
    hide IsReplyOf, PromptsOf, SaysNothing;
    var n := |outcomes|;
    TotalsAgree(setup, outcomes, posted, n - 1);
    ChargedIsPosted(setup.llm(n - 1), outcomes[n - 1], posted[n - 1]);
  }
}
