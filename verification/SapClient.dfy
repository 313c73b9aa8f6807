/** The SAP AI Core client of the question generator: tokens, the deployment, retries, and the cap on HTTP
    requests that covers all of them. The service may answer anything. */
module SapClient {
  import opened Wrappers

  const RETRIES := 3
  const MAX_RETRY_AFTER_MS := 30000

  datatype Request = PostToken | GetDeployments | PostCompletion

  datatype Deployment = Deployment(id: string, status: string, scenarioId: string, createdAt: int)

  /** The `Retry-After` header: absent, seconds, or a date (as a time, when it parses). */
  datatype RetryAfter = Absent | Seconds(n: nat) | Date(at: Option<int>)

  /** What one HTTP request comes back with: its data, or a failure with or without a status. */
  datatype Reply =
    | Token(present: bool, expiresIn: int)
    | Deployments(resources: seq<Deployment>)
    | Completion
    | Failed(status: Option<int>, retryAfter: RetryAfter)

  /** The n-th request's reply, and the clock at the n-th reading: any functions. */
  type Service = nat -> Reply
  type Clock = nat -> int

  datatype Failure = Fatal | Budget | GaveUp

  /** What `complete` resolves to, or the error it throws; `attempts` as the error carries it. */
  datatype Outcome = Answer(attempts: nat) | Error(failure: Failure, errorAttempts: Option<nat>)

  /** Retry-After in milliseconds, bounded; `None` when absent or invalid. */
  function RetryAfterMs(value: RetryAfter, now: int): (ms: Option<int>)
    ensures ms.Some? ==> 0 <= ms.value <= MAX_RETRY_AFTER_MS
    ensures ms.None? <==> value.Absent? || (value.Date? && value.at.None?)
    ensures value.Seconds? && value.n <= 30 ==> ms == Some(1000 * value.n)
    ensures value.Date? && value.at.Some? && now <= value.at.value <= now + MAX_RETRY_AFTER_MS ==> ms == Some(value.at.value - now)
  {
    if value.Absent? || (value.Date? && value.at.None?) then None
    else
      var ms := if value.Seconds? then value.n * 1000 else value.at.value - now;
      Some(if ms < 0 then 0 else if ms > MAX_RETRY_AFTER_MS then MAX_RETRY_AFTER_MS else ms)
  }

  predicate IsRunning(d: Deployment) { d.status == "RUNNING" && d.scenarioId == "orchestration" }

  /** The running orchestration deployments. */
  function Running(ds: seq<Deployment>): (r: seq<Deployment>)
    ensures forall d :: d in r <==> d in ds && IsRunning(d)
  {
    if ds == [] then []
    else
      assert ds == [ds[0]] + ds[1..];
      if IsRunning(ds[0]) then [ds[0]] + Running(ds[1..]) else Running(ds[1..])
  }

  /** The first of the stable sort by creation time, newest first. */
  function Newest(ds: seq<Deployment>): (d: Deployment)
    requires ds != []
    ensures d in ds && forall e :: e in ds ==> e.createdAt <= d.createdAt
  {
    if |ds| == 1 then ds[0]
    else
      assert ds == [ds[0]] + ds[1..];
      var rest := Newest(ds[1..]);
      if ds[0].createdAt >= rest.createdAt then ds[0] else rest
  }

  /** The `k`-th deployment runs, none that runs is newer, and none before it is as new. */
  predicate IsNewestAt(ds: seq<Deployment>, k: nat)
  {
    && k < |ds| && IsRunning(ds[k])
    && forall j :: 0 <= j < |ds| && IsRunning(ds[j]) ==>
         ds[j].createdAt <= ds[k].createdAt && (j < k ==> ds[j].createdAt < ds[k].createdAt)
  }

  lemma {:induction false} NewestIsFirst(ds: seq<Deployment>) returns (k: nat)
    requires Running(ds) != []
    ensures IsNewestAt(ds, k) && ds[k] == Newest(Running(ds))
  {
    hide IsRunning;
    var rest := Running(ds[1..]);
    if rest == [] {
      assert forall j :: 0 < j < |ds| ==> ds[j] == ds[1..][j - 1];
      k := 0;
    } else {
      var later := NewestIsFirst(ds[1..]);
      assert forall j :: 0 < j < |ds| ==> ds[j] == ds[1..][j - 1];
      assert IsRunning(ds[0]) ==> ([ds[0]] + rest)[1..] == rest;
      k := if IsRunning(ds[0]) && ds[0].createdAt >= ds[1..][later].createdAt then 0 else later + 1;
    }
  }

  function CountOf(log: seq<Request>, r: Request): (n: nat)
  {
    multiset(log)[r]
  }

  lemma CountGrows(log: seq<Request>, r: Request)
    ensures forall x :: CountOf(log + [r], x) == CountOf(log, x) + if x == r then 1 else 0
  {
  }

  predicate IsUnauthorized(reply: Reply) { reply.Failed? && reply.status == Some(401) }

  /** A request log a client may leave: a token comes first, and a completion refused as unauthorized is
      followed by a new token before anything else. */
  ghost predicate IsProper(log: seq<Request>, service: Service)
  {
    && (log != [] ==> log[0] == PostToken)
    && forall i :: 0 <= i < |log| - 1 && log[i] == PostCompletion && service(i).Failed? && service(i).status == Some(401) ==>
         log[i + 1] == PostToken
  }

  predicate IsRetryable(status: Option<int>)
  {
    status.None? || status.value == 0 || status.value == 401 || status.value == 429 || status.value >= 500
  }

  // ----- what a reply means for the call --------------------------------------------------------

  /** A failure that may pass: no answer at all, an expired token, too many requests, or an error of the service. */
  predicate IsTransient(reply: Reply)
  {
    reply.Failed? && (reply.status.None? || reply.status.value in [0, 401, 429] || reply.status.value >= 500)
  }

  /** A call goes on after this reply to a request: with a token, with a running deployment, or with another attempt. */
  predicate GoesOn(r: Request, reply: Reply)
  {
    match r
    case PostToken => reply.Token? && reply.present
    case GetDeployments =>
      reply.Deployments?
      && exists d :: d in reply.resources && d.status == "RUNNING" && d.scenarioId == "orchestration"
    case PostCompletion => IsTransient(reply)
  }

  /** Of the requests from `start` on, all before the last go on. */
  ghost predicate OnlyLastEnds(log: seq<Request>, start: nat, service: Service)
  {
    forall i :: start <= i < |log| - 1 ==> GoesOn(log[i], service(i))
  }

  /** There is a last request from `start` on, and it does not go on. */
  ghost predicate HasEnded(log: seq<Request>, start: nat, service: Service)
  {
    |log| > start && !GoesOn(log[|log| - 1], service(|log| - 1))
  }

  lemma GoesOnToNext(log: seq<Request>, start: nat, r: Request, service: Service)
    requires start <= |log| && OnlyLastEnds(log, start, service) && !HasEnded(log, start, service)
    ensures OnlyLastEnds(log + [r], start, service)
    ensures HasEnded(log + [r], start, service) <==> !GoesOn(r, service(|log|))
  {
    hide GoesOn;
  }

  lemma NothingYet(log: seq<Request>, service: Service)
    ensures OnlyLastEnds(log, |log|, service) && !HasEnded(log, |log|, service)
  {
  }

  // ----- waiting --------------------------------------------------------------------------------

  /** A wait of `ms` milliseconds before the attempt after this one; `after` is the number of the refused request. */
  datatype Sleep = Sleep(after: nat, attempt: nat, ms: int)

  function Bounded(ms: int): (r: int) { if ms < 0 then 0 else if ms > 30000 then 30000 else ms }

  /** As long as the service asks for when it has too many requests; else two seconds, and four after the second attempt. */
  ghost predicate IsWait(reply: Reply, attempt: nat, ms: int, clock: Clock)
  {
    reply.Failed? &&
    if reply.status == Some(429) && reply.retryAfter.Seconds? then ms == Bounded(1000 * reply.retryAfter.n)
    else if reply.status == Some(429) && reply.retryAfter.Date? && reply.retryAfter.at.Some?
    then exists k: nat :: ms == Bounded(reply.retryAfter.at.value - clock(k))
    else ms == if attempt == 1 then 2000 else 4000
  }

  /** The sleeps from the `m`-th on are the waits after refused completions from `start` on, one for each attempt. */
  ghost predicate AreWaits(sleeps: seq<Sleep>, m: nat, log: seq<Request>, start: nat, service: Service, clock: Clock)
  {
    forall k :: m <= k < |sleeps| ==>
      && start <= sleeps[k].after < |log| && log[sleeps[k].after] == PostCompletion && sleeps[k].attempt == k - m + 1
      && IsWait(service(sleeps[k].after), k - m + 1, sleeps[k].ms, clock)
      && (k > m ==> sleeps[k - 1].after < sleeps[k].after)
  }

  lemma StillWaits(sleeps: seq<Sleep>, m: nat, log: seq<Request>, longer: seq<Request>, start: nat, service: Service, clock: Clock)
    requires AreWaits(sleeps, m, log, start, service, clock) && log <= longer
    ensures AreWaits(sleeps, m, longer, start, service, clock)
  {
    hide IsWait;
  }

  lemma WaitsGrow(sleeps: seq<Sleep>, m: nat, log: seq<Request>, start: nat, service: Service, clock: Clock, ms: int)
    requires AreWaits(sleeps, m, log, start, service, clock) && m <= |sleeps| && start <= |log|
    requires IsWait(service(|log|), |sleeps| - m + 1, ms, clock)
    ensures AreWaits(sleeps + [Sleep(|log|, |sleeps| - m + 1, ms)], m, log + [PostCompletion], start, service, clock)
  {
    hide IsWait;
  }

  /** The last request was a completion refused as unauthorized. */
  ghost predicate NeedsToken(log: seq<Request>, service: Service)
  {
    log == [] || (log[|log| - 1] == PostCompletion && IsUnauthorized(service(|log| - 1)))
  }

  lemma ProperGrows(log: seq<Request>, r: Request, service: Service)
    requires IsProper(log, service) && (NeedsToken(log, service) ==> r == PostToken)
    ensures IsProper(log + [r], service)
    ensures r != PostCompletion ==> !NeedsToken(log + [r], service)
    ensures r == PostCompletion && !IsUnauthorized(service(|log|)) ==> !NeedsToken(log + [r], service)
  {
  }

  lemma ListGoesOn(reply: Reply)
    ensures GoesOn(GetDeployments, reply) <==> reply.Deployments? && Running(reply.resources) != []
  {
    if reply.Deployments? && Running(reply.resources) != [] {
      assert Running(reply.resources)[0] in Running(reply.resources);
    }
  }

  lemma ListHasNewest(reply: Reply)
    requires reply.Deployments? && Running(reply.resources) != []
    ensures IsNewestOf(reply, Newest(Running(reply.resources)).id)
  {
    hide IsNewestAt, Running, Newest;
    var k := NewestIsFirst(reply.resources);
  }

  class Client {
    const maxRequests: int
    const service: Service
    const clock: Clock
    var requests: nat
    var readings: nat
    var token: bool
    var tokenExpiresAt: int
    var completionUrl: Option<string>
    ghost var log: seq<Request>
    ghost var sleeps: seq<Sleep>

    /** `stats.requests` counts the requests made, the cap holds, and completions go to a known deployment. */
    ghost predicate Valid()
      reads this
    {
      && requests == |log| && (requests == 0 || requests <= maxRequests)
      && IsProper(log, service) && (NeedsToken(log, service) ==> !token)
      && (completionUrl.None? ==> CountOf(log, PostCompletion) == 0)
      && forall i :: 0 <= i < |sleeps| ==> 0 <= sleeps[i].ms <= MAX_RETRY_AFTER_MS
    }

    constructor (maxRequests: int, service: Service, clock: Clock)
      ensures Valid() && log == [] && completionUrl == None && this.maxRequests == maxRequests
    {
      this.maxRequests, this.service, this.clock := maxRequests, service, clock;
      requests, readings, token, tokenExpiresAt, completionUrl, log, sleeps := 0, 0, false, 0, None, [], [];
    }

    method Now() returns (t: int)
      modifies this`readings
      ensures t == clock(old(readings)) && readings == old(readings) + 1
    {
      t := clock(readings);
      readings := readings + 1;
    }

    /** `spend()`: false when the cap is spent. */
    method Spend() returns (ok: bool)
      modifies this`requests
      ensures ok <==> old(requests) < maxRequests
      ensures requests == if ok then old(requests) + 1 else old(requests)
    {
      if requests >= maxRequests {
        return false;
      }
      requests := requests + 1;
      ok := true;
    }

    /** Counts a request and sends it; `None`, and nothing sent, when the cap is spent. A completion refused as
        unauthorized takes the token with it. */
    method Request(r: Request) returns (reply: Option<Reply>)
      requires Valid() && (r != PostToken ==> token) && (r == PostCompletion ==> completionUrl.Some?)
      modifies this`requests, this`log, this`token
      ensures Valid() && (reply.None? <==> old(requests) >= maxRequests)
      ensures reply.None? ==> log == old(log) && requests == old(requests) && token == old(token)
      ensures reply.Some? ==> log == old(log) + [r] && reply.value == service(|old(log)|)
      ensures reply.Some? && r != PostCompletion ==> !NeedsToken(log, service)
      ensures reply.Some? ==>
                token == (old(token) && !(r == PostCompletion && reply.value.Failed? && reply.value.status == Some(401)))
    {
      hide IsProper, NeedsToken, CountOf;
      var ok := Spend();
      if !ok {
        return None;
      }
      reply := Some(service(requests - 1));
      ProperGrows(log, r, service);
      CountGrows(log, r);
      log := log + [r];
      if r == PostCompletion && IsUnauthorized(reply.value) { token := false; }
    }

    /** There is no token, or less than a minute is left of it. */
    ghost predicate RefreshIsDue()
      reads this
    {
      !token || clock(readings) > tokenExpiresAt - 60000
    }

    /** A usable token, refreshed a minute before it expires. At most one request, and only a token request. */
    method AuthHeaders() returns (r: Option<Failure>)
      requires Valid()
      modifies this`requests, this`readings, this`token, this`tokenExpiresAt, this`log
      ensures Valid()
      ensures log == if old(RefreshIsDue() && requests < maxRequests) then old(log) + [PostToken] else old(log)
      ensures r.None? ==> token
      ensures r.None? <==> old(!RefreshIsDue()) || (old(requests) < maxRequests && GoesOn(PostToken, service(|old(log)|)))
      ensures r == Some(Budget) <==> old(RefreshIsDue() && requests >= maxRequests)
      ensures r == Some(Budget) ==> requests >= maxRequests
      ensures r == Some(Fatal) <==> old(RefreshIsDue() && requests < maxRequests) && !GoesOn(PostToken, service(|old(log)|))
      ensures r.None? && old(RefreshIsDue()) ==>
                exists k: nat :: k < readings && tokenExpiresAt == clock(k) + service(|old(log)|).expiresIn * 1000
      ensures old(!RefreshIsDue()) ==> tokenExpiresAt == old(tokenExpiresAt)
      ensures r != Some(GaveUp)
    {
      hide IsProper, NeedsToken, CountOf;
      var refresh := !token;
      if token {
        var now := Now();
        refresh := now > tokenExpiresAt - 60000;
      }
      if refresh {
        var reply := Request(PostToken);
        if reply.None? {
          return Some(Budget);
        }
        if !reply.value.Token? {
          return Some(Fatal);
        }
        token := reply.value.present;
        var now := Now();
        tokenExpiresAt := now + reply.value.expiresIn * 1000;
        if !token {
          return Some(Fatal);
        }
      }
      r := None;
    }

    /** The newest running orchestration deployment's address. */
    method FindDeployment() returns (r: Option<Failure>)
      requires Valid() && completionUrl.None?
      modifies this`requests, this`readings, this`token, this`tokenExpiresAt, this`log, this`completionUrl
      ensures Valid() && old(log) <= log && CountOf(log, PostCompletion) == CountOf(old(log), PostCompletion)
      ensures CountOf(log, GetDeployments) <= CountOf(old(log), GetDeployments) + 1
      ensures OnlyLastEnds(log, |old(log)|, service) && (r == Some(Fatal) <==> HasEnded(log, |old(log)|, service))
      ensures HasEnded(log, |old(log)|, service) ==> log[|log| - 1] != PostCompletion
      ensures r == Some(Budget) ==> |log| > |old(log)| ==> log[|log| - 1] == PostToken
      ensures r.None? <==> completionUrl.Some?
      ensures r.None? ==> log != [] && IsNewestOf(service(|log| - 1), completionUrl.value)
      ensures r == Some(Budget) ==> requests >= maxRequests
      ensures r != Some(GaveUp)
    {
      hide IsProper, NeedsToken, CountOf, IsRunning, IsNewestOf, Running, Newest, OnlyLastEnds, HasEnded, RefreshIsDue, GoesOn;
      NothingYet(log, service);
      GoesOnToNext(log, |log|, PostToken, service);
      CountGrows(log, PostToken);
      var failure := AuthHeaders();
      if failure.Some? {
        return failure;
      }
      CountGrows(log, GetDeployments);
      GoesOnToNext(log, |old(log)|, GetDeployments, service);
      var reply := Request(GetDeployments);
      if reply.None? {
        return Some(Budget);
      }
      ListGoesOn(reply.value);
      if !reply.value.Deployments? {
        return Some(Fatal);
      }
      var running := Running(reply.value.resources);
      if running == [] {
        return Some(Fatal);
      }
      ListHasNewest(reply.value);
      completionUrl := Some(Newest(running).id);
      r := None;
    }

    /** How long to wait after a failed attempt: longer after the second, and as the service asks when it refuses. */
    method WaitFor(reply: Reply, attempt: nat) returns (wait: int)
      requires Valid() && reply.Failed?
      modifies this`readings
      ensures Valid() && 0 <= wait <= MAX_RETRY_AFTER_MS
      ensures IsWait(reply, attempt, wait, clock)
    {
      wait := 2000 * (if attempt == 1 then 1 else 2);
      if reply.status == Some(429) {
        var now := Now();
        var after := RetryAfterMs(reply.retryAfter, now);
        if after.Some? { wait := after.value; }
      }
    }

    /** `sleep(wait)`. */
    method Pause(ghost after: nat, attempt: nat, wait: int)
      requires Valid() && 0 <= wait <= MAX_RETRY_AFTER_MS
      modifies this`sleeps
      ensures Valid() && sleeps == old(sleeps) + [Sleep(after, attempt, wait)]
    {
      hide IsProper, NeedsToken, CountOf;
      sleeps := sleeps + [Sleep(after, attempt, wait)];
    }

    /** One completion, with up to three attempts. */
    method Complete() returns (o: Outcome)
      requires Valid()
      modifies this
      ensures Valid() && IsOutcome(o, old(log), log, |old(sleeps)|, sleeps, service, clock)
      ensures old(sleeps) <= sleeps && (o.Error? && o.failure == Budget ==> requests >= maxRequests)
      ensures CountOf(log, GetDeployments) <= CountOf(old(log), GetDeployments) + if old(completionUrl).None? then 1 else 0
    {
      hide IsProper, NeedsToken, CountOf, OnlyLastEnds, HasEnded, RefreshIsDue, GoesOn, AreWaits, IsWait, IsTransient,
        IsUnauthorized, IsUnderway, IsOutcome, Valid;
      ghost var (before, m) := (log, |sleeps|);
      Begins(log, sleeps, service, clock);
      if completionUrl.None? {
        var failure := FindDeployment();
        Listed(before, log, sleeps, service, clock);
        if failure.Some? {
          if failure.value == Budget { OverBudget(before, log, m, sleeps, 0, service, clock); }
          return Error(failure.value, None);
        }
      }
      var attempt := 1;
      while true
        invariant Valid() && completionUrl.Some? && 1 <= attempt <= RETRIES && old(sleeps) <= sleeps
        invariant IsUnderway(before, log, m, sleeps, attempt - 1, service, clock)
        invariant CountOf(log, GetDeployments) <= CountOf(before, GetDeployments) + if old(completionUrl).None? then 1 else 0
        decreases RETRIES - attempt
      {
        CountGrows(log, PostToken);
        TokenSent(before, log, m, sleeps, attempt - 1, service, clock);
        OverBudget(before, log, m, sleeps, attempt - 1, service, clock);
        var failure := AuthHeaders();
        if failure.Some? {
          return Error(failure.value, None);
        }
        CountGrows(log, PostCompletion);
        OverBudget(before, log, m, sleeps, attempt - 1, service, clock);
        ghost var sent := log;
        var reply := Request(PostCompletion);
        if reply.None? {
          return Error(Budget, Some(attempt - 1));
        }
        CompletionSent(before, sent, m, sleeps, attempt - 1, service, clock);
        if !reply.value.Failed? {
          return Answer(attempt);
        }
        if !IsRetryable(reply.value.status) {
          return Error(Fatal, None);
        }
        if attempt >= RETRIES {
          return Error(GaveUp, Some(attempt));
        }
        var wait := WaitFor(reply.value, attempt);
        WaitedFor(before, sent, m, sleeps, attempt - 1, service, clock, wait);
        Pause(|sent|, attempt, wait);
        attempt := attempt + 1;
      }
    }
  }

  // ----- what a call comes to -------------------------------------------------------------------

  /** The last request is a completion that did not fail. */
  ghost predicate EndsAnswered(log: seq<Request>, service: Service)
  {
    log != [] && log[|log| - 1] == PostCompletion && !service(|log| - 1).Failed?
  }

  /** What a call comes to, by the requests it adds to those of `before` and the replies to them. All but the last go on:
      a usable token, a listing with a running deployment, a completion that failed in a way that may pass. It is answered
      exactly when the last is a completion that did not fail, fatal exactly when the last does not go on otherwise, given
      up exactly when three completions went on, and over the budget exactly when another request was due. It waits after
      every completion that another attempt follows. */
  ghost predicate IsOutcome(o: Outcome, before: seq<Request>, log: seq<Request>, m: nat, sleeps: seq<Sleep>, service: Service,
                            clock: Clock)
  {
    var n := CountOf(log, PostCompletion) - CountOf(before, PostCompletion);
    var (ended, answered) := (HasEnded(log, |before|, service), EndsAnswered(log, service));
    && before <= log && OnlyLastEnds(log, |before|, service) && 0 <= n <= RETRIES
    && (o.Answer? <==> ended && answered)
    && (o.Error? && o.failure == Fatal <==> ended && !answered)
    && (o.Error? && o.failure == GaveUp <==> !ended && n == RETRIES)
    && (o.Error? && o.failure == Budget <==> !ended && n < RETRIES)
    && (o.Answer? ==> 1 <= o.attempts == n)
    && (o.Error? && o.failure == Fatal ==> o.errorAttempts == None)
    && (o.Error? && o.errorAttempts.Some? ==> o.errorAttempts.value == n)
    && (o.Error? && o.failure == GaveUp ==> o.errorAttempts.Some?)
    && AreWaits(sleeps, m, log, |before|, service, clock)
    && |sleeps| - m ==
         if o.Error? && o.failure == Budget then n else if log != [] && log[|log| - 1] == PostCompletion then n - 1 else n
  }

  /** A call that may go on: after `attempts` completions that failed, each waited for. */
  ghost predicate IsUnderway(before: seq<Request>, log: seq<Request>, m: nat, sleeps: seq<Sleep>, attempts: nat, service: Service,
                             clock: Clock)
  {
    && before <= log && CountOf(log, PostCompletion) - CountOf(before, PostCompletion) == attempts
    && OnlyLastEnds(log, |before|, service) && !HasEnded(log, |before|, service)
    && AreWaits(sleeps, m, log, |before|, service, clock) && |sleeps| == m + attempts
  }

  lemma Begins(log: seq<Request>, sleeps: seq<Sleep>, service: Service, clock: Clock)
    ensures IsUnderway(log, log, |sleeps|, sleeps, 0, service, clock)
  {
    hide CountOf, GoesOn, IsWait;
  }

  lemma OverBudget(before: seq<Request>, log: seq<Request>, m: nat, sleeps: seq<Sleep>, attempts: nat, service: Service, clock: Clock)
    requires IsUnderway(before, log, m, sleeps, attempts, service, clock) && attempts < RETRIES
    ensures IsOutcome(Error(Budget, None), before, log, m, sleeps, service, clock)
    ensures IsOutcome(Error(Budget, Some(attempts)), before, log, m, sleeps, service, clock)
  {
    hide CountOf, GoesOn, IsWait, AreWaits, OnlyLastEnds, HasEnded;
  }

  lemma Listed(before: seq<Request>, log: seq<Request>, sleeps: seq<Sleep>, service: Service, clock: Clock)
    requires before <= log && CountOf(log, PostCompletion) == CountOf(before, PostCompletion)
    requires OnlyLastEnds(log, |before|, service)
    requires HasEnded(log, |before|, service) ==> log[|log| - 1] != PostCompletion
    ensures if HasEnded(log, |before|, service) then IsOutcome(Error(Fatal, None), before, log, |sleeps|, sleeps, service, clock)
            else IsUnderway(before, log, |sleeps|, sleeps, 0, service, clock)
  {
    hide CountOf, GoesOn, IsWait, OnlyLastEnds;
  }

  lemma TokenSent(before: seq<Request>, log: seq<Request>, m: nat, sleeps: seq<Sleep>, attempts: nat, service: Service, clock: Clock)
    requires IsUnderway(before, log, m, sleeps, attempts, service, clock) && attempts < RETRIES
    ensures if GoesOn(PostToken, service(|log|))
            then IsUnderway(before, log + [PostToken], m, sleeps, attempts, service, clock)
            else IsOutcome(Error(Fatal, None), before, log + [PostToken], m, sleeps, service, clock)
  {
    hide CountOf, GoesOn, IsWait, AreWaits, OnlyLastEnds, HasEnded;
    CountGrows(log, PostToken);
    GoesOnToNext(log, |before|, PostToken, service);
    StillWaits(sleeps, m, log, log + [PostToken], |before|, service, clock);
  }

  lemma CompletionGoesOn(reply: Reply)
    ensures GoesOn(PostCompletion, reply) <==> reply.Failed? && IsRetryable(reply.status)
  {
  }

  lemma CompletionSent(before: seq<Request>, log: seq<Request>, m: nat, sleeps: seq<Sleep>, attempts: nat, service: Service,
                       clock: Clock)
    requires IsUnderway(before, log, m, sleeps, attempts, service, clock) && attempts < RETRIES
    ensures var (after, reply) := (log + [PostCompletion], service(|log|));
      && (!reply.Failed? ==> IsOutcome(Answer(attempts + 1), before, after, m, sleeps, service, clock))
      && (reply.Failed? && !IsRetryable(reply.status) ==> IsOutcome(Error(Fatal, None), before, after, m, sleeps, service, clock))
      && (reply.Failed? && IsRetryable(reply.status) && attempts + 1 == RETRIES ==>
            IsOutcome(Error(GaveUp, Some(RETRIES)), before, after, m, sleeps, service, clock))
  {
    hide CountOf, GoesOn, IsWait, AreWaits, OnlyLastEnds, HasEnded, IsRetryable;
    CountGrows(log, PostCompletion);
    GoesOnToNext(log, |before|, PostCompletion, service);
    CompletionGoesOn(service(|log|));
    StillWaits(sleeps, m, log, log + [PostCompletion], |before|, service, clock);
  }

  lemma WaitedFor(before: seq<Request>, log: seq<Request>, m: nat, sleeps: seq<Sleep>, attempts: nat, service: Service, clock: Clock,
                  wait: int)
    requires IsUnderway(before, log, m, sleeps, attempts, service, clock) && attempts < RETRIES
    requires IsWait(service(|log|), attempts + 1, wait, clock) && service(|log|).Failed? && IsRetryable(service(|log|).status)
    ensures IsUnderway(before, log + [PostCompletion], m, sleeps + [Sleep(|log|, attempts + 1, wait)], attempts + 1, service, clock)
  {
    hide CountOf, GoesOn, IsWait, AreWaits, OnlyLastEnds, HasEnded, IsRetryable;
    CountGrows(log, PostCompletion);
    GoesOnToNext(log, |before|, PostCompletion, service);
    CompletionGoesOn(service(|log|));
    WaitsGrow(sleeps, m, log, |before|, service, clock, wait);
  }

  /** `url` is the newest running orchestration deployment of a listing. */
  ghost predicate IsNewestOf(reply: Reply, url: string)
  {
    reply.Deployments? && exists k: nat :: IsNewestAt(reply.resources, k) && reply.resources[k].id == url
  }
}
