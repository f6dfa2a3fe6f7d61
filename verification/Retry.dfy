/** Retries with backoff and the bounded concurrent map (`apps/api/src/lib/retry.ts`). */
module Retry {
  import opened Common

  // ---- Backoff ----

  const ATTEMPTS: nat := 5
  const MIN_DELAY_MS: nat := 1_000
  const MAX_DELAY_MS: nat := 30_000
  const MAX_RETRY_AFTER_MS: nat := 120_000
  const JITTER_RATIO: real := 0.5

  function Pow2(n: nat): (r: nat)
    ensures r >= 1
  {
    if n == 0 then 1 else 2 * Pow2(n - 1)
  }

  /** `Math.round`. */
  function Round(x: real): int {
    (x + 0.5).Floor
  }

  datatype Limits = Limits(attempts: int, minDelayMs: nat, maxDelayMs: nat, maxRetryAfterMs: nat)

  /** `minDelayMs * 2 ** max(0, attempt - 1)`. */
  function Doubled(minDelayMs: nat, attempt: nat): nat {
    minDelayMs * Pow2(if attempt > 0 then attempt - 1 else 0)
  }

  function Exponential(limits: Limits, attempt: nat): int {
    Min(limits.maxDelayMs, Doubled(limits.minDelayMs, attempt))
  }

  function Jittered(base: int, random: real): int {
    Round(base as real * (1.0 + random * JITTER_RATIO))
  }

  function BackoffDelayMs(limits: Limits, attempt: nat, random: real): int {
    Min(limits.maxDelayMs, Max(limits.minDelayMs, Jittered(Exponential(limits, attempt), random)))
  }

  lemma RoundBounds(x: real, low: int, doubleHigh: int)
    requires low as real <= x && 2.0 * x <= doubleHigh as real
    ensures low <= Round(x) && 2 * Round(x) <= doubleHigh + 1
  {
    var r := Round(x);
    assert x - 0.5 < r as real <= x + 0.5;
    assert (low - 1) as real < r as real;
    assert (2 * r) as real <= (doubleHigh + 1) as real;
  }

  lemma JitterOnTop(base: int, random: real)
    requires base >= 0 && 0.0 <= random < 1.0
    ensures base <= Jittered(base, random) && 2 * Jittered(base, random) <= 3 * base + 1
  {
    var b := base as real;
    var x := random * JITTER_RATIO;
    Scale(b, 0.0, x);
    Scale(b, x, 0.5);
    var jittered := b * (1.0 + x);
    assert jittered == b + b * x;
    assert (3 * base) as real == 3.0 * b;
    RoundBounds(jittered, base, 3 * base);
  }

  lemma Scale(b: real, x: real, y: real)
    requires b >= 0.0 && x <= y
    ensures b * x <= b * y
  {}

  lemma Clamped(low: nat, high: nat, product: int, rounded: int)
    requires low <= product
    requires var base := Min(high, product); base <= rounded && 2 * rounded <= 3 * base + 1
    ensures var base, delay := Min(high, product), Min(high, Max(low, rounded));
      base <= delay <= high && (low <= high <==> delay >= low) && 2 * delay <= Max(2 * low, 3 * base + 1)
  {}

  /** The delay lies between the un-jittered curve and the ceiling, at most half as much again,
      and never below the floor unless the ceiling itself is. */
  lemma BackoffBounds(limits: Limits, attempt: nat, random: real)
    requires 0.0 <= random < 1.0
    ensures var delay := BackoffDelayMs(limits, attempt, random);
      && Exponential(limits, attempt) <= delay <= limits.maxDelayMs
      && (limits.minDelayMs <= limits.maxDelayMs <==> delay >= limits.minDelayMs)
      && 2 * delay <= Max(2 * limits.minDelayMs, 3 * Exponential(limits, attempt) + 1)
  {
    Grows(limits.minDelayMs, attempt);
    var base := Exponential(limits, attempt);
    JitterOnTop(base, random);
    Clamped(limits.minDelayMs, limits.maxDelayMs, Doubled(limits.minDelayMs, attempt), Jittered(base, random));
  }

  lemma Grows(minDelayMs: nat, attempt: nat)
    ensures Doubled(minDelayMs, attempt) >= minDelayMs
  {
    AtLeast(minDelayMs, Pow2(if attempt > 0 then attempt - 1 else 0));
  }

  lemma AtLeast(a: nat, b: nat)
    requires b >= 1
    ensures a * b >= a
  {}

  /** Each attempt waits at least as long as the one before would have without jitter. */
  lemma CurveRises(limits: Limits, attempt: nat)
    ensures Exponential(limits, attempt) <= Exponential(limits, attempt + 1)
  {
    if attempt > 0 {
      assert Pow2(attempt) == 2 * Pow2(attempt - 1);
      Doubles(limits.minDelayMs, Pow2(attempt - 1));
    }
  }

  lemma Doubles(a: nat, b: nat)
    ensures a * (2 * b) >= a * b
  {}

  /** The un-jittered delay starts at the floor and doubles with each attempt, up to the ceiling. */
  lemma CurveDoubles(limits: Limits, attempt: nat)
    requires attempt >= 1
    ensures Exponential(limits, 1) == Min(limits.maxDelayMs, limits.minDelayMs)
    ensures Exponential(limits, attempt + 1) == Min(limits.maxDelayMs, 2 * Exponential(limits, attempt))
  {
    assert Pow2(0) == 1 && Pow2(attempt) == 2 * Pow2(attempt - 1);
    var d := limits.minDelayMs * Pow2(attempt - 1);
    assert limits.minDelayMs * Pow2(attempt) == 2 * d by { Twice(limits.minDelayMs, Pow2(attempt - 1)); }
  }

  lemma Twice(a: nat, b: nat)
    ensures a * (2 * b) == 2 * (a * b)
  {}

  /** Where neither limit cuts in, the delay is the curve and the drawn part of half of it again,
      to the nearest millisecond. */
  lemma {:induction false} JitterIsDrawn(limits: Limits, attempt: nat, random: real)
    requires 0.0 <= random < 1.0
    ensures var delay := BackoffDelayMs(limits, attempt, random);
      var drawn := Exponential(limits, attempt) as real * (1.0 + random / 2.0);
      && (delay < limits.maxDelayMs && delay > limits.minDelayMs ==>
            drawn - 0.5 <= delay as real <= drawn + 0.5)
      && (delay == limits.maxDelayMs ==>
            drawn >= limits.maxDelayMs as real - 0.5 || limits.minDelayMs >= limits.maxDelayMs)
  {
    var base := Exponential(limits, attempt);
    var x := base as real * (1.0 + random * JITTER_RATIO);
    assert x == base as real * (1.0 + random / 2.0);
    assert x - 0.5 < Round(x) as real <= x + 0.5;
  }

  /** The four waits of a call with the default limits: one to one and a half seconds, two to
      three, four to six, eight to twelve. */
  lemma DefaultCurve(random: real)
    requires 0.0 <= random < 1.0
    ensures var limits := Limits(ATTEMPTS, MIN_DELAY_MS, MAX_DELAY_MS, MAX_RETRY_AFTER_MS);
      && 1_000 <= BackoffDelayMs(limits, 1, random) <= 1_500 && 2_000 <= BackoffDelayMs(limits, 2, random) <= 3_000
      && 4_000 <= BackoffDelayMs(limits, 3, random) <= 6_000 && 8_000 <= BackoffDelayMs(limits, 4, random) <= 12_000
  {
    var limits := Limits(ATTEMPTS, MIN_DELAY_MS, MAX_DELAY_MS, MAX_RETRY_AFTER_MS);
    CurveDoubles(limits, 1);
    CurveDoubles(limits, 2);
    CurveDoubles(limits, 3);
    BackoffBounds(limits, 1, random);
    BackoffBounds(limits, 2, random);
    BackoffBounds(limits, 3, random);
    BackoffBounds(limits, 4, random);
  }

  // ---- Errors ----

  datatype ProviderError = ProviderError(
    aborts: bool, status: Option<int>, rateLimitReason: bool, socketFault: bool, retryAfterMs: Option<nat>)

  predicate IsRetryable(e: ProviderError) {
    !e.aborts
    && (e.status == Some(429) || e.rateLimitReason || (e.status.Some? && 500 <= e.status.value <= 599) || e.socketFault)
  }

  datatype AppError = Aborted | RateLimited | Upstream | Original(error: ProviderError)

  function ToAppError(e: ProviderError): AppError {
    if e.aborts then Aborted
    else if e.status == Some(429) || e.rateLimitReason then RateLimited
    else if IsRetryable(e) then Upstream
    else Original(e)
  }

  /** `Retry-After` replaces the curve, between the floor and its own ceiling. */
  function Delay(limits: Limits, attempt: nat, e: ProviderError, random: real): int {
    if e.retryAfterMs.None? then BackoffDelayMs(limits, attempt, random)
    else Max(limits.minDelayMs, Min(e.retryAfterMs.value, limits.maxRetryAfterMs))
  }

  /** The provider's time is respected exactly when it is within the ceiling (or the floor): a
      longer one is not handed to the queue, as the comment has it, but cut short. */
  lemma RetryAfterHonoured(limits: Limits, attempt: nat, e: ProviderError, random: real)
    requires e.retryAfterMs.Some?
    ensures Delay(limits, attempt, e, random) >= e.retryAfterMs.value
        <==> e.retryAfterMs.value <= Max(limits.minDelayMs, limits.maxRetryAfterMs)
    ensures limits.minDelayMs <= e.retryAfterMs.value <= limits.maxRetryAfterMs ==>
      Delay(limits, attempt, e, random) == e.retryAfterMs.value
    ensures e.retryAfterMs.value > limits.maxRetryAfterMs ==>
      Delay(limits, attempt, e, random) == Max(limits.minDelayMs, limits.maxRetryAfterMs)
    ensures e.retryAfterMs.value < limits.minDelayMs ==> Delay(limits, attempt, e, random) == limits.minDelayMs
  {}

  function Ceiling(limits: Limits): int {
    Max(limits.maxDelayMs, Max(limits.minDelayMs, limits.maxRetryAfterMs))
  }

  lemma DelayBounds(limits: Limits, attempt: nat, e: ProviderError, random: real)
    requires 0.0 <= random < 1.0
    ensures Min(limits.minDelayMs, limits.maxDelayMs) <= Delay(limits, attempt, e, random) <= Ceiling(limits)
  {
    BackoffBounds(limits, attempt, random);
  }

  // ---- The retry loop ----

  datatype Answer<T> = Success(value: T) | Failure(error: ProviderError)

  /** Attempt `k`: what the call came to, whether the job's signal was set by then, whether the
      wait after it was cut short, and the random number drawn for that wait. */
  datatype Try<T> = Try(answer: Answer<T>, signalled: bool, cut: bool, random: real)

  datatype Outcome<T> = Returned(value: T) | Threw(error: AppError) | NothingTried

  /** Attempt `k` failed in a way that leads to a wait and another attempt. */
  predicate Repeats<T>(limits: Limits, k: nat, t: Try<T>) {
    t.answer.Failure? && IsRetryable(t.answer.error) && !t.signalled && k < limits.attempts
  }

  /** `withRetry`. Calls are made until one succeeds or is not to be repeated; between two calls
      there is exactly one wait, of the length the failure asks for. A failure is repeated when
      it is a 429, says it is a rate limit, is a 5xx or a socket fault, and is no abort. */
  method WithRetry<T>(limits: Limits, tries: nat -> Try<T>) returns (r: Outcome<T>, calls: nat, waits: seq<int>)
    ensures calls == 0 <==> limits.attempts <= 0
    ensures calls <= Max(0, limits.attempts)
    ensures r.NothingTried? <==> calls == 0
    ensures forall k | 1 <= k < calls :: Repeats(limits, k, tries(k)) && !tries(k).cut
    ensures calls > 0 ==> !Repeats(limits, calls, tries(calls)) || tries(calls).cut
    ensures calls > 0 && tries(calls).answer.Success? ==> r == Returned(tries(calls).answer.value)
    ensures calls > 0 && tries(calls).answer.Failure? ==>
      r == Threw(if Repeats(limits, calls, tries(calls)) then Aborted else ToAppError(tries(calls).answer.error))
    ensures forall k | 1 <= k < calls ::
      tries(k).answer.Failure? && !tries(k).signalled && !tries(k).cut && !tries(k).answer.error.aborts
    ensures forall k | 1 <= k < calls && tries(k).answer.Failure? ::
      var e := tries(k).answer.error;
      e.rateLimitReason || e.socketFault || (e.status.Some? && (e.status.value == 429 || 500 <= e.status.value <= 599))
    ensures 0 < calls < limits.attempts && tries(calls).answer.Failure? && !tries(calls).signalled && !tries(calls).cut ==>
      var e := tries(calls).answer.error;
      e.aborts || !(e.rateLimitReason || e.socketFault || (e.status.Some? && (e.status.value == 429 || 500 <= e.status.value <= 599)))
    ensures calls > 0 && tries(calls).answer.Failure? ==>
      var e := tries(calls).answer.error;
      && (e.aborts ==> r == Threw(Aborted))
      && (!e.aborts && (calls >= limits.attempts || tries(calls).signalled) && (e.status == Some(429) || e.rateLimitReason) ==>
            r == Threw(RateLimited))
      && (!e.aborts && e.status.Some? && e.status.value < 429 && !e.rateLimitReason && !e.socketFault ==> r == Threw(Original(e)))
    ensures |waits| == if calls > 0 && Repeats(limits, calls, tries(calls)) then calls else Max(0, calls - 1)
    ensures forall k | 1 <= k <= |waits| ::
      tries(k).answer.Failure? && waits[k - 1] == Delay(limits, k, tries(k).answer.error, tries(k).random)
  {
    calls, waits := 0, [];
    var attempt := 1;
    while attempt <= limits.attempts
      invariant attempt == calls + 1 && |waits| == calls
      invariant if limits.attempts >= 1 then attempt <= limits.attempts else calls == 0
      invariant forall k | 1 <= k <= calls :: Repeats(limits, k, tries(k)) && !tries(k).cut
      invariant forall k | 1 <= k <= |waits| ::
        tries(k).answer.Failure? && waits[k - 1] == Delay(limits, k, tries(k).answer.error, tries(k).random)
    {
      calls := calls + 1;
      var t := tries(attempt);
      if t.answer.Success? { return Returned(t.answer.value), calls, waits; }
      var error := t.answer.error;
      if error.aborts || t.signalled || !IsRetryable(error) || attempt == limits.attempts {
        return Threw(ToAppError(error)), calls, waits;
      }
      waits := waits + [Delay(limits, attempt, error, t.random)];
      if t.cut { return Threw(Aborted), calls, waits; }
      attempt := attempt + 1;
    }
    return NothingTried, calls, waits;
  }

  function Sum(waits: seq<int>): int {
    if waits == [] then 0 else Sum(waits[..|waits| - 1]) + waits[|waits| - 1]
  }

  lemma {:induction false} SumBound(waits: seq<int>, ceiling: nat)
    requires forall k | 0 <= k < |waits| :: waits[k] <= ceiling
    ensures Sum(waits) <= |waits| * ceiling
  {
    if waits != [] {
      SumBound(waits[..|waits| - 1], ceiling);
      assert Sum(waits) == Sum(waits[..|waits| - 1]) + waits[|waits| - 1];
      assert |waits| * ceiling == (|waits| - 1) * ceiling + ceiling;
    }
  }

  /** A retried call with the default limits is over after five attempts and four waits of at
      most two minutes each. */
  lemma DefaultWaits(waits: seq<int>, errors: seq<ProviderError>, randoms: seq<real>)
    requires |waits| == |errors| == |randoms| && |waits| < ATTEMPTS
    requires forall k | 0 <= k < |waits| ::
      0.0 <= randoms[k] < 1.0
      && waits[k] == Delay(Limits(ATTEMPTS, MIN_DELAY_MS, MAX_DELAY_MS, MAX_RETRY_AFTER_MS), k + 1, errors[k], randoms[k])
    ensures forall w | w in waits :: MIN_DELAY_MS <= w <= MAX_RETRY_AFTER_MS
    ensures Sum(waits) <= 480_000
  {
    var limits := Limits(ATTEMPTS, MIN_DELAY_MS, MAX_DELAY_MS, MAX_RETRY_AFTER_MS);
    forall w | w in waits ensures MIN_DELAY_MS <= w <= MAX_RETRY_AFTER_MS {
      var k :| 0 <= k < |waits| && waits[k] == w;
      DelayBounds(limits, k + 1, errors[k], randoms[k]);
    }
    assert forall k | 0 <= k < |waits| :: waits[k] in waits;
    SumBound(waits, MAX_RETRY_AFTER_MS);
  }

  /** What the caller sees of a failure that was worth repeating is never the raw error. */
  lemma RetryableIsTyped(e: ProviderError)
    ensures ToAppError(e) == Original(e) <==> !e.aborts && !IsRetryable(e)
  {}

  // ---- The bounded concurrent map ----

  datatype Worker = Ready | Running(index: nat) | Finished | Rejected

  /** `starts` and `failures` record the tasks begun and the tasks that threw. */
  datatype Pool<T> = Pool(
    size: nat, cursor: nat, workers: seq<Worker>, results: seq<Option<T>>, aborted: bool,
    starts: seq<nat>, failures: set<nat>)

  /** A worker takes a turn; its task ends well or throws; the signal is set. */
  datatype Event = Turn(worker: nat) | Complete(worker: nat) | Throw(worker: nat) | Abort

  function WorkerCount(limit: int, size: nat): (n: nat)
    ensures 1 <= n && n <= Max(1, limit) && n <= Max(1, size)
  {
    Max(1, Min(limit, size))
  }

  function Start<T>(limit: int, size: nat): Pool<T> {
    Pool(size, 0, seq(WorkerCount(limit, size), i => Ready), seq(size, i => None), false, [], {})
  }

  function Turned<T>(s: Pool<T>, w: nat): Pool<T>
    requires w < |s.workers|
  {
    if s.aborted then s.(workers := s.workers[w := Rejected])
    else if s.cursor >= s.size then s.(cursor := s.cursor + 1, workers := s.workers[w := Finished])
    else s.(cursor := s.cursor + 1, workers := s.workers[w := Running(s.cursor)], starts := s.starts + [s.cursor])
  }

  /** One step; `task` is what each index's task resolves to. */
  function Step<T>(s: Pool<T>, task: nat -> T, e: Event): Pool<T> {
    match e
    case Turn(w) => if w < |s.workers| && s.workers[w].Ready? then Turned(s, w) else s
    case Complete(w) =>
      if w < |s.workers| && s.workers[w].Running? && s.workers[w].index < |s.results| then
        var i := s.workers[w].index;
        s.(results := s.results[i := Some(task(i))], workers := s.workers[w := Ready])
      else s
    case Throw(w) =>
      if w < |s.workers| && s.workers[w].Running? then
        s.(workers := s.workers[w := Rejected], failures := s.failures + {s.workers[w].index})
      else s
    case Abort => s.(aborted := true)
  }

  function Run<T>(s: Pool<T>, task: nat -> T, events: seq<Event>): Pool<T>
    decreases events
  {
    if events == [] then s else Run(Step(s, task, events[0]), task, events[1..])
  }

  lemma {:induction false} RunConcat<T>(s: Pool<T>, task: nat -> T, a: seq<Event>, b: seq<Event>)
    ensures Run(s, task, a + b) == Run(Run(s, task, a), task, b)
    decreases a
  {
    if a == [] {
      assert a + b == b;
    } else {
      assert (a + b)[1..] == a[1..] + b;
      RunConcat(Step(s, task, a[0]), task, a[1..], b);
    }
  }

  predicate IsRunning<T>(s: Pool<T>, w: nat, i: nat) {
    w < |s.workers| && s.workers[w] == Running(i)
  }

  /** Where a started task can be: done, failed, or with exactly one worker. */
  ghost predicate Accounted<T>(s: Pool<T>, task: nat -> T, i: nat)
    requires i < |s.results|
  {
    && (s.results[i].Some? ==> s.results[i].value == task(i))
    && (s.results[i].Some? || i in s.failures ==> forall w: nat :: !IsRunning(s, w, i))
    && (i < |s.starts| ==> s.results[i].Some? || i in s.failures || exists w: nat :: IsRunning(s, w, i))
    && (i >= |s.starts| ==> s.results[i].None? && i !in s.failures)
  }

  ghost predicate Inv<T>(s: Pool<T>, task: nat -> T) {
    && |s.results| == s.size && |s.starts| == Min(s.cursor, s.size)
    && (forall k | 0 <= k < |s.starts| :: s.starts[k] == k)
    && (forall w: nat, i: nat | IsRunning(s, w, i) :: i < |s.starts|)
    && (forall v: nat, w: nat, i: nat | IsRunning(s, v, i) && IsRunning(s, w, i) :: v == w)
    && (forall i: nat | i < s.size :: Accounted(s, task, i))
    && ((exists w: nat :: w < |s.workers| && s.workers[w].Finished?) ==> s.cursor >= s.size)
    && (forall w: nat | w < |s.workers| && s.workers[w].Rejected? :: s.aborted || s.failures != {})
    && (s.failures != {} ==> exists w: nat :: w < |s.workers| && s.workers[w].Rejected?)
  }

  lemma StartInv<T>(limit: int, size: nat, task: nat -> T)
    ensures Inv(Start<T>(limit, size), task)
  {}

  lemma KeepsRejected<T>(s: Pool<T>, t: Pool<T>, w: nat)
    requires w < |s.workers| && !s.workers[w].Rejected? && |t.workers| == |s.workers|
    requires forall v: nat | v < |s.workers| && v != w :: t.workers[v] == s.workers[v]
    requires t.failures != s.failures ==> t.workers[w].Rejected?
    requires s.failures != {} ==> exists v: nat :: v < |s.workers| && s.workers[v].Rejected?
    ensures t.failures != {} ==> exists v: nat :: v < |t.workers| && t.workers[v].Rejected?
  {
    if t.failures != {} && t.failures == s.failures {
      var v: nat :| v < |s.workers| && s.workers[v].Rejected?;
      assert t.workers[v].Rejected?;
    }
  }

  lemma TurnInv<T>(s: Pool<T>, task: nat -> T, w: nat)
    requires Inv(s, task) && w < |s.workers| && s.workers[w].Ready?
    ensures Inv(Step(s, task, Turn(w)), task)
  {
    var t := Step(s, task, Turn(w));
    var begins := !s.aborted && s.cursor < s.size;
    forall v: nat, i: nat ensures IsRunning(t, v, i) <==> IsRunning(s, v, i) || (begins && v == w && i == s.cursor) {}
    forall i: nat | i < t.size ensures Accounted(t, task, i) {
      assert Accounted(s, task, i);
      if begins && i == s.cursor {
        assert IsRunning(t, w, i);
      } else if i < |s.starts| && s.results[i].None? && i !in s.failures {
        var v: nat :| IsRunning(s, v, i);
        assert IsRunning(t, v, i);
      }
    }
    if v: nat :| v < |t.workers| && t.workers[v].Finished? && v != w {
      assert s.workers[v].Finished?;
    }
    forall v: nat | v < |t.workers| && t.workers[v].Rejected? ensures t.aborted || t.failures != {} {
      assert v != w ==> s.workers[v].Rejected?;
    }
    KeepsRejected(s, t, w);
  }

  lemma EndInv<T>(s: Pool<T>, task: nat -> T, w: nat, e: Event)
    requires Inv(s, task) && w < |s.workers| && s.workers[w].Running? && (e == Complete(w) || e == Throw(w))
    ensures Inv(Step(s, task, e), task)
  {
    var t := Step(s, task, e);
    var j := s.workers[w].index;
    assert IsRunning(s, w, j);
    assert Accounted(s, task, j);
    forall v: nat, i: nat ensures IsRunning(t, v, i) <==> IsRunning(s, v, i) && v != w {}
    forall i: nat | i < t.size ensures Accounted(t, task, i) {
      assert Accounted(s, task, i);
      if i != j && i < |s.starts| && s.results[i].None? && i !in s.failures {
        var v: nat :| IsRunning(s, v, i);
        assert IsRunning(t, v, i);
      }
    }
    if v: nat :| v < |t.workers| && t.workers[v].Finished? {
      assert s.workers[v].Finished?;
    }
    forall v: nat | v < |t.workers| && t.workers[v].Rejected? ensures t.aborted || t.failures != {} {
      assert v != w ==> s.workers[v].Rejected?;
    }
    KeepsRejected(s, t, w);
  }

  lemma AbortInv<T>(s: Pool<T>, task: nat -> T)
    requires Inv(s, task)
    ensures Inv(Step(s, task, Abort), task)
  {
    var t := Step(s, task, Abort);
    assert forall v: nat, i: nat :: IsRunning(t, v, i) <==> IsRunning(s, v, i);
    forall i: nat | i < t.size ensures Accounted(t, task, i) {
      assert Accounted(s, task, i);
    }
  }

  lemma StepInv<T>(s: Pool<T>, task: nat -> T, e: Event)
    requires Inv(s, task)
    ensures Inv(Step(s, task, e), task)
  {
    match e
    case Turn(w) => if w < |s.workers| && s.workers[w].Ready? { TurnInv(s, task, w); }
    case Complete(w) => if w < |s.workers| && s.workers[w].Running? { EndInv(s, task, w, e); }
    case Throw(w) => if w < |s.workers| && s.workers[w].Running? { EndInv(s, task, w, e); }
    case Abort => AbortInv(s, task);
  }

  lemma {:induction false} RunInv<T>(s: Pool<T>, task: nat -> T, events: seq<Event>)
    requires Inv(s, task)
    ensures Inv(Run(s, task, events), task)
    ensures |Run(s, task, events).workers| == |s.workers| && Run(s, task, events).size == s.size
    decreases events
  {
    if events != [] {
      StepInv(s, task, events[0]);
      RunInv(Step(s, task, events[0]), task, events[1..]);
    }
  }

  /** Every index is started at most once and in order, and what is stored under it is its own
      task's result. */
  lemma ClaimedOnce<T>(limit: int, size: nat, task: nat -> T, events: seq<Event>)
    ensures var t := Run(Start<T>(limit, size), task, events);
      && |t.results| == size && |t.starts| <= size
      && (forall k | 0 <= k < |t.starts| :: t.starts[k] == k)
      && (forall i | 0 <= i < size && t.results[i].Some? :: i < |t.starts| && t.results[i].value == task(i))
  {
    StartInv(limit, size, task);
    RunInv(Start<T>(limit, size), task, events);
    var t := Run(Start<T>(limit, size), task, events);
    forall i | 0 <= i < size && t.results[i].Some? ensures i < |t.starts| && t.results[i].value == task(i) {
      assert Accounted(t, task, i);
    }
  }

  function InFlight<T>(s: Pool<T>): set<nat> {
    set w | 0 <= w < |s.workers| && s.workers[w].Running? :: s.workers[w].index
  }

  lemma {:induction false} FlightBound(workers: seq<Worker>)
    ensures |set w | 0 <= w < |workers| && workers[w].Running? :: workers[w].index| <= |workers|
  {
    if workers != [] {
      var n := |workers| - 1;
      var front := workers[..n];
      FlightBound(front);
      var all := set w | 0 <= w < |workers| && workers[w].Running? :: workers[w].index;
      var some := set w | 0 <= w < |front| && front[w].Running? :: front[w].index;
      if workers[n].Running? {
        assert all == some + {workers[n].index};
      } else {
        assert all == some;
      }
    }
  }

  /** At most `limit` tasks are in flight (one, when the limit is not positive). */
  lemma AtMostLimitInFlight<T>(limit: int, size: nat, task: nat -> T, events: seq<Event>)
    ensures |InFlight(Run(Start<T>(limit, size), task, events))| <= Max(1, limit)
  {
    StartInv(limit, size, task);
    RunInv(Start<T>(limit, size), task, events);
    FlightBound(Run(Start<T>(limit, size), task, events).workers);
  }

  /** Once the signal is set no task starts any more. */
  lemma {:induction false} NothingStartsAfterAbort<T>(s: Pool<T>, task: nat -> T, events: seq<Event>)
    requires s.aborted
    ensures Run(s, task, events).starts == s.starts && Run(s, task, events).aborted
    decreases events
  {
    if events != [] { NothingStartsAfterAbort(Step(s, task, events[0]), task, events[1..]); }
  }

  predicate AllFinished<T>(s: Pool<T>) {
    forall w | 0 <= w < |s.workers| :: s.workers[w].Finished?
  }

  /** When the map resolves, no task threw and it resolves to all results in input order. */
  lemma ResolvesToAll<T>(limit: int, size: nat, task: nat -> T, events: seq<Event>)
    requires AllFinished(Run(Start<T>(limit, size), task, events))
    ensures var t := Run(Start<T>(limit, size), task, events);
      t.failures == {} && t.results == seq(size, i requires 0 <= i < size => Some(task(i)))
  {
    StartInv(limit, size, task);
    RunInv(Start<T>(limit, size), task, events);
    var t := Run(Start<T>(limit, size), task, events);
    assert t.workers[0].Finished?;
    forall i: nat | i < size ensures t.results[i] == Some(task(i)) {
      assert Accounted(t, task, i);
      assert forall w: nat :: !IsRunning(t, w, i);
    }
  }

  /** A task that throws rejects the map but does not stop it: the other workers go on
      starting tasks nobody waits for. */
  lemma FailureStopsNobody(task: nat -> int)
    ensures var t := Run(Start<int>(2, 3), task, [Turn(0), Turn(1), Throw(0), Complete(1), Turn(1)]);
      t.workers[0].Rejected? && !t.aborted && t.starts == [0, 1, 2]
  {
    var s0 := Start<int>(2, 3);
    var s1 := Step(s0, task, Turn(0));
    var s2 := Step(s1, task, Turn(1));
    var s3 := Step(s2, task, Throw(0));
    var s4 := Step(s3, task, Complete(1));
    var s5 := Step(s4, task, Turn(1));
    assert s5.starts == [0, 1, 2];
    assert Run(s4, task, [Turn(1)]) == s5 by { assert [Turn(1)][1..] == []; }
    assert [Complete(1), Turn(1)][1..] == [Turn(1)];
    assert [Throw(0), Complete(1), Turn(1)][1..] == [Complete(1), Turn(1)];
    assert [Turn(1), Throw(0), Complete(1), Turn(1)][1..] == [Throw(0), Complete(1), Turn(1)];
    assert [Turn(0), Turn(1), Throw(0), Complete(1), Turn(1)][1..] == [Turn(1), Throw(0), Complete(1), Turn(1)];
  }

  // ---- Every call comes to an end ----

  function Load(w: Worker): nat {
    match w
    case Ready => 1
    case Running(_) => 2
    case _ => 0
  }

  function LoadOf(workers: seq<Worker>): nat {
    if workers == [] then 0 else LoadOf(workers[..|workers| - 1]) + Load(workers[|workers| - 1])
  }

  lemma {:induction false} LoadUpdate(workers: seq<Worker>, w: nat, now: Worker)
    requires w < |workers|
    ensures LoadOf(workers[w := now]) == LoadOf(workers) - Load(workers[w]) + Load(now)
  {
    var n := |workers| - 1;
    if w < n {
      LoadUpdate(workers[..n], w, now);
      assert workers[w := now][..n] == workers[..n][w := now];
    } else {
      assert workers[w := now][..n] == workers[..n];
    }
  }

  /** How much is left at most: unclaimed tasks, and what the workers still have to do. */
  function Left<T>(s: Pool<T>): nat {
    3 * Max(0, s.size - s.cursor) + LoadOf(s.workers)
  }

  /** The event is about a worker that is still at it. */
  predicate Concerned<T>(s: Pool<T>, e: Event) {
    match e
    case Turn(w) => w < |s.workers| && s.workers[w].Ready?
    case Complete(w) => w < |s.workers| && s.workers[w].Running?
    case Throw(w) => w < |s.workers| && s.workers[w].Running?
    case Abort => false
  }

  /** Whatever a worker does next brings the call nearer to its end. */
  lemma EachStepCounts<T>(s: Pool<T>, task: nat -> T, e: Event)
    requires Concerned(s, e) && |s.results| == s.size
    requires e.Complete? ==> s.workers[e.worker].index < s.size
    ensures Left(Step(s, task, e)) < Left(s)
  {
    var t := Step(s, task, e);
    LoadUpdate(s.workers, e.worker, t.workers[e.worker]);
  }

  /** With nothing left every worker has returned or thrown. */
  lemma {:induction false} NothingLeftMeansDone(workers: seq<Worker>)
    requires LoadOf(workers) == 0
    ensures forall w | 0 <= w < |workers| :: workers[w].Finished? || workers[w].Rejected?
  {
    if workers != [] { NothingLeftMeansDone(workers[..|workers| - 1]); }
  }

  lemma LoadOfReady(n: nat)
    ensures LoadOf(seq(n, i => Ready)) == n
  {
    if n > 0 {
      LoadOfReady(n - 1);
      assert seq(n, i => Ready)[..n - 1] == seq(n - 1, i => Ready);
    }
  }

  /** Every event of the run is about a worker that is still at it. */
  predicate Busy<T>(s: Pool<T>, task: nat -> T, events: seq<Event>)
    decreases events
  {
    events == [] || (Concerned(s, events[0]) && Busy(Step(s, task, events[0]), task, events[1..]))
  }

  lemma {:induction false} BusyCounts<T>(s: Pool<T>, task: nat -> T, events: seq<Event>)
    requires Inv(s, task) && Busy(s, task, events)
    ensures Left(Run(s, task, events)) + |events| <= Left(s)
    decreases events
  {
    if events != [] {
      StepInv(s, task, events[0]);
      if events[0].Complete? { assert IsRunning(s, events[0].worker, s.workers[events[0].worker].index); }
      EachStepCounts(s, task, events[0]);
      BusyCounts(Step(s, task, events[0]), task, events[1..]);
    }
  }

  /** So no call does more than three things per task and one per worker, in whatever order its
      workers come to do them. */
  lemma CallsEnd<T>(limit: int, size: nat, task: nat -> T, events: seq<Event>)
    requires Busy(Start<T>(limit, size), task, events)
    ensures |events| <= 3 * size + WorkerCount(limit, size)
  {
    StartInv(limit, size, task);
    BusyCounts(Start<T>(limit, size), task, events);
    LoadOfReady(WorkerCount(limit, size));
  }

  // ---- The procedure ----

  /** The shared variables of one call, and where its workers stand. */
  class ConcurrentMap<T(0)> {
    const size: nat
    var cursor: nat
    var workers: array<Worker>
    var results: array<Option<T>>
    var aborted: bool
    ghost var starts: seq<nat>
    ghost var failures: set<nat>

    ghost function State(): Pool<T>
      reads this, workers, results
    {
      Pool(size, cursor, workers[..], results[..], aborted, starts, failures)
    }

    constructor (limit: int, size: nat)
      ensures fresh(workers) && fresh(results) && State() == Start(limit, size)
    {
      this.size, cursor, aborted, starts, failures := size, 0, false, [], {};
      workers := new Worker[WorkerCount(limit, size)](_ => Ready);
      results := new Option<T>[size](_ => None);
      new;
      assert workers[..] == seq(WorkerCount(limit, size), i => Ready);
      assert results[..] == seq(size, i => None);
    }

    /** The top of a worker's loop: stop on the signal, claim the next index, or finish. */
    method TakeTurn(w: nat)
      requires w < workers.Length && workers[w].Ready?
      modifies this, workers
      ensures workers == old(workers) && results == old(results)
      ensures State() == Turned(old(State()), w)
      ensures aborted == old(aborted) && results[..] == old(results[..]) && failures == old(failures)
      ensures forall v | 0 <= v < workers.Length && v != w :: workers[v] == old(workers[v])
      ensures aborted ==> workers[w] == Rejected && cursor == old(cursor) && starts == old(starts)
      ensures !aborted && old(cursor) < size ==>
        workers[w] == Running(old(cursor)) && cursor == old(cursor) + 1 && starts == old(starts) + [old(cursor)]
      ensures !aborted && old(cursor) >= size ==> workers[w] == Finished && starts == old(starts)
    {
      if aborted {
        workers[w] := Rejected;
      } else {
        var index := cursor;
        cursor := cursor + 1;
        if index >= size {
          workers[w] := Finished;
        } else {
          workers[w] := Running(index);
          starts := starts + [index];
        }
      }
    }

    /** The rest of the loop's body: the task's result lands under its own index. */
    method FinishTask(w: nat, task: nat -> T)
      requires w < workers.Length && workers[w].Running? && workers[w].index < results.Length
      modifies workers, results
      ensures workers == old(workers) && results == old(results)
      ensures State() == Step(old(State()), task, Complete(w))
      ensures workers[w] == Ready && results[old(workers[w]).index] == Some(task(old(workers[w]).index))
      ensures forall v | 0 <= v < workers.Length && v != w :: workers[v] == old(workers[v])
      ensures forall i | 0 <= i < results.Length && i != old(workers[w]).index :: results[i] == old(results[i])
    {
      var index := workers[w].index;
      results[index] := Some(task(index));
      workers[w] := Ready;
    }

    /** A task throws: its worker is gone, the others are not told. */
    method FailTask(w: nat)
      requires w < workers.Length && workers[w].Running?
      modifies this`failures, workers
      ensures workers == old(workers) && results == old(results)
      ensures workers[w].Rejected? && failures == old(failures) + {old(workers[w]).index}
      ensures forall v | 0 <= v < workers.Length && v != w :: workers[v] == old(workers[v])
    {
      failures := failures + {workers[w].index};
      workers[w] := Rejected;
    }

    /** The event loop: any order of turns, results, failures and the signal. */
    method Interleave(task: nat -> T, events: seq<Event>)
      modifies this, workers, results
      ensures workers == old(workers) && results == old(results)
      ensures State() == Run(old(State()), task, events)
    {
      ghost var start := State();
      assert events[0..] == events;
      for k := 0 to |events|
        invariant workers == old(workers) && results == old(results)
        invariant Run(State(), task, events[k..]) == Run(start, task, events)
      {
        assert events[k..][1..] == events[k + 1..];
        ghost var before := State();
        match events[k] {
          case Turn(w) => if w < workers.Length && workers[w].Ready? { TakeTurn(w); }
          case Complete(w) =>
            if w < workers.Length && workers[w].Running? && workers[w].index < results.Length { FinishTask(w, task); }
          case Throw(w) => if w < workers.Length && workers[w].Running? { FailTask(w); }
          case Abort => aborted := true;
        }
        assert State() == Step(before, task, events[k]);
      }
      assert events[|events|..] == [];
    }
  }
}
