/** Retry with backoff (packages/chain/chain-errors/src/index.ts:92-149), the progress marker
    (packages/service/service-runtime/src/health.ts) and the liveness probe (healthRoutes.ts:37-56). */
module Retry {
  import opened Prelude
  import opened Submit

  datatype RetryPolicy = RetryPolicy(maxRetries: int, baseDelayMs: nat)

  function BackoffDelayMs(policy: RetryPolicy, attempt: nat): nat { policy.baseDelayMs * Pow2(attempt) }

  function MaxBackoffDelayMs(policy: RetryPolicy): nat {
    if policy.maxRetries >= 2 then BackoffDelayMs(policy, policy.maxRetries - 2) else 0
  }

  // ----- HealthMonitor and the two probes -----

  datatype HealthStatus = Starting | Healthy | Degraded | Unhealthy

  datatype Monitor = Monitor(status: HealthStatus, lastCompletedAt: int, lastProgressAt: int)

  /** A call of `record` or of `markProgress`, with the clock reading. */
  datatype Signal = Recorded(status: HealthStatus, at: int) | Progressed(at: int)

  function Note(m: Monitor, signal: Signal): Monitor {
    match signal
    case Recorded(status, at) => Monitor(status, at, at)
    case Progressed(at) => m.(lastProgressAt := at)
  }

  class HealthMonitor {
    var status: HealthStatus
    var lastCompletedAt: int
    var lastProgressAt: int

    function Snapshot(): Monitor
      reads this
    {
      Monitor(status, lastCompletedAt, lastProgressAt)
    }

    constructor ()
      ensures Snapshot() == Monitor(Starting, 0, 0)
    {
      status, lastCompletedAt, lastProgressAt := Starting, 0, 0;
    }

    method Record(s: HealthStatus, now: int)
      modifies this
      ensures Snapshot() == Note(old(Snapshot()), Recorded(s, now))
    {
      status := s;
      lastCompletedAt := now;
      lastProgressAt := now;
    }

    method MarkProgress(now: int)
      modifies this`lastProgressAt
      ensures Snapshot() == Note(old(Snapshot()), Progressed(now))
    {
      lastProgressAt := now;
    }
  }

  predicate IsAlive(lastProgressAt: int, registeredAt: int, livenessTimeoutMs: int, now: int) {
    var reference := if lastProgressAt == 0 then registeredAt else lastProgressAt;
    now - reference < livenessTimeoutMs
  }

  predicate IsReady(status: HealthStatus) { status == Healthy || status == Degraded }

  function AfterSignals(signals: seq<Signal>): Monitor {
    if signals == [] then Monitor(Starting, 0, 0)
    else Note(AfterSignals(signals[..|signals| - 1]), signals[|signals| - 1])
  }

  /** The clock is positive and does not run backwards. */
  predicate Timeline(signals: seq<Signal>, now: int) {
    (forall i :: 0 <= i < |signals| ==> 1 <= signals[i].at <= now) &&
    (forall i, j :: 0 <= i < j < |signals| ==> signals[i].at <= signals[j].at)
  }

  /** Signal `i` records a status, and no later one does. */
  predicate IsLastRecord(signals: seq<Signal>, i: nat) {
    i < |signals| && signals[i].Recorded? && forall j :: i < j < |signals| ==> signals[j].Progressed?
  }

  /** The two probes after any calls. Liveness: some signal, completed work included, lies within the window, counted from
      registration if there was none. Readiness: the last recorded status is healthy or degraded; progress alone is not. The
      last completion is that of the last record. */
  lemma {:induction false} ProbesExactly(signals: seq<Signal>, registeredAt: int, window: int, now: int)
    requires Timeline(signals, now)
    ensures IsAlive(AfterSignals(signals).lastProgressAt, registeredAt, window, now) <==>
            if signals == [] then now - registeredAt < window
            else exists i :: 0 <= i < |signals| && now - signals[i].at < window
    ensures IsReady(AfterSignals(signals).status) <==>
            exists i: nat :: IsLastRecord(signals, i) && (signals[i].status == Healthy || signals[i].status == Degraded)
    ensures forall i: nat :: IsLastRecord(signals, i) ==> AfterSignals(signals).lastCompletedAt == signals[i].at
    ensures (forall i: nat :: !IsLastRecord(signals, i)) ==> AfterSignals(signals).lastCompletedAt == 0
  {
    LastRecordCounts(signals);
    if signals != [] {
      assert AfterSignals(signals).lastProgressAt == signals[|signals| - 1].at;
    }
  }

  lemma {:induction false} LastRecordCounts(signals: seq<Signal>)
    ensures forall i: nat :: IsLastRecord(signals, i) ==>
              AfterSignals(signals).status == signals[i].status && AfterSignals(signals).lastCompletedAt == signals[i].at
    ensures (forall i: nat :: !IsLastRecord(signals, i)) ==>
              AfterSignals(signals).status == Starting && AfterSignals(signals).lastCompletedAt == 0
  {
    if signals != [] {
      var front, last := signals[..|signals| - 1], |signals| - 1;
      LastRecordCounts(front);
      if signals[last].Recorded? {
        assert IsLastRecord(signals, last);
      } else {
        assert forall i: nat :: IsLastRecord(front, i) <==> IsLastRecord(signals, i);
      }
    }
  }

  // ----- withRetry -----

  /** What one call of the operation does: its outcome and how long it takes. */
  datatype Attempt<+T> = Attempt(outcome: Result<T, Thrown>, duration: nat)

  /** The retry hook's argument. */
  datatype RetryInfo = RetryInfo(attempt: nat, delayMs: nat)

  predicate Retries<T>(a: Attempt<T>) { a.outcome.Err? && a.outcome.error.Retryable? }

  /** The clock at the start of attempt `k`. */
  function StartOf<T>(script: nat -> Attempt<T>, policy: RetryPolicy, start: int, k: nat): int {
    if k == 0 then start
    else StartOf(script, policy, start, k - 1) + script(k - 1).duration + BackoffDelayMs(policy, k - 1)
  }

  /** Attempt `k` started at its mark and failed in a retryable way. */
  predicate Tried<T>(script: nat -> Attempt<T>, policy: RetryPolicy, start: int, marks: seq<int>, k: nat)
    requires k < |marks|
  {
    marks[k] == StartOf(script, policy, start, k) && Retries(script(k))
  }

  /** One run of `withRetry`: `marks` are the clock readings of `onAttempt`, `end` is when it settles. */
  ghost predicate IsRetryRun<T(!new)>(script: nat -> Attempt<T>, policy: RetryPolicy, start: int, marks: seq<int>,
      end: int) {
    var n := |marks|;
    && (policy.maxRetries <= 0 <==> n == 0)
    && (n > 0 ==>
          && n <= policy.maxRetries
          && marks[n - 1] == StartOf(script, policy, start, n - 1)
          && (forall k :: 0 <= k < n - 1 ==> Tried(script, policy, start, marks, k))
          && (n < policy.maxRetries ==> !Retries(script(n - 1)))
          && end == marks[n - 1] + script(n - 1).duration)
    && (n == 0 ==> end == start)
  }

  /** The error of a loop that never ran: `new Error(String(undefined))`. */
  const NO_ATTEMPT := OtherError("undefined")

  /** The loop at the start of attempt `|marks|`: every attempt so far failed in a retryable way. */
  ghost predicate Retrying<T(!new)>(script: nat -> Attempt<T>, policy: RetryPolicy, start: int, marks: seq<int>,
      clock: int) {
    && clock == StartOf(script, policy, start, |marks|)
    && forall k :: 0 <= k < |marks| ==> Tried(script, policy, start, marks, k)
  }

  predicate InfosOf(policy: RetryPolicy, retries: seq<RetryInfo>) {
    forall k :: 0 <= k < |retries| ==> retries[k] == RetryInfo(k + 1, BackoffDelayMs(policy, k))
  }

  method WithRetry<T(!new)>(script: nat -> Attempt<T>, policy: RetryPolicy, monitor: HealthMonitor, start: int)
    returns (r: Result<T, Thrown>, marks: seq<int>, retries: seq<RetryInfo>, end: int)
    modifies monitor`lastProgressAt
    ensures IsRetryRun(script, policy, start, marks, end)
    ensures r == if |marks| == 0 then Err(NO_ATTEMPT) else script(|marks| - 1).outcome
    ensures |retries| == (if |marks| == 0 then 0 else |marks| - 1) && InfosOf(policy, retries)
    ensures monitor.lastProgressAt == if |marks| == 0 then old(monitor.lastProgressAt) else marks[|marks| - 1]
  {
    hide BackoffDelayMs, StartOf, Retrying, IsRetryRun;
    marks, retries, end := [], [], start;
    NothingYet(script, policy, start);
    var lastError := NO_ATTEMPT;
    var attempt := 0;
    while attempt < policy.maxRetries
      invariant |marks| == attempt == |retries| && (if policy.maxRetries > 0 then attempt < policy.maxRetries else attempt == 0)
      invariant Retrying(script, policy, start, marks, end) && InfosOf(policy, retries)
      invariant monitor.lastProgressAt == if attempt == 0 then old(monitor.lastProgressAt) else marks[attempt - 1]
      invariant attempt == 0 ==> end == start && lastError == NO_ATTEMPT
      decreases policy.maxRetries - attempt
    {
      ghost var before := marks;
      marks := marks + [end];
      monitor.MarkProgress(end);
      var a := script(attempt);
      if a.outcome.Ok? {
        LastAttempt(script, policy, start, before, end);
        return a.outcome, marks, retries, end + a.duration;
      }
      lastError := a.outcome.error;
      if !lastError.Retryable? || attempt == policy.maxRetries - 1 {
        LastAttempt(script, policy, start, before, end);
        return Err(lastError), marks, retries, end + a.duration;
      }
      AnotherAttempt(script, policy, start, before, end);
      var delayMs := BackoffDelayMs(policy, attempt);
      retries := retries + [RetryInfo(attempt + 1, delayMs)];
      end := end + a.duration + delayMs;
      attempt := attempt + 1;
    }
    NoAttempt(script, policy, start);
    assert marks == [];
    r := Err(lastError);
  }

  lemma NothingYet<T(!new)>(script: nat -> Attempt<T>, policy: RetryPolicy, start: int)
    ensures Retrying(script, policy, start, [], start)
  {
  }

  lemma NoAttempt<T(!new)>(script: nat -> Attempt<T>, policy: RetryPolicy, start: int)
    ensures policy.maxRetries <= 0 ==> IsRetryRun(script, policy, start, [], start)
  {
  }

  lemma AnotherAttempt<T(!new)>(script: nat -> Attempt<T>, policy: RetryPolicy, start: int, marks: seq<int>, clock: int)
    requires Retrying(script, policy, start, marks, clock) && Retries(script(|marks|))
    ensures Retrying(script, policy, start, marks + [clock],
                     clock + script(|marks|).duration + BackoffDelayMs(policy, |marks|))
  {
    KeepTried(script, policy, start, marks, clock);
    assert StartOf(script, policy, start, |marks| + 1) ==
           clock + script(|marks|).duration + BackoffDelayMs(policy, |marks|);
    hide BackoffDelayMs, StartOf;
  }

  lemma LastAttempt<T(!new)>(script: nat -> Attempt<T>, policy: RetryPolicy, start: int, marks: seq<int>, clock: int)
    requires Retrying(script, policy, start, marks, clock) && |marks| < policy.maxRetries
    requires |marks| + 1 < policy.maxRetries ==> !Retries(script(|marks|))
    ensures IsRetryRun(script, policy, start, marks + [clock], clock + script(|marks|).duration)
  {
    KeepTried(script, policy, start, marks, clock);
    hide BackoffDelayMs, StartOf, Tried;
  }

  lemma KeepTried<T(!new)>(script: nat -> Attempt<T>, policy: RetryPolicy, start: int, marks: seq<int>, clock: int)
    requires forall k :: 0 <= k < |marks| ==> Tried(script, policy, start, marks, k)
    ensures forall k :: 0 <= k < |marks| ==> Tried(script, policy, start, marks + [clock], k)
  {
    hide StartOf;
    forall k | 0 <= k < |marks|
      ensures Tried(script, policy, start, marks + [clock], k)
    {
      assert Tried(script, policy, start, marks, k);
    }
  }

  // ----- What a run looks like -----

  /** The script and the policy determine the run. */
  lemma RetryRunIsUnique<T(!new)>(script: nat -> Attempt<T>, policy: RetryPolicy, start: int,
      m1: seq<int>, e1: int, m2: seq<int>, e2: int)
    requires IsRetryRun(script, policy, start, m1, e1) && IsRetryRun(script, policy, start, m2, e2)
    ensures m1 == m2 && e1 == e2
  {
    hide StartOf;
    SameMarks(script, policy, start, m1, e1, m2, e2);
    forall k | 0 <= k < |m1|
      ensures m1[k] == m2[k]
    {
      assert k < |m1| - 1 ==> Tried(script, policy, start, m1, k) && Tried(script, policy, start, m2, k);
    }
  }

  lemma SameMarks<T(!new)>(script: nat -> Attempt<T>, policy: RetryPolicy, start: int,
      m1: seq<int>, e1: int, m2: seq<int>, e2: int)
    requires IsRetryRun(script, policy, start, m1, e1) && IsRetryRun(script, policy, start, m2, e2)
    ensures |m1| == |m2|
  {
    hide StartOf;
    assert 0 < |m1| < |m2| ==> Tried(script, policy, start, m2, |m1| - 1);
    assert 0 < |m2| < |m1| ==> Tried(script, policy, start, m1, |m2| - 1);
  }

  /** `withRetry` around `submitSigned`: what the n-th submission does, and how long it takes. */
  function SignedScript(races: nat -> Race<TxFinalized>, durations: nat -> nat, tag: string, transient: string -> bool)
    : nat -> Attempt<string> {
    (k: nat) => Attempt(SubmitSigned(races(k), tag, transient), durations(k))
  }

  /** Submission `k` is made if and only if every one before it timed out or failed transiently: what has been finalized,
      with a successful dispatch or a failed one, is never submitted again, and nothing retryable is given up early. */
  lemma SignedAttemptsExactly(races: nat -> Race<TxFinalized>, durations: nat -> nat, tag: string,
      transient: string -> bool, policy: RetryPolicy, start: int, marks: seq<int>, end: int, k: nat)
    requires IsRetryRun(SignedScript(races, durations, tag, transient), policy, start, marks, end) && k < policy.maxRetries
    ensures k < |marks| <==> forall j :: 0 <= j < k ==> FailsTransiently(races(j), transient)
    ensures races(k).OpResolved? ==> |marks| <= k + 1
  {
    var script := SignedScript(races, durations, tag, transient);
    forall j: nat
      ensures Retries(script(j)) <==> FailsTransiently(races(j), transient)
    {
      SignedOutcomeExactly(races(j), tag, transient);
    }
    hide SubmitSigned, StartOf, FailsTransiently;
    var n := |marks|;
    forall j | 0 <= j < n - 1
      ensures FailsTransiently(races(j), transient)
    {
      assert Tried(script, policy, start, marks, j);
    }
    if n <= k {
      assert !FailsTransiently(races(n - 1), transient);
    }
    SignedOutcomeExactly(races(k), tag, transient);
    assert k < n - 1 ==> FailsTransiently(races(k), transient);
    ResolvedIsFinal(races(k), transient);
  }

  lemma ResolvedIsFinal(race: Race<TxFinalized>, transient: string -> bool)
    ensures race.OpResolved? ==> !FailsTransiently(race, transient)
  {
  }

  function TotalDuration<T>(script: nat -> Attempt<T>, k: nat): nat {
    if k == 0 then 0 else TotalDuration(script, k - 1) + script(k - 1).duration
  }

  /** The sleeps before attempt `k` (0-based) add up to base * (2^k - 1). */
  lemma {:induction false} TotalSleep<T>(script: nat -> Attempt<T>, policy: RetryPolicy, start: int, k: nat)
    ensures StartOf(script, policy, start, k) - start - TotalDuration(script, k) == policy.baseDelayMs * (Pow2(k) - 1)
  {
    if k > 0 {
      TotalSleep(script, policy, start, k - 1);
      DoubleDelay(policy.baseDelayMs, Pow2(k - 1));
    }
  }

  lemma DoubleDelay(base: nat, p: nat)
    ensures base * (p - 1) + base * p == base * (2 * p - 1)
  {
  }

  /** No sleep of a run is longer than the bound exported for sizing the liveness window. */
  lemma BackoffIsBounded(policy: RetryPolicy, k: nat)
    requires k + 2 <= policy.maxRetries
    ensures BackoffDelayMs(policy, k) <= MaxBackoffDelayMs(policy)
  {
    Pow2Monotonic(k, policy.maxRetries - 2);
    MulMonotonic(Pow2(k), Pow2(policy.maxRetries - 2), policy.baseDelayMs);
  }

  // ----- Liveness -----

  ghost predicate Bounded<T(!new)>(script: nat -> Attempt<T>, d: nat) { forall k :: script(k).duration <= d }

  /** A probe at `now`, after mark `i` of the run and before the next one (or before the run settles). */
  predicate ProbedAt(marks: seq<int>, end: int, i: nat, now: int) {
    i < |marks| && marks[i] <= now <= if i + 1 < |marks| then marks[i + 1] else end
  }

  ghost predicate AlwaysAlive(marks: seq<int>, end: int, registeredAt: int, window: int) {
    forall i: nat, now: int :: ProbedAt(marks, end, i, now) ==> IsAlive(marks[i], registeredAt, window, now)
  }

  /** Between two marks lie one attempt and one sleep. */
  lemma GapIsBounded<T(!new)>(script: nat -> Attempt<T>, policy: RetryPolicy, start: int, marks: seq<int>, end: int,
      d: nat, i: nat, now: int)
    requires IsRetryRun(script, policy, start, marks, end) && Bounded(script, d)
    requires ProbedAt(marks, end, i, now)
    ensures now - marks[i] <= d + MaxBackoffDelayMs(policy)
  {
    assert script(i).duration <= d;
    if i + 1 < |marks| {
      BackoffIsBounded(policy, i);
      assert Tried(script, policy, start, marks, i);
      assert i + 1 < |marks| - 1 ==> Tried(script, policy, start, marks, i + 1);
      assert marks[i + 1] == StartOf(script, policy, start, i + 1);
      hide MaxBackoffDelayMs, BackoffDelayMs;
      assert marks[i + 1] == marks[i] + script(i).duration + BackoffDelayMs(policy, i);
    } else {
      hide MaxBackoffDelayMs, BackoffDelayMs;
      assert end == marks[i] + script(i).duration;
    }
  }

  lemma {:induction false} StartsPositive<T>(script: nat -> Attempt<T>, policy: RetryPolicy, start: int, k: nat)
    ensures StartOf(script, policy, start, k) >= start
  {
    if k > 0 {
      StartsPositive(script, policy, start, k - 1);
    }
  }

  /** With a window above the longest attempt plus the longest sleep, no probe of any run reports a wedge. */
  lemma RetryingReadsAlive<T(!new)>(script: nat -> Attempt<T>, policy: RetryPolicy, start: int, marks: seq<int>, end: int,
      d: nat, registeredAt: int, window: int)
    requires start > 0 && IsRetryRun(script, policy, start, marks, end) && Bounded(script, d)
    requires window > d + MaxBackoffDelayMs(policy)
    ensures AlwaysAlive(marks, end, registeredAt, window)
  {
    forall i: nat, now: int | ProbedAt(marks, end, i, now)
      ensures IsAlive(marks[i], registeredAt, window, now)
    {
      GapIsBounded(script, policy, start, marks, end, d, i, now);
      StartsPositive(script, policy, start, i);
      assert i < |marks| - 1 ==> Tried(script, policy, start, marks, i);
    }
  }

  /** The script in which every attempt takes `d` and fails in a retryable way. */
  function WorstCase(d: nat): nat -> Attempt<()> { k => Attempt(Err(Retryable("timeout")), d) }

  function StartsOf<T>(script: nat -> Attempt<T>, policy: RetryPolicy, start: int, n: nat): (marks: seq<int>)
    ensures |marks| == n && forall k {:trigger marks[k]} :: 0 <= k < n ==> marks[k] == StartOf(script, policy, start, k)
  {
    seq(n, k requires 0 <= k < n => StartOf(script, policy, start, k))
  }

  /** No smaller window will do: the slowest run has a probe that reads a wedge. */
  lemma SmallerWindowFails(policy: RetryPolicy, start: int, d: nat, registeredAt: int, window: int)
    requires start > 0 && policy.maxRetries > 0 && window <= d + MaxBackoffDelayMs(policy)
    ensures var marks := StartsOf(WorstCase(d), policy, start, policy.maxRetries);
            var end := marks[policy.maxRetries - 1] + d;
            IsRetryRun(WorstCase(d), policy, start, marks, end) && Bounded(WorstCase(d), d) &&
            !AlwaysAlive(marks, end, registeredAt, window)
  {
    var n := policy.maxRetries;
    var marks := StartsOf(WorstCase(d), policy, start, n);
    var end := marks[n - 1] + d;
    var i := if n >= 2 then n - 2 else 0;
    StartsPositive(WorstCase(d), policy, start, i);
    var now := if n >= 2 then marks[n - 1] else end;
    hide BackoffDelayMs;
    assert n >= 2 ==> marks[n - 1] == marks[i] + d + BackoffDelayMs(policy, i);
    assert ProbedAt(marks, end, i, now);
    assert !IsAlive(marks[i], registeredAt, window, now);
  }

  ghost predicate WindowSuffices(policy: RetryPolicy, d: nat, window: int) {
    forall script: nat -> Attempt<()>, start: int, marks: seq<int>, end: int, registeredAt: int ::
      start > 0 && IsRetryRun(script, policy, start, marks, end) && Bounded(script, d) ==>
      AlwaysAlive(marks, end, registeredAt, window)
  }

  /** The windows that never kill a retrying service are exactly those above attempt plus longest sleep. */
  lemma LivenessWindowExactly(policy: RetryPolicy, d: nat, window: int)
    requires policy.maxRetries > 0
    ensures WindowSuffices(policy, d, window) <==> window > d + MaxBackoffDelayMs(policy)
  {
    if window > d + MaxBackoffDelayMs(policy) {
      forall script: nat -> Attempt<()>, start: int, marks: seq<int>, end: int, registeredAt: int
        | start > 0 && IsRetryRun(script, policy, start, marks, end) && Bounded(script, d)
        ensures AlwaysAlive(marks, end, registeredAt, window)
      {
        RetryingReadsAlive(script, policy, start, marks, end, d, registeredAt, window);
      }
    } else {
      SmallerWindowFails(policy, 1, d, 0, window);
    }
  }
}
