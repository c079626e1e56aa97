/** The memoized health check (packages/service/service-runtime/src/healthRoutes.ts:58-95). */
module CachedProbe {
  import opened Prelude

  /** A call at a clock reading, `throws` saying that `check()` would throw before it returns a promise;
      or the outstanding check settles: with a result, or None for a rejection. */
  datatype Event = Call(now: int, throws: bool) | Settles(now: int, result: Option<bool>)

  /** What a call resolves to. Checks are numbered in the order they are started. */
  datatype Response = Cached(healthy: bool) | Shared(check: nat) | Threw

  datatype State = State(
    checkedAt: int,
    healthy: bool,
    inFlight: Option<nat>,
    // history: the clock at the start of each check, and (result, clock) at the end of each
    starts: seq<int>,
    ends: seq<(bool, int)>)

  const INIT := State(0, false, None, [], [])

  predicate Fresh(s: State, now: int, ttlMs: int) { now - s.checkedAt <= ttlMs && s.checkedAt != 0 }

  /** A rejected check counts as unreachable. */
  function ResultOf(result: Option<bool>): bool { result.Some? && result.value }

  function Step(s: State, e: Event, ttlMs: int): State {
    match e
    case Call(now, throws) =>
      if Fresh(s, now, ttlMs) || s.inFlight.Some? || throws then s
      else s.(inFlight := Some(|s.starts|), starts := s.starts + [now])
    case Settles(now, result) =>
      s.(healthy := ResultOf(result), checkedAt := now, inFlight := None, ends := s.ends + [(ResultOf(result), now)])
  }

  function Respond(s: State, now: int, throws: bool, ttlMs: int): Response {
    if Fresh(s, now, ttlMs) then Cached(s.healthy)
    else if s.inFlight.Some? then Shared(s.inFlight.value)
    else if throws then Threw
    else Shared(|s.starts|)
  }

  class Probe {
    const ttlMs: int
    var checkedAt: int
    var healthy: bool
    var inFlight: Option<nat>
    ghost var starts: seq<int>
    ghost var ends: seq<(bool, int)>
    var started: nat

    ghost function Now(): State
      reads this
    {
      State(checkedAt, healthy, inFlight, starts, ends)
    }

    constructor (ttlMs: int)
      ensures Now() == INIT && this.ttlMs == ttlMs && started == 0
    {
      this.ttlMs := ttlMs;
      checkedAt, healthy, inFlight, started := 0, false, None, 0;
      starts, ends := [], [];
    }

    method Check(now: int, throws: bool) returns (r: Response)
      requires started == |starts|
      modifies this
      ensures started == |starts|
      ensures Now() == Step(old(Now()), Call(now, throws), ttlMs)
      ensures r == Respond(old(Now()), now, throws, ttlMs)
    {
      if now - checkedAt <= ttlMs && checkedAt != 0 {
        return Cached(healthy);
      }
      if inFlight.None? {
        if throws {
          return Threw;
        }
        inFlight := Some(started);
        starts := starts + [now];
        started := started + 1;
      }
      r := Shared(inFlight.value);
    }

    method Settled(now: int, result: Option<bool>)
      modifies this
      ensures started == old(started)
      ensures Now() == Step(old(Now()), Settles(now, result), ttlMs)
    {
      var r := ResultOf(result);
      healthy := r;
      checkedAt := now;
      inFlight := None;
      ends := ends + [(r, now)];
    }
  }

  // ----- Runs under a nondecreasing positive clock -----

  function After(events: seq<Event>, ttlMs: int): State {
    if events == [] then INIT else Step(After(events[..|events| - 1], ttlMs), events[|events| - 1], ttlMs)
  }

  function Clock(events: seq<Event>): int { if events == [] then 1 else events[|events| - 1].now }

  predicate IsRun(events: seq<Event>, ttlMs: int) {
    events == [] ||
    var front, e := events[..|events| - 1], events[|events| - 1];
    IsRun(front, ttlMs) && Clock(front) <= e.now && (e.Settles? ==> After(front, ttlMs).inFlight.Some?)
  }

  /** What every reachable state satisfies. */
  predicate Good(s: State, clock: int, ttlMs: int) {
    var n := |s.starts|;
    && clock >= 1
    && s.inFlight == (if |s.ends| == n then None else Some(n - 1))
    && (|s.ends| == n || |s.ends| == n - 1)
    && (s.ends == [] ==> s.checkedAt == 0)
    && (s.ends != [] ==> s.ends[|s.ends| - 1] == (s.healthy, s.checkedAt) && 1 <= s.checkedAt <= clock)
    && (forall i :: 0 <= i < n ==> 1 <= s.starts[i] <= clock)
    && (forall i :: 0 <= i < |s.ends| ==> s.starts[i] <= s.ends[i].1 <= clock)
    && (forall i :: 0 < i < n ==> SpacedAt(s, i, ttlMs))
  }

  /** Check `i` started more than `ttlMs` after the check before it ended. */
  predicate SpacedAt(s: State, i: nat, ttlMs: int) {
    0 < i < |s.starts| && i <= |s.ends| && s.starts[i] > s.ends[i - 1].1 + ttlMs
  }

  lemma {:induction false} RunsAreGood(events: seq<Event>, ttlMs: int)
    requires IsRun(events, ttlMs)
    ensures Good(After(events, ttlMs), Clock(events), ttlMs)
  {
    if events != [] {
      var front, e := events[..|events| - 1], events[|events| - 1];
      RunsAreGood(front, ttlMs);
      StepKeepsGood(After(front, ttlMs), Clock(front), e, ttlMs);
    }
  }

  lemma StepKeepsGood(s: State, clock: int, e: Event, ttlMs: int)
    requires Good(s, clock, ttlMs) && clock <= e.now && (e.Settles? ==> s.inFlight.Some?)
    ensures Good(Step(s, e, ttlMs), e.now, ttlMs)
  {
    var t := Step(s, e, ttlMs);
    forall i | 0 < i < |s.starts|
      ensures SpacedAt(t, i, ttlMs)
    {
      assert SpacedAt(s, i, ttlMs);
    }
    if |t.starts| > |s.starts| > 0 {
      assert SpacedAt(t, |s.starts|, ttlMs);
    }
    hide SpacedAt;
  }

  /** The completed checks, told from the events alone: healthy exactly if the promise resolved to `true`, and when. */
  function Completed(events: seq<Event>): seq<(bool, int)> {
    if events == [] then []
    else
      var front, e := Completed(events[..|events| - 1]), events[|events| - 1];
      if e.Settles? then front + [(e.result == Some(true), e.now)] else front
  }

  /** The last completed check is at most `ttlMs` old. */
  predicate HasRecent(completed: seq<(bool, int)>, now: int, ttlMs: int) {
    completed != [] && now - completed[|completed| - 1].1 <= ttlMs
  }

  /** The clock at the start of each check, told from the events alone: a call starts one if no recent result is there, no
      check is outstanding, and `check` returns a promise. */
  function Begun(events: seq<Event>, ttlMs: int): seq<int> {
    if events == [] then []
    else
      var front, e := events[..|events| - 1], events[|events| - 1];
      var begun := Begun(front, ttlMs);
      if e.Call? && !HasRecent(Completed(front), e.now, ttlMs) && |begun| == |Completed(front)| && !e.throws
      then begun + [e.now]
      else begun
  }

  /** The two timestamps and the flag of the closure say no less than the whole history. */
  lemma {:induction false} StateIsHistory(events: seq<Event>, ttlMs: int)
    requires IsRun(events, ttlMs)
    ensures After(events, ttlMs).ends == Completed(events) && After(events, ttlMs).starts == Begun(events, ttlMs)
    ensures |Completed(events)| <= |Begun(events, ttlMs)| <= |Completed(events)| + 1
  {
    RunsAreGood(events, ttlMs);
    if events != [] {
      var front, e := events[..|events| - 1], events[|events| - 1];
      StateIsHistory(front, ttlMs);
      RunsAreGood(front, ttlMs);
      hide Good;
      if e.Call? {
        FreshExactly(front, e.now, ttlMs);
      }
    }
  }

  lemma FreshExactly(events: seq<Event>, now: int, ttlMs: int)
    requires IsRun(events, ttlMs) && After(events, ttlMs).ends == Completed(events)
    ensures var s := After(events, ttlMs);
            && (Fresh(s, now, ttlMs) <==> HasRecent(Completed(events), now, ttlMs))
            && (s.ends != [] ==> s.healthy == s.ends[|s.ends| - 1].0)
            && s.inFlight == (if |s.ends| == |s.starts| then None else Some(|s.ends|))
  {
    RunsAreGood(events, ttlMs);
  }

  /** What a call answers, told from the history alone: the last completed result, if it is at most `ttlMs` old; else the
      promise of the one outstanding check; else, unless `check` throws, that of a check of its own. */
  lemma CallsAreServed(events: seq<Event>, now: int, throws: bool, ttlMs: int)
    requires IsRun(events, ttlMs) && Clock(events) <= now
    ensures var completed, begun := Completed(events), Begun(events, ttlMs);
            Respond(After(events, ttlMs), now, throws, ttlMs) ==
            if HasRecent(completed, now, ttlMs) then Cached(completed[|completed| - 1].0)
            else if |begun| > |completed| then Shared(|completed|)
            else if throws then Threw
            else Shared(|begun|)
  {
    StateIsHistory(events, ttlMs);
    FreshExactly(events, now, ttlMs);
  }

  /** Checks are spaced: each starts more than `ttlMs` after the one before it. */
  lemma {:induction false} ChecksAreSpaced(s: State, clock: int, ttlMs: int, i: nat, k: nat)
    requires Good(s, clock, ttlMs) && i + k < |s.starts| && k > 0
    ensures s.starts[i + k] - s.starts[i] > k * ttlMs
    decreases k
  {
    assert SpacedAt(s, i + k, ttlMs);
    assert s.ends[i + k - 1].1 >= s.starts[i + k - 1];
    if k > 1 {
      ChecksAreSpaced(s, clock, ttlMs, i, k - 1);
    }
  }

  /** Over any run, the k-th check (k >= 2) starts more than (k-1)*ttlMs after the first. */
  lemma ProbeCannotHammer(events: seq<Event>, ttlMs: int, k: nat)
    requires IsRun(events, ttlMs) && 2 <= k <= |After(events, ttlMs).starts|
    ensures var s := After(events, ttlMs); s.starts[k - 1] - s.starts[0] > (k - 1) * ttlMs
  {
    RunsAreGood(events, ttlMs);
    ChecksAreSpaced(After(events, ttlMs), Clock(events), ttlMs, 0, k - 1);
  }

  /** The clock at each invocation of `check`, the ones that throw included. */
  function Invocations(events: seq<Event>, ttlMs: int): seq<int> {
    if events == [] then []
    else
      var front, e := events[..|events| - 1], events[|events| - 1];
      var s := After(front, ttlMs);
      if e.Call? && !Fresh(s, e.now, ttlMs) && s.inFlight.None? then Invocations(front, ttlMs) + [e.now]
      else Invocations(front, ttlMs)
  }

  /** No call that finds neither a fresh result nor an outstanding check meets a check that throws. */
  predicate NoneThrows(events: seq<Event>, ttlMs: int) {
    events == [] ||
    var front, e := events[..|events| - 1], events[|events| - 1];
    var s := After(front, ttlMs);
    NoneThrows(front, ttlMs) && !(e.Call? && !Fresh(s, e.now, ttlMs) && s.inFlight.None? && e.throws)
  }

  /** Every invocation is one of the spaced checks if and only if none of them throws before it returns a promise;
      otherwise there are more invocations than checks. */
  lemma {:induction false} InvocationsAreChecksExactly(events: seq<Event>, ttlMs: int)
    ensures NoneThrows(events, ttlMs) ==> Invocations(events, ttlMs) == After(events, ttlMs).starts
    ensures !NoneThrows(events, ttlMs) ==> |Invocations(events, ttlMs)| > |After(events, ttlMs).starts|
  {
    if events != [] {
      InvocationsAreChecksExactly(events[..|events| - 1], ttlMs);
    }
  }

  function Burst(n: nat): seq<Event> { seq(n, _ => Call(1, true)) }

  /** A check that throws before it returns a promise is not held back at all: every call of a burst invokes it, whatever
      the ttl, and every caller sees the error instead of `false`. */
  lemma {:induction false} ThrowingCheckIsHammered(n: nat, ttlMs: int)
    ensures IsRun(Burst(n), ttlMs) && |Invocations(Burst(n), ttlMs)| == n && After(Burst(n), ttlMs) == INIT
    ensures Respond(INIT, 1, true, ttlMs) == Threw
  {
    if n > 0 {
      ThrowingCheckIsHammered(n - 1, ttlMs);
      assert Burst(n)[..n - 1] == Burst(n - 1);
    }
  }
}
