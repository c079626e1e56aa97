/** The tick loop (packages/service/service-runtime/src/scheduler.ts). */
module TickLoop {
  import opened Prelude

  /** How a tick ends: it resolves, it rejects, or it rejects and `onError` throws. */
  datatype TickEnd = Done | Failed | OnErrorThrew

  /** Everything that can happen, in any order the event loop allows. A tick begins with a synchronous prefix, during
      which only its own code runs: it may call `start` and `stop`, but no timer fires and no promise settles. */
  datatype Event =
    | Start
    | TimerFires(handle: nat)
    | PrefixReturns
    | TickSettles(tick: nat, end: TickEnd)
    | Stop

  /** A tick whose synchronous prefix is on the stack, and whether `start` called it. */
  datatype Prefix = Prefix(tick: nat, fromStart: bool)

  datatype State = State(
    timer: Option<nat>,
    running: bool,
    stopped: bool,
    inFlight: Option<nat>,        // the tick whose promise is stored
    // the world around the loop
    prefix: Option<Prefix>,
    intervals: set<nat>,          // interval timers alive
    handles: nat,                 // interval timers created
    ticks: nat,                   // ticks begun; ticks are numbered from 0
    active: set<nat>,             // ticks begun and not settled
    stops: seq<Option<nat>>,      // for each call of `stop`, the tick it awaits
    unhandled: set<nat>)          // ticks whose stored promise rejected with no handler on it

  const INIT := State(None, false, false, None, None, {}, 0, 0, {}, [], {})

  function SetTimer(s: State): State {
    s.(timer := Some(s.handles), intervals := s.intervals + {s.handles}, handles := s.handles + 1)
  }

  /** `kick`, up to the end of the tick's synchronous prefix. */
  function Kick(s: State, fromStart: bool): State {
    if s.stopped || s.running then s
    else s.(running := true, prefix := Some(Prefix(s.ticks, fromStart)),
            ticks := s.ticks + 1, active := s.active + {s.ticks})
  }

  predicate Kicks(s: State) { !s.stopped && !s.running }

  function Step(s: State, e: Event): State {
    match e
    case Start =>
      if s.timer.Some? then s
      else if Kicks(s) then Kick(s, true)       // the interval is set when the prefix has returned
      else SetTimer(s)
    case TimerFires(_) => Kick(s, false)
    case PrefixReturns =>
      (match s.prefix
       case None => s
       case Some(p) =>
         var t := s.(prefix := None, inFlight := Some(p.tick));
         if p.fromStart then SetTimer(t) else t)
    case TickSettles(tick, end) =>
      s.(running := false, active := s.active - {tick},
         unhandled := if end.OnErrorThrew? && Some(tick) !in s.stops then s.unhandled + {tick} else s.unhandled)
    case Stop =>
      var t := s.(stopped := true, stops := s.stops + [s.inFlight]);
      if s.timer.Some? then t.(timer := None, intervals := t.intervals - {s.timer.value}) else t
  }

  predicate Enabled(s: State, e: Event) {
    match e
    case Start => true
    case Stop => true
    case TimerFires(h) => h in s.intervals && s.prefix.None?
    case PrefixReturns => s.prefix.Some?
    case TickSettles(tick, _) => tick in s.active && s.prefix.None?
  }

  /** The closure of `createTickLoop`. */
  class Loop {
    var timer: Option<nat>
    var running: bool
    var stopped: bool
    var inFlight: Option<nat>
    var prefix: Option<Prefix>
    var intervals: set<nat>
    var handles: nat
    var ticks: nat
    var active: set<nat>
    var stops: seq<Option<nat>>
    var unhandled: set<nat>

    function Now(): State
      reads this
    {
      State(timer, running, stopped, inFlight, prefix, intervals, handles, ticks, active, stops, unhandled)
    }

    constructor ()
      ensures Now() == INIT
    {
      timer, running, stopped, inFlight := None, false, false, None;
      prefix, intervals, handles, ticks, active, stops, unhandled := None, {}, 0, 0, {}, [], {};
    }

    /** `setInterval(kick, intervalMs)` */
    method SetInterval()
      modifies this
      ensures Now() == SetTimer(old(Now()))
    {
      timer, intervals, handles := Some(handles), intervals + {handles}, handles + 1;
    }

    method BeginTick(fromStart: bool)
      modifies this
      ensures Now() == Kick(old(Now()), fromStart)
    {
      if stopped || running {
        return;
      }
      running := true;
      prefix := Some(Prefix(ticks, fromStart));
      active := active + {ticks};
      ticks := ticks + 1;
    }

    method StartLoop()
      modifies this
      ensures Now() == Step(old(Now()), Start)
    {
      if timer.Some? {
        return;
      }
      var begins := !stopped && !running;
      BeginTick(true);
      if !begins {
        SetInterval();
      }
    }

    method TimerFired(h: nat)
      modifies this
      ensures Now() == Step(old(Now()), TimerFires(h))
    {
      BeginTick(false);
    }

    method PrefixReturned()
      requires prefix.Some?
      modifies this
      ensures Now() == Step(old(Now()), PrefixReturns)
    {
      var p := prefix.value;
      prefix := None;
      inFlight := Some(p.tick);
      if p.fromStart {
        SetInterval();
      }
    }

    /** The `finally` of a tick. */
    method TickSettled(tick: nat, end: TickEnd)
      modifies this
      ensures Now() == Step(old(Now()), TickSettles(tick, end))
    {
      running := false;
      active := active - {tick};
      if end.OnErrorThrew? && Some(tick) !in stops {
        unhandled := unhandled + {tick};
      }
    }

    method StopLoop()
      modifies this
      ensures Now() == Step(old(Now()), Stop)
    {
      stopped := true;
      if timer.Some? {
        intervals := intervals - {timer.value};
        timer := None;
      }
      stops := stops + [inFlight];
    }
  }

  // ----- Every run -----

  function After(s: State, events: seq<Event>): State
    decreases |events|
  {
    if events == [] then s else After(Step(s, events[0]), events[1..])
  }

  predicate IsRun(s: State, events: seq<Event>)
    decreases |events|
  {
    events == [] || (Enabled(s, events[0]) && IsRun(Step(s, events[0]), events[1..]))
  }

  /** At most one tick is active; `running` says exactly whether one is; outside a prefix it is the one whose promise
      is stored, so `running` holds exactly while `inFlight` is pending. */
  predicate Good(s: State) {
    && (forall t :: t in s.active ==> t == s.ticks - 1)
    && (s.running <==> s.active != {})
    && (s.prefix.Some? ==> s.prefix.value.tick in s.active && (s.inFlight.Some? ==> s.inFlight.value < s.ticks - 1))
    && (s.prefix.None? && s.running ==> s.inFlight == Some(s.ticks - 1) && s.ticks - 1 in s.active)
    && (s.inFlight.Some? ==> s.inFlight.value < s.ticks)
    && (s.timer.Some? ==> s.timer.value in s.intervals)
    && (forall h :: h in s.intervals ==> h < s.handles)
  }

  lemma StepKeepsGood(s: State, e: Event)
    requires Good(s) && Enabled(s, e)
    ensures Good(Step(s, e))
  {
  }

  lemma {:induction false} RunsAreGood(s: State, events: seq<Event>)
    requires Good(s) && IsRun(s, events)
    ensures Good(After(s, events))
    decreases |events|
  {
    if events != [] {
      StepKeepsGood(s, events[0]);
      RunsAreGood(Step(s, events[0]), events[1..]);
    }
  }

  lemma OneTickAtATime(events: seq<Event>)
    requires IsRun(INIT, events)
    ensures var s := After(INIT, events);
            |s.active| <= 1 && (s.running <==> |s.active| == 1)
    ensures var s := After(INIT, events);
            s.prefix.None? ==> (s.running <==> s.inFlight.Some? && s.inFlight.value in s.active)
  {
    RunsAreGood(INIT, events);
    var s := After(INIT, events);
    AtMostOne(s.active, s.ticks - 1);
  }

  lemma AtMostOne(a: set<nat>, x: int)
    requires forall t :: t in a ==> t == x
    ensures |a| <= 1 && (a != {} ==> |a| == 1)
  {
    if a != {} {
      var y :| y in a;
      assert a == {y};
    }
  }

  lemma ActiveIsLast(s: State)
    requires Good(s)
    ensures s.active != {} ==> s.ticks - 1 in s.active
  {
    if s.active != {} {
      var t :| t in s.active;
    }
  }

  /** However a tick ends, the next firing begins one. */
  lemma FailureNeverBlocks(events: seq<Event>, tick: nat, end: TickEnd, h: nat)
    requires IsRun(INIT, events)
    requires var s := After(INIT, events); Enabled(s, TickSettles(tick, end)) && h in s.intervals && !s.stopped
    ensures var s := Step(After(INIT, events), TickSettles(tick, end));
            Enabled(s, TimerFires(h)) && Step(s, TimerFires(h)).active == {s.ticks}
  {
    RunsAreGood(INIT, events);
    var s := Step(After(INIT, events), TickSettles(tick, end));
    StepKeepsGood(After(INIT, events), TickSettles(tick, end));
    assert s.active == {};
  }

  lemma {:induction false} StoppedByStop(s: State, events: seq<Event>)
    ensures After(s, events).stopped <==> s.stopped || Stop in events
    decreases |events|
  {
    if events != [] {
      assert events == [events[0]] + events[1..];
      StoppedByStop(Step(s, events[0]), events[1..]);
    }
  }

  /** A tick begins exactly at a firing, or at a `start` that finds no interval, while no tick is active and `stop` has not
      been called: `start` ticks at once, an overlapping firing is skipped. */
  lemma TickBeginsExactly(events: seq<Event>, e: Event)
    requires IsRun(INIT, events) && Enabled(After(INIT, events), e)
    ensures var s, t := After(INIT, events), Step(After(INIT, events), e);
            var begins := (e.TimerFires? || (e == Start && s.timer.None?)) && s.active == {} && Stop !in events;
            && t.ticks == s.ticks + (if begins then 1 else 0)
            && (begins ==> t.active == {s.ticks})
            && (e.TimerFires? && !begins ==> t == s)
  {
    RunsAreGood(INIT, events);
    StoppedByStop(INIT, events);
  }

  function Starts(events: seq<Event>): nat
    decreases |events|
  {
    if events == [] then 0 else (if events[0] == Start then 1 else 0) + Starts(events[1..])
  }

  lemma {:induction false} StartsCount(events: seq<Event>)
    ensures Starts(events) > 0 <==> Start in events
    decreases |events|
  {
    if events != [] {
      assert events == [events[0]] + events[1..];
      StartsCount(events[1..]);
    }
  }

  /** Whether a `start` is under way: it has begun a tick whose prefix has not returned. */
  function Opening(s: State): nat { if s.prefix.Some? && s.prefix.value.fromStart then 1 else 0 }

  /** After `n` calls of `start`, one of which may be under way. */
  predicate Started(s: State, n: nat) { n >= Opening(s) && (s.timer.Some? <==> n > Opening(s)) }

  lemma StepKeepsStarted(s: State, e: Event, n: nat)
    requires Good(s) && Enabled(s, e) && !s.stopped && e != Stop && Started(s, n)
    ensures Started(Step(s, e), n + if e == Start then 1 else 0)
  {
  }

  lemma {:induction false} RunsAreStarted(s: State, events: seq<Event>, n: nat)
    requires Good(s) && IsRun(s, events) && !s.stopped && Stop !in events && Started(s, n)
    ensures Started(After(s, events), n + Starts(events))
    decreases |events|
  {
    if events != [] {
      var e, rest := events[0], events[1..];
      assert events == [e] + rest;
      StepKeepsGood(s, e);
      StepKeepsStarted(s, e, n);
      StoppedByStop(s, [e]);
      RunsAreStarted(Step(s, e), rest, n + if e == Start then 1 else 0);
    }
  }

  /** Until `stop` is called, the interval is set - held and alive - exactly once some `start` has returned: all calls of
      `start` count but one whose first tick's prefix is on the stack. So outside a prefix it is set if `start` has been
      called at all, and its firing begins a tick whenever none is active. */
  lemma IntervalIsSetExactly(events: seq<Event>)
    requires IsRun(INIT, events) && Stop !in events
    ensures var s := After(INIT, events);
            && (s.timer.Some? <==> Starts(events) > Opening(s))
            && (s.timer.Some? ==> s.timer.value in s.intervals)
            && (s.prefix.None? ==> (s.timer.Some? <==> Start in events))
            && (s.timer.Some? && s.active == {} ==>
                  Enabled(s, TimerFires(s.timer.value)) && Step(s, TimerFires(s.timer.value)).active == {s.ticks})
  {
    RunsAreGood(INIT, events);
    RunsAreStarted(INIT, events, 0);
    StartsCount(events);
    StoppedByStop(INIT, events);
  }

  /** After `stop` no tick ever begins, whatever is called: `start` included. */
  lemma NothingStartsAfterStop(s: State, events: seq<Event>)
    ensures After(Step(s, Stop), events).ticks == s.ticks
  {
    StoppedNeverTicks(Step(s, Stop), events);
  }

  lemma {:induction false} StoppedNeverTicks(s: State, events: seq<Event>)
    requires s.stopped
    ensures After(s, events).ticks == s.ticks
    decreases |events|
  {
    if events != [] {
      StoppedNeverTicks(Step(s, events[0]), events[1..]);
    }
  }

  /** The promise of the `k`-th call of `stop` is settled when the tick it awaits is. */
  predicate StopResolved(s: State, k: nat) {
    k < |s.stops| && (s.stops[k].Some? ==> s.stops[k].value !in s.active)
  }

  lemma {:induction false} StoppedStaysDrained(s: State, events: seq<Event>, k: nat)
    requires Good(s) && IsRun(s, events) && s.stopped && k < |s.stops|
    requires s.active != {} ==> s.stops[k] == Some(s.ticks - 1)
    ensures var t := After(s, events);
            k < |t.stops| && t.stops[k] == s.stops[k] && (t.active != {} ==> t.stops[k] == Some(t.ticks - 1))
    decreases |events|
  {
    if events != [] {
      StepKeepsGood(s, events[0]);
      StoppedStaysDrained(Step(s, events[0]), events[1..], k);
    }
  }

  /** In whatever follows `s`, once the `k`-th `stop` has resolved no tick is active. */
  ghost predicate Drains(s: State, k: nat) {
    forall events :: IsRun(s, events) ==> DrainedAfter(s, events, k)
  }

  predicate DrainedAfter(s: State, events: seq<Event>, k: nat) {
    StopResolved(After(s, events), k) ==> After(s, events).active == {}
  }

  /** A `stop` drains exactly if it is not called from a tick's own synchronous prefix, where the promise to await is not
      stored yet. */
  lemma StopDrainsExactly(s: State)
    requires Good(s)
    ensures Drains(Step(s, Stop), |s.stops|) <==> s.prefix.None?
  {
    var t, k := Step(s, Stop), |s.stops|;
    StepKeepsGood(s, Stop);
    if s.prefix.None? {
      forall events | IsRun(t, events)
        ensures DrainedAfter(t, events, k)
      {
        StoppedStaysDrained(t, events, k);
        RunsAreGood(t, events);
        ActiveIsLast(After(t, events));
      }
    } else {
      var none: seq<Event> := [];
      assert IsRun(t, none) && After(t, none) == t;
      assert !DrainedAfter(t, none, k);
    }
  }

  /** The loop holds the handle of every interval alive, so `stop` can clear it. */
  predicate Tidy(s: State) { s.intervals == (if s.timer.Some? then {s.timer.value} else {}) }

  /** The first tick's prefix returns to a `start` whose handle another `start` has stored meanwhile. */
  predicate Loses(s: State, e: Event) {
    e == PrefixReturns && s.prefix.Some? && s.prefix.value.fromStart && s.timer.Some?
  }

  predicate NeverLoses(s: State, events: seq<Event>)
    decreases |events|
  {
    events == [] || (!Loses(s, events[0]) && NeverLoses(Step(s, events[0]), events[1..]))
  }

  /** An interval whose handle is not held. */
  ghost predicate Lost(s: State, h: nat) { h in s.intervals && s.timer != Some(h) }

  lemma {:induction false} LostForever(s: State, events: seq<Event>, h: nat)
    requires Good(s) && IsRun(s, events) && Lost(s, h)
    ensures Lost(After(s, events), h)
    decreases |events|
  {
    if events != [] {
      StepKeepsGood(s, events[0]);
      LostForever(Step(s, events[0]), events[1..], h);
    }
  }

  /** `stop` leaves no interval behind if and only if no `start` has stored its handle over another's. */
  lemma {:induction false} StopClearsExactly(s: State, events: seq<Event>)
    requires Good(s) && Tidy(s) && IsRun(s, events)
    ensures Step(After(s, events), Stop).intervals == {} <==> NeverLoses(s, events)
    decreases |events|
  {
    if events != [] {
      StepKeepsGood(s, events[0]);
      var t := Step(s, events[0]);
      if Loses(s, events[0]) {
        LostForever(t, events[1..], s.timer.value);
        assert s.timer.value in Step(After(s, events), Stop).intervals;
      } else {
        StopClearsExactly(t, events[1..]);
      }
    }
  }

  /** It does happen: the first tick calls `start` from its synchronous prefix. */
  lemma StartFromFirstTickLoses()
    ensures var events := [Start, Start, PrefixReturns];
            IsRun(INIT, events) && !NeverLoses(INIT, events) && Step(After(INIT, events), Stop).intervals == {0}
  {
  }

  /** After a `stop` that cleared everything, and until the next one, an interval keeps the process alive exactly through
      a further `start`, or the return of a `start` whose first tick called `stop` before the interval was set. */
  lemma {:induction false} IntervalsReviveExactly(s: State, events: seq<Event>)
    requires Good(s) && IsRun(s, events) && s.stopped && s.intervals == {} && Stop !in events
    ensures After(s, events).intervals == {} <==>
            Start !in events && !(s.prefix.Some? && s.prefix.value.fromStart && PrefixReturns in events)
    decreases |events|
  {
    if events != [] {
      var e, rest := events[0], events[1..];
      StepKeepsGood(s, e);
      assert events == [e] + rest;
      if Step(s, e).intervals == {} {
        IntervalsReviveExactly(Step(s, e), rest);
      } else {
        IntervalsSurvive(Step(s, e), rest);
      }
    }
  }

  lemma {:induction false} IntervalsSurvive(s: State, events: seq<Event>)
    requires Stop !in events
    ensures s.intervals <= After(s, events).intervals
    decreases |events|
  {
    if events != [] {
      assert events == [events[0]] + events[1..];
      IntervalsSurvive(Step(s, events[0]), events[1..]);
    }
  }

  // ----- Rejections nobody handles -----

  /** A `stop` that finds the promise of tick `t` stored and pending, and so handles its rejection. */
  predicate Awaits(s: State, e: Event, t: nat) { e == Stop && t in s.active && s.prefix.None? }

  /** Tick `t` ends with an `onError` that throws, and no `stop` has been called between its prefix and its end. */
  predicate RejectsUnawaited(s: State, events: seq<Event>, t: nat, awaited: bool)
    decreases |events|
  {
    events != [] &&
    ((events[0] == TickSettles(t, OnErrorThrew) && !awaited) ||
     RejectsUnawaited(Step(s, events[0]), events[1..], t, awaited || Awaits(s, events[0], t)))
  }

  /** What `awaited` says about tick `t`, if it has not ended. */
  predicate AwaitKnown(s: State, t: nat, awaited: bool) {
    && (forall i :: 0 <= i < |s.stops| && s.stops[i].Some? ==> s.stops[i].value < s.ticks)
    && (t in s.active || s.ticks <= t ==> (awaited <==> Some(t) in s.stops))
  }

  lemma StepKeepsAwait(s: State, e: Event, t: nat, awaited: bool)
    requires Good(s) && Enabled(s, e) && AwaitKnown(s, t, awaited)
    ensures AwaitKnown(Step(s, e), t, awaited || Awaits(s, e, t))
    ensures t in Step(s, e).unhandled <==> t in s.unhandled || (e == TickSettles(t, OnErrorThrew) && !awaited)
  {
  }

  lemma {:induction false} UnhandledFrom(s: State, events: seq<Event>, t: nat, awaited: bool)
    requires Good(s) && IsRun(s, events) && t !in s.unhandled && AwaitKnown(s, t, awaited)
    ensures t in After(s, events).unhandled <==> RejectsUnawaited(s, events, t, awaited)
    decreases |events|
  {
    hide Good, AwaitKnown, Step, Awaits, Enabled;
    if events != [] {
      var e := events[0];
      StepKeepsGood(s, e);
      StepKeepsAwait(s, e, t, awaited);
      if e == TickSettles(t, OnErrorThrew) && !awaited {
        UnhandledStays(Step(s, e), events[1..], t);
      } else {
        UnhandledFrom(Step(s, e), events[1..], t, awaited || Awaits(s, e, t));
      }
    }
  }

  lemma {:induction false} UnhandledStays(s: State, events: seq<Event>, t: nat)
    requires t in s.unhandled
    ensures t in After(s, events).unhandled
    decreases |events|
  {
    if events != [] {
      UnhandledStays(Step(s, events[0]), events[1..], t);
    }
  }

  /** A tick's failure reaches the process as an unhandled rejection if and only if its `onError` throws and no `stop` was
      called between the end of its synchronous prefix and its own end. */
  lemma UnhandledExactly(events: seq<Event>, t: nat)
    requires IsRun(INIT, events)
    ensures t in After(INIT, events).unhandled <==> RejectsUnawaited(INIT, events, t, false)
  {
    UnhandledFrom(INIT, events, t, false);
  }

  /** It does happen; a `stop` in time prevents it. */
  lemma ThrowingOnErrorIsUnhandled()
    ensures var events := [Start, PrefixReturns, TickSettles(0, OnErrorThrew)];
            IsRun(INIT, events) && After(INIT, events).unhandled == {0}
    ensures var events := [Start, PrefixReturns, Stop, TickSettles(0, OnErrorThrew)];
            IsRun(INIT, events) && After(INIT, events).unhandled == {}
  {
  }
}
