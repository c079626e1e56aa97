/** `submitUnsigned` and `submitSigned` (packages/chain/papi-chain/src/index.ts:201-286), with the error
    classification they end in (packages/chain/chain-errors/src/index.ts:49-62). */
module Submit {
  import opened Prelude
  import opened Digits

  // ----- Classification -----

  /** A thrown value: classified already, another Error, or no Error at all. */
  datatype Thrown =
    | Retryable(message: string)
    | Permanent(message: string)
    | OtherError(message: string)
    | NonError(text: string)

  /** `transient` stands for the list of patterns: any predicate on messages. */
  function Classify(err: Thrown, transient: string -> bool): Thrown {
    match err
    case Retryable(_) => err
    case Permanent(_) => err
    case OtherError(m) => if transient(m) then Retryable(m) else err
    case NonError(t) => if transient(t) then Retryable(t) else OtherError(t)
  }

  /** What settles first of an operation and its timeout. */
  datatype Race<+T> = OpResolved(value: T) | OpRejected(error: Thrown) | TimedOut(ms: nat)

  datatype TxFinalized = TxFinalized(ok: bool, txHash: string, dispatchError: string)

  function SubmitSigned(race: Race<TxFinalized>, tag: string, transient: string -> bool): Result<string, Thrown> {
    match race
    case TimedOut(ms) => Err(Classify(Retryable(tag + " timed out after " + Print(ms) + "ms"), transient))
    case OpRejected(e) => Err(Classify(e, transient))
    case OpResolved(tx) =>
      if !tx.ok then Err(Classify(Permanent(tag + ": dispatch failed: " + tx.dispatchError), transient))
      else Ok(tx.txHash)
  }

  /** An error classified as transient already, or a raw one whose text reads as transient. */
  predicate ReadsTransient(err: Thrown, transient: string -> bool) {
    match err
    case Retryable(_) => true
    case Permanent(_) => false
    case OtherError(m) => transient(m)
    case NonError(t) => transient(t)
  }

  predicate FailsTransiently(race: Race<TxFinalized>, transient: string -> bool) {
    race.TimedOut? || (race.OpRejected? && ReadsTransient(race.error, transient))
  }

  function TextOf(err: Thrown): string { if err.NonError? then err.text else err.message }

  /** What a caller of `submitSigned` gets. A hash, exactly for a finalized and successful dispatch; a retryable error,
      exactly for a transient failure; a permanent one for a failed dispatch, whatever its text says, and for an error
      that is permanent already; any other error keeps its text and is not retried. */
  lemma SignedOutcomeExactly(race: Race<TxFinalized>, tag: string, transient: string -> bool)
    ensures var r := SubmitSigned(race, tag, transient);
            && (r.Ok? <==> race.OpResolved? && race.value.ok)
            && (r.Ok? ==> r.value == race.value.txHash)
            && (r.Err? && r.error.Retryable? <==> FailsTransiently(race, transient))
            && (r.Err? && r.error.Permanent? <==>
                  (race.OpResolved? && !race.value.ok) || (race.OpRejected? && race.error.Permanent?))
            && (race.OpRejected? ==> r.Err? && TextOf(r.error) == TextOf(race.error) && !r.error.NonError?)
  {
  }

  // ----- submitUnsigned as a state machine -----

  datatype Outcome = Resolved | Rejected(error: Thrown)

  /** Everything that can happen to one submission, in any order the event loop allows. */
  datatype Event =
    | Timeout
    | BestBlocksState(found: bool, isValid: bool)
    | Finalized(ok: bool, dispatchError: string)
    | OtherEvent
    | ErrorEvent(err: Thrown)
    | Complete
    | SubscribeReturns
    | SubscribeThrows(err: Thrown)

  datatype State = State(
    inSubscribe: bool,         // `subscribe` is still on the stack
    settled: bool,
    subscribed: bool,          // `subscription` is assigned
    timerArmed: bool,
    unsubscribed: nat,         // calls of `subscription.unsubscribe()`
    outcome: Option<Outcome>)  // of the promise; the first settlement wins

  const INIT := State(true, false, false, true, 0, None)

  /** What the handlers pass to `finish` for an event; None if the event changes nothing. */
  function Decide(e: Event, tag: string, transient: string -> bool): Option<Outcome> {
    match e
    case Timeout => Some(Rejected(Retryable(tag + ": submit timed out")))
    case BestBlocksState(found, isValid) =>
      if !found && !isValid then Some(Rejected(Permanent(tag + ": invalidated in best block"))) else None
    case Finalized(ok, d) =>
      if ok then Some(Resolved) else Some(Rejected(Permanent(tag + ": finalized but dispatch failed: " + d)))
    case ErrorEvent(err) => Some(Rejected(Classify(err, transient)))
    case Complete => Some(Rejected(Permanent(tag + ": ended before finalization")))
    case _ => None
  }

  function Finish(s: State, o: Outcome): State {
    if s.settled then s
    else s.(settled := true, timerArmed := false,
            unsubscribed := s.unsubscribed + if s.subscribed then 1 else 0,
            outcome := if s.outcome.None? then Some(o) else s.outcome)
  }

  function Step(s: State, e: Event, tag: string, transient: string -> bool): State {
    match e
    case SubscribeReturns =>
      s.(inSubscribe := false, subscribed := true, unsubscribed := s.unsubscribed + if s.settled then 1 else 0)
    case SubscribeThrows(err) =>
      s.(inSubscribe := false, outcome := if s.outcome.None? then Some(Rejected(err)) else s.outcome)
    case Timeout => Finish(s, Decide(e, tag, transient).value).(timerArmed := false)
    case _ => if Decide(e, tag, transient).Some? then Finish(s, Decide(e, tag, transient).value) else s
  }

  /** A timer fires only if armed and never inside another call; `subscribe` ends once, either way. */
  predicate Enabled(s: State, e: Event) {
    match e
    case Timeout => s.timerArmed && !s.inSubscribe
    case SubscribeReturns => s.inSubscribe
    case SubscribeThrows(_) => s.inSubscribe
    case _ => true
  }

  /** The promise, its two closure variables and its timer, as the source keeps them. */
  class Submission {
    const tag: string
    const transient: string -> bool
    var inSubscribe: bool
    var settled: bool
    var subscribed: bool
    var timerArmed: bool
    var unsubscribed: nat
    var outcome: Option<Outcome>

    function Now(): State
      reads this
    {
      State(inSubscribe, settled, subscribed, timerArmed, unsubscribed, outcome)
    }

    constructor (tag: string, transient: string -> bool)
      ensures Now() == INIT && this.tag == tag && this.transient == transient
    {
      this.tag, this.transient := tag, transient;
      inSubscribe, settled, subscribed, timerArmed, unsubscribed, outcome := true, false, false, true, 0, None;
    }

    /** `resolve` or `reject`: without effect on a promise that is settled. */
    method Settle(o: Outcome)
      modifies this`outcome
      ensures outcome == if old(outcome).None? then Some(o) else old(outcome)
    {
      if outcome.None? {
        outcome := Some(o);
      }
    }

    method FinishWith(o: Outcome)
      modifies this
      ensures Now() == Finish(old(Now()), o)
    {
      if settled {
        return;
      }
      settled := true;
      if subscribed {
        unsubscribed := unsubscribed + 1;
      }
      timerArmed := false;
      Settle(o);
    }

    method OnTimeout()
      modifies this
      ensures Now() == Step(old(Now()), Timeout, tag, transient)
    {
      timerArmed := false;
      FinishWith(Rejected(Retryable(tag + ": submit timed out")));
    }

    method Next(e: Event)
      requires e.BestBlocksState? || e.Finalized? || e.OtherEvent?
      modifies this
      ensures Now() == Step(old(Now()), e, tag, transient)
    {
      if e.BestBlocksState? && !e.found && !e.isValid {
        FinishWith(Rejected(Permanent(tag + ": invalidated in best block")));
        return;
      }
      if !e.Finalized? {
        return;
      }
      if e.ok {
        FinishWith(Resolved);
      } else {
        FinishWith(Rejected(Permanent(tag + ": finalized but dispatch failed: " + e.dispatchError)));
      }
    }

    method OnError(err: Thrown)
      modifies this
      ensures Now() == Step(old(Now()), ErrorEvent(err), tag, transient)
    {
      FinishWith(Rejected(Classify(err, transient)));
    }

    method OnComplete()
      modifies this
      ensures Now() == Step(old(Now()), Complete, tag, transient)
    {
      FinishWith(Rejected(Permanent(tag + ": ended before finalization")));
    }

    /** `subscribe` returns the subscription, which is dropped at once if an event already decided. */
    method Returned()
      modifies this
      ensures Now() == Step(old(Now()), SubscribeReturns, tag, transient)
    {
      inSubscribe, subscribed := false, true;
      if settled {
        unsubscribed := unsubscribed + 1;
      }
    }

    /** The promise executor throws: the promise is rejected with the raw error. */
    method Threw(err: Thrown)
      modifies this
      ensures Now() == Step(old(Now()), SubscribeThrows(err), tag, transient)
    {
      inSubscribe := false;
      Settle(Rejected(err));
    }
  }

  // ----- Runs -----

  predicate IsRun(events: seq<Event>, tag: string, transient: string -> bool) {
    events == [] ||
    (IsRun(events[..|events| - 1], tag, transient) &&
     Enabled(After(events[..|events| - 1], tag, transient), events[|events| - 1]))
  }

  function After(events: seq<Event>, tag: string, transient: string -> bool): State {
    if events == [] then INIT
    else Step(After(events[..|events| - 1], tag, transient), events[|events| - 1], tag, transient)
  }

  /** The events that reach `finish`. */
  predicate IsDecisive(e: Event) {
    e.Timeout? || e == BestBlocksState(false, false) || e.Finalized? || e.ErrorEvent? || e.Complete?
  }

  /** The events that settle the promise, if nothing has: a `subscribe` that throws rejects it too. */
  predicate Settles(e: Event) { IsDecisive(e) || e.SubscribeThrows? }

  predicate IsFirst(events: seq<Event>, i: nat) {
    i < |events| && Settles(events[i]) && forall j :: 0 <= j < i ==> !Settles(events[j])
  }

  /** A timeout, or an error that is transient; what `subscribe` throws is passed on unclassified. */
  predicate IsTransient(e: Event, transient: string -> bool) {
    e.Timeout? || (e.ErrorEvent? && ReadsTransient(e.err, transient)) || (e.SubscribeThrows? && e.err.Retryable?)
  }

  /** A deliberate end: nothing a retry could change. */
  predicate IsDeliberate(e: Event) {
    e == BestBlocksState(false, false) || (e.Finalized? && !e.ok) || e.Complete? ||
    ((e.ErrorEvent? || e.SubscribeThrows?) && e.err.Permanent?)
  }

  /** The outcome of the first event that decides; a `subscribe` that throws decides too. */
  function FirstDecision(events: seq<Event>, tag: string, transient: string -> bool): Option<Outcome> {
    if events == [] then None
    else if events[0].SubscribeThrows? then Some(Rejected(events[0].err))
    else if Decide(events[0], tag, transient).Some? then Decide(events[0], tag, transient)
    else FirstDecision(events[1..], tag, transient)
  }

  lemma {:induction false} FirstDecisionIs(events: seq<Event>, tag: string, transient: string -> bool, i: nat)
    requires IsFirst(events, i)
    ensures FirstDecision(events, tag, transient) == FirstDecision([events[i]], tag, transient)
  {
    if i > 0 {
      assert forall j :: 0 <= j < |events| - 1 ==> events[1..][j] == events[j + 1];
      assert !Settles(events[0]);
      FirstDecisionIs(events[1..], tag, transient, i - 1);
    }
  }

  lemma {:induction false} FirstExists(events: seq<Event>)
    ensures (exists i: nat :: IsFirst(events, i)) || forall i :: 0 <= i < |events| ==> !Settles(events[i])
  {
    if events != [] {
      var front, n := events[..|events| - 1], |events| - 1;
      FirstExists(front);
      if i: nat :| IsFirst(front, i) {
        assert IsFirst(events, i);
      } else if Settles(events[n]) {
        assert forall j :: 0 <= j < n ==> events[j] == front[j];
        assert IsFirst(events, n);
      }
    }
  }

  lemma FirstIsUnique(events: seq<Event>, i: nat, j: nat)
    requires IsFirst(events, i) && IsFirst(events, j)
    ensures i == j
  {
  }

  lemma {:induction false} FirstDecisionSnoc(events: seq<Event>, e: Event, tag: string, transient: string -> bool)
    ensures FirstDecision(events + [e], tag, transient) ==
            if FirstDecision(events, tag, transient).Some? then FirstDecision(events, tag, transient)
            else FirstDecision([e], tag, transient)
  {
    if events == [] {
      assert [] + [e] == [e];
    } else {
      assert (events + [e])[1..] == events[1..] + [e];
      FirstDecisionSnoc(events[1..], e, tag, transient);
    }
  }

  predicate Returns(events: seq<Event>) { SubscribeReturns in events }

  predicate Throws(events: seq<Event>) { exists i :: 0 <= i < |events| && events[i].SubscribeThrows? }

  /** Some event reached `finish`. */
  predicate Finishes(events: seq<Event>) { exists i :: 0 <= i < |events| && IsDecisive(events[i]) }

  lemma {:induction false} RunOutcome(events: seq<Event>, tag: string, transient: string -> bool)
    requires IsRun(events, tag, transient)
    ensures var s := After(events, tag, transient);
            && s.outcome == FirstDecision(events, tag, transient)
            && s.settled == Finishes(events)
            && s.timerArmed == !s.settled
            && s.subscribed == Returns(events)
            && s.inSubscribe == (!Returns(events) && !Throws(events))
            && s.unsubscribed == (if s.settled && s.subscribed then 1 else 0)
  {
    hide Step, Enabled, FirstDecision, Finishes, Returns, Throws;
    if events != [] {
      var front, e := events[..|events| - 1], events[|events| - 1];
      RunOutcome(front, tag, transient);
      assert events == front + [e];
      SettledHasOutcome(front, tag, transient);
      StepOutcome(After(front, tag, transient), e, tag, transient);
      FirstDecisionSnoc(front, e, tag, transient);
      FinishesSnoc(front, e);
    } else {
      NoEvents(tag, transient);
    }
  }

  lemma NoEvents(tag: string, transient: string -> bool)
    ensures FirstDecision([], tag, transient).None? && !Finishes([]) && !Returns([]) && !Throws([])
  {
  }

  /** One event alone: what it decides, and what it does. */
  lemma StepOutcome(s: State, e: Event, tag: string, transient: string -> bool)
    requires Enabled(s, e) && s.timerArmed == !s.settled && (s.settled ==> s.outcome.Some?)
    ensures var t := Step(s, e, tag, transient);
            && t.outcome == (if s.outcome.Some? then s.outcome else FirstDecision([e], tag, transient))
            && t.settled == (s.settled || IsDecisive(e))
            && t.timerArmed == !t.settled
            && t.subscribed == (s.subscribed || e.SubscribeReturns?)
            && t.inSubscribe == (s.inSubscribe && !e.SubscribeReturns? && !e.SubscribeThrows?)
            && (s.unsubscribed == (if s.settled && s.subscribed then 1 else 0) && (s.inSubscribe ==> !s.subscribed) ==>
                  t.unsubscribed == if t.settled && t.subscribed then 1 else 0)
  {
  }

  lemma DecisionOf(e: Event, tag: string, transient: string -> bool)
    ensures var o := FirstDecision([e], tag, transient);
            && (o.Some? <==> Settles(e))
            && (o == Some(Resolved) <==> e.Finalized? && e.ok)
            && (o.Some? && o.value.Rejected? && o.value.error.Retryable? <==> IsTransient(e, transient))
            && (o.Some? && o.value.Rejected? && o.value.error.Permanent? <==> IsDeliberate(e))
  {
  }

  lemma FinishesSnoc(front: seq<Event>, e: Event)
    ensures Finishes(front + [e]) <==> Finishes(front) || IsDecisive(e)
    ensures Throws(front + [e]) <==> Throws(front) || e.SubscribeThrows?
    ensures Returns(front + [e]) <==> Returns(front) || e == SubscribeReturns
  {
    var all := front + [e];
    assert forall i :: 0 <= i < |front| ==> all[i] == front[i];
    assert all[|front|] == e;
  }

  lemma SettledHasOutcome(events: seq<Event>, tag: string, transient: string -> bool)
    ensures Finishes(events) ==> FirstDecision(events, tag, transient).Some?
  {
    FirstExists(events);
    if i: nat :| IsFirst(events, i) {
      FirstDecisionIs(events, tag, transient, i);
    }
  }

  /** Under every order of events, and told from the events alone: the promise is settled by the first event that settles
      it, and keeps that outcome. It is resolved exactly if that is a finalized and successful dispatch, rejected as
      retryable exactly if it is a timeout or a transient error, and as permanent exactly if it is an invalid best block, a
      failed dispatch, an early end, or an error that is permanent already. */
  lemma SubmissionOutcome(events: seq<Event>, tag: string, transient: string -> bool)
    requires IsRun(events, tag, transient)
    ensures var o := After(events, tag, transient).outcome;
            && (o.None? <==> forall i :: 0 <= i < |events| ==> !Settles(events[i]))
            && (o == Some(Resolved) <==> exists i: nat :: IsFirst(events, i) && events[i].Finalized? && events[i].ok)
            && (o.Some? && o.value.Rejected? && o.value.error.Retryable? <==>
                  exists i: nat :: IsFirst(events, i) && IsTransient(events[i], transient))
            && (o.Some? && o.value.Rejected? && o.value.error.Permanent? <==>
                  exists i: nat :: IsFirst(events, i) && IsDeliberate(events[i]))
  {
    RunOutcome(events, tag, transient);
    FirstExists(events);
    if i: nat :| IsFirst(events, i) {
      FirstDecisionIs(events, tag, transient, i);
      DecisionOf(events[i], tag, transient);
      hide After, IsRun, FirstDecision, IsTransient, IsDeliberate;
      forall j: nat | IsFirst(events, j)
        ensures j == i
      {
        FirstIsUnique(events, i, j);
      }
    } else {
      NothingDecided(events, tag, transient);
    }
  }

  /** What a rejection by this event says: the error's own text, unclassified if `subscribe` threw it, or a message that
      names the submission, with the dispatch error at its end if there is one. */
  predicate Says(e: Event, tag: string, error: Thrown) {
    var text := TextOf(error);
    match e
    case SubscribeThrows(err) => error == err
    case ErrorEvent(err) => text == TextOf(err) && !error.NonError?
    case Finalized(_, d) => tag + ": " <= text && |d| <= |text| && text[|text| - |d|..] == d
    case _ => tag + ": " <= text
  }

  lemma DecisionSays(e: Event, tag: string, transient: string -> bool)
    requires Settles(e) && !(e.Finalized? && e.ok)
    ensures var o := FirstDecision([e], tag, transient); o.Some? && o.value.Rejected? && Says(e, tag, o.value.error)
  {
    if e.Finalized? {
      var head, d := tag + ": finalized but dispatch failed: ", e.dispatchError;
      assert (head + d)[|head + d| - |d|..] == d;
    }
  }

  lemma RejectionSays(events: seq<Event>, tag: string, transient: string -> bool, i: nat)
    requires IsRun(events, tag, transient) && IsFirst(events, i) && !(events[i].Finalized? && events[i].ok)
    ensures var o := After(events, tag, transient).outcome;
            o.Some? && o.value.Rejected? && Says(events[i], tag, o.value.error)
  {
    RunOutcome(events, tag, transient);
    FirstDecisionIs(events, tag, transient, i);
    DecisionSays(events[i], tag, transient);
  }

  /** Under every order of events the subscription is dropped exactly once, when both it exists and an event has decided;
      the timer is armed exactly as long as no event has decided. */
  lemma SubscriptionIsDroppedOnce(events: seq<Event>, tag: string, transient: string -> bool)
    requires IsRun(events, tag, transient)
    ensures var s := After(events, tag, transient);
            && s.unsubscribed == (if Finishes(events) && Returns(events) then 1 else 0)
            && s.timerArmed == !Finishes(events)
  {
    RunOutcome(events, tag, transient);
  }

  /** A settled promise leaves no timer behind exactly when some event reached `finish`: the one leak is a
      `subscribe` that throws before any event has decided. */
  lemma TimerIsClearedExactly(events: seq<Event>, tag: string, transient: string -> bool)
    requires IsRun(events, tag, transient) && After(events, tag, transient).outcome.Some?
    ensures After(events, tag, transient).timerArmed <==> Throws(events) && !Finishes(events)
  {
    RunOutcome(events, tag, transient);
    NothingDecided(events, tag, transient);
  }

  lemma {:induction false} NothingDecided(events: seq<Event>, tag: string, transient: string -> bool)
    ensures !Finishes(events) && !Throws(events) ==> FirstDecision(events, tag, transient).None?
  {
    if events != [] && !Finishes(events) && !Throws(events) {
      forall i | 0 <= i < |events[1..]|
        ensures !Settles(events[1..][i])
      {
        assert events[1..][i] == events[i + 1];
      }
      NothingDecided(events[1..], tag, transient);
      assert !Settles(events[0]);
    }
  }

  /** The leak exists: one event is enough. */
  lemma ThrowingSubscribeLeaksTheTimer(err: Thrown, tag: string, transient: string -> bool)
    ensures IsRun([SubscribeThrows(err)], tag, transient)
    ensures After([SubscribeThrows(err)], tag, transient) == State(false, false, false, true, 0, Some(Rejected(err)))
  {
    var e := [SubscribeThrows(err)];
    assert e[..0] == [];
    assert After([], tag, transient) == INIT && IsRun([], tag, transient);
  }
}
