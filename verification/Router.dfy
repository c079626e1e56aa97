/** The event router (packages/indexer/squid-common/src/router.ts). */
module Router {
  import opened Prelude

  /** An item of a block; `record` is the name in its event record, if it has one. */
  datatype Item = Item(isEvent: bool, name: string, record: Option<string>, payload: nat)

  type Block = seq<Item>

  /** `Noop` is the capped default handler; the others are the consumer's, by number. */
  datatype Handler = Plain(h: nat) | Tracked(h: nat) | Noop

  datatype Outcome = Null | Value(r: nat) | Throws

  /** `overrides` may hold an explicit `undefined`. The calls into the consumer's code - `makeBlockState`,
      `tryParseEventName`, `makeHandlerCtx`, a handler's `run`, `onResult` - are numbered in the order they happen;
      `behave` says which of them throw, and what the handlers return. */
  datatype Config = Config(
    allEvents: seq<string>,
    tryParse: string -> Option<string>,
    overrides: map<string, Option<Handler>>,
    limit: int,
    isTracked: bool,
    behave: nat -> Outcome)

  /** `Object.fromEntries` of the event names, each with the default handler. */
  function Defaults(names: seq<string>): map<string, Option<Handler>> {
    if names == [] then map[] else Defaults(names[..|names| - 1])[names[|names| - 1] := Some(Noop)]
  }

  /** `handlers[name]`: the defaults, with the overrides spread over them. */
  function HandlerFor(c: Config, name: string): Option<Handler> {
    var handlers := Defaults(c.allEvents) + c.overrides;
    if name in handlers then handlers[name] else None
  }

  /** A recognised event, where the router meets it. */
  datatype Visit = Visit(item: Item, name: string, blockState: Option<nat>)

  /** What cuts a batch short, apart from a handler that throws. */
  datatype Cause =
    | StateThrew(k: nat)               // `makeBlockState`, for the k-th block state
    | ParseThrew(item: Item)           // `tryParseEventName`
    | ContextThrew(visit: Visit)       // `makeHandlerCtx`
    | NoHandler(visit: Visit)          // `undefined.kind`
    | HookThrew(visit: Visit, r: nat)  // `onResult`

  /** What the router does, in order. */
  datatype Action =
    | MadeState(k: nat)
    | Called(visit: Visit, handler: Handler, outcome: Outcome)
    | Resulted(visit: Visit, r: nat)
    | LoggedUnhandled(name: string, count: nat)
    | LoggedDrift(name: string)
    | Stopped(cause: Cause)

  datatype State = State(
    logged: seq<string>,     // `loggedUnhandled`: a Set keeps its insertion order
    blockStates: nat,        // block states made so far
    trace: seq<Action>,
    calls: nat,              // calls into the consumer's code so far
    rejected: bool)          // the current batch has thrown

  const INIT := State([], 0, [], 0, false)

  function Act(s: State, a: Action): State { s.(trace := s.trace + [a]) }

  function Stop(s: State, cause: Cause): State { Act(s, Stopped(cause)).(rejected := true) }

  /** The `noop` handler. */
  function RunNoop(s: State, c: Config, v: Visit): State {
    if v.item.record.None? then Act(s, Called(v, Noop, Throws)).(rejected := true)
    else
      var name := v.item.record.value;
      var t := Act(s, Called(v, Noop, Null));
      if name in s.logged || |s.logged| >= c.limit then t
      else Act(t.(logged := s.logged + [name]), LoggedUnhandled(name, |s.logged| + 1))
  }

  /** `onResult` */
  function RunHook(s: State, c: Config, v: Visit, r: nat): State {
    var t := Act(s, Resulted(v, r)).(calls := s.calls + 1);
    if c.behave(s.calls).Throws? then Stop(t, HookThrew(v, r)) else t
  }

  /** One of the consumer's handlers. */
  function RunHandler(s: State, c: Config, v: Visit, h: Handler): State {
    var outcome := c.behave(s.calls);
    var t := Act(s, Called(v, h, outcome)).(calls := s.calls + 1);
    match outcome
    case Throws => t.(rejected := true)
    case Null => t
    case Value(r) => if h.Tracked? && c.isTracked then RunHook(t, c, v, r) else t
  }

  function RunFor(s: State, c: Config, v: Visit): State {
    var h := HandlerFor(c, v.name);
    if h.None? then Stop(s, NoHandler(v))
    else if h.value.Noop? then RunNoop(s, c, v)
    else RunHandler(s, c, v, h.value)
  }

  function Dispatch(s: State, c: Config, v: Visit): State {
    if !c.isTracked then RunFor(s, c, v)
    else
      var t := s.(calls := s.calls + 1);
      if c.behave(s.calls).Throws? then Stop(t, ContextThrew(v)) else RunFor(t, c, v)
  }

  function StepItem(s: State, c: Config, item: Item, blockState: Option<nat>): State {
    if s.rejected || !item.isEvent then s
    else
      var t := s.(calls := s.calls + 1);
      if c.behave(s.calls).Throws? then Stop(t, ParseThrew(item))
      else
        match c.tryParse(item.name)
        case None => Act(t, LoggedDrift(item.name))
        case Some(name) => Dispatch(t, c, Visit(item, name, blockState))
  }

  function StepItems(s: State, c: Config, items: seq<Item>, blockState: Option<nat>): State {
    if items == [] then s
    else StepItem(StepItems(s, c, items[..|items| - 1], blockState), c, items[|items| - 1], blockState)
  }

  /** `makeBlockState`, on the tracked path. */
  function EnterBlock(s: State, c: Config): State {
    if !c.isTracked then s
    else
      var t := s.(calls := s.calls + 1);
      if c.behave(s.calls).Throws? then Stop(t, StateThrew(s.blockStates))
      else Act(t, MadeState(s.blockStates)).(blockStates := s.blockStates + 1)
  }

  function StateOf(s: State, c: Config): Option<nat> { if c.isTracked then Some(s.blockStates) else None }

  function StepBlock(s: State, c: Config, b: Block): State {
    if s.rejected then s else StepItems(EnterBlock(s, c), c, b, StateOf(s, c))
  }

  function StepBlocks(s: State, c: Config, blocks: seq<Block>): State {
    if blocks == [] then s
    else StepBlock(StepBlocks(s, c, blocks[..|blocks| - 1]), c, blocks[|blocks| - 1])
  }

  /** One call of `processEvents`. */
  function StepBatch(s: State, c: Config, blocks: seq<Block>): State { StepBlocks(s.(rejected := false), c, blocks) }

  class EventRouter {
    const c: Config
    var state: State

    constructor (c: Config)
      ensures this.c == c && state == INIT
    {
      this.c := c;
      state := INIT;
    }

    method ProcessEvents(blocks: seq<Block>) returns (ok: bool)
      modifies this
      ensures state == StepBatch(old(state), c, blocks)
      ensures ok <==> !state.rejected
    {
      hide StepItem, EnterBlock;
      state := state.(rejected := false);
      ghost var start := state;
      for i := 0 to |blocks|
        invariant !state.rejected && state == StepBlocks(start, c, blocks[..i])
      {
        assert blocks[..i + 1][..i] == blocks[..i];
        var block := blocks[i];
        var blockState := if c.isTracked then Some(state.blockStates) else None;
        if c.isTracked {
          MakeBlockState();
        } else {
          assert EnterBlock(state, c) == state by {
            SimpleEntersFreely(state, c);
          }
        }
        ghost var inside := state;
        if state.rejected {
          RejectedStays(inside, c, block, 0, blockState);
          RejectedBlocksStay(start, c, blocks, i + 1);
          return false;
        }
        for j := 0 to |block|
          invariant !state.rejected && state == StepItems(inside, c, block[..j], blockState)
        {
          assert block[..j + 1][..j] == block[..j];
          HandleItem(block[j], blockState);
          if state.rejected {
            RejectedStays(inside, c, block, j + 1, blockState);
            RejectedBlocksStay(start, c, blocks, i + 1);
            return false;
          }
        }
        assert block[..|block|] == block;
      }
      assert blocks[..|blocks|] == blocks;
      ok := true;
    }

    method MakeBlockState()
      requires c.isTracked
      modifies this
      ensures state == EnterBlock(old(state), c)
    {
      var throws := c.behave(state.calls).Throws?;
      state := state.(calls := state.calls + 1);
      if throws {
        state := Stop(state, StateThrew(state.blockStates));
      } else {
        state := Act(state, MadeState(state.blockStates)).(blockStates := state.blockStates + 1);
      }
    }

    method HandleItem(item: Item, blockState: Option<nat>)
      modifies this
      ensures state == StepItem(old(state), c, item, blockState)
    {
      if state.rejected || !item.isEvent {
        return;
      }
      var throws := c.behave(state.calls).Throws?;
      state := state.(calls := state.calls + 1);
      if throws {
        state := Stop(state, ParseThrew(item));
        return;
      }
      var name := c.tryParse(item.name);
      if name.None? {
        state := Act(state, LoggedDrift(item.name));
        return;
      }
      state := Dispatch(state, c, Visit(item, name.value, blockState));
    }
  }

  lemma SimpleEntersFreely(s: State, c: Config)
    ensures !c.isTracked ==> EnterBlock(s, c) == s
  {
  }

  lemma {:induction false} RejectedStays(s: State, c: Config, items: seq<Item>, k: nat, blockState: Option<nat>)
    requires k <= |items| && StepItems(s, c, items[..k], blockState).rejected
    ensures StepItems(s, c, items, blockState) == StepItems(s, c, items[..k], blockState)
    decreases |items|
  {
    if k < |items| {
      var n := |items| - 1;
      assert items[..n][..k] == items[..k];
      RejectedStays(s, c, items[..n], k, blockState);
    } else {
      assert items[..k] == items;
    }
  }

  lemma {:induction false} RejectedBlocksStay(s: State, c: Config, blocks: seq<Block>, k: nat)
    requires k <= |blocks| && StepBlocks(s, c, blocks[..k]).rejected
    ensures StepBlocks(s, c, blocks) == StepBlocks(s, c, blocks[..k])
    decreases |blocks|
  {
    if k < |blocks| {
      var n := |blocks| - 1;
      assert blocks[..n][..k] == blocks[..k];
      RejectedBlocksStay(s, c, blocks[..n], k);
    } else {
      assert blocks[..k] == blocks;
    }
  }

  // ----- The simple specification: filter, map, first distinct -----

  /** A block entered with its state made, or an event the router met: recognised, or not subscribed. */
  datatype Encounter = Entered(k: nat) | Met(visit: Visit) | Drift(name: string)

  /** What one item is due, if it is an event at all. */
  function DueFor(c: Config, item: Item, blockState: Option<nat>): seq<Encounter> {
    if !item.isEvent then []
    else
      match c.tryParse(item.name)
      case None => [Drift(item.name)]
      case Some(name) => [Met(Visit(item, name, blockState))]
  }

  function Due(c: Config, items: seq<Item>, blockState: Option<nat>): seq<Encounter> {
    if items == [] then [] else Due(c, items[..|items| - 1], blockState) + DueFor(c, items[|items| - 1], blockState)
  }

  /** What one block is due: on the tracked path its state is made first. */
  function DueBlock(c: Config, b: Block, blockState: Option<nat>): seq<Encounter> {
    (if blockState.Some? then [Entered(blockState.value)] else []) + Due(c, b, blockState)
  }

  /** All events of the blocks, in order; every event of a block carries the block's one state. */
  function DueIn(c: Config, blocks: seq<Block>, states: nat): seq<Encounter> {
    if blocks == [] then []
    else
      var n := |blocks| - 1;
      DueIn(c, blocks[..n], states) + DueBlock(c, blocks[n], if c.isTracked then Some(states + n) else None)
  }

  /** The block states, the handler calls and the drift reports of a trace. */
  function EncountersOf(trace: seq<Action>): seq<Encounter> {
    if trace == [] then []
    else
      var front, a := EncountersOf(trace[..|trace| - 1]), trace[|trace| - 1];
      match a
      case Called(v, _, _) => front + [Met(v)]
      case LoggedDrift(name) => front + [Drift(name)]
      case MadeState(k) => front + [Entered(k)]
      case _ => front
  }

  /** What reached `onResult`. */
  function ResultsOf(trace: seq<Action>): seq<(Visit, nat)> {
    if trace == [] then []
    else
      var front, a := ResultsOf(trace[..|trace| - 1]), trace[|trace| - 1];
      if a.Resulted? then front + [(a.visit, a.r)] else front
  }

  /** The non-null results of the tracked calls. */
  function ResultsDue(trace: seq<Action>): seq<(Visit, nat)> {
    if trace == [] then []
    else
      var front, a := ResultsDue(trace[..|trace| - 1]), trace[|trace| - 1];
      if a.Called? && a.handler.Tracked? && a.outcome.Value? then front + [(a.visit, a.outcome.r)] else front
  }

  /** The log lines of the default handler. */
  function LinesOf(trace: seq<Action>): seq<(string, nat)> {
    if trace == [] then []
    else
      var front, a := LinesOf(trace[..|trace| - 1]), trace[|trace| - 1];
      if a.LoggedUnhandled? then front + [(a.name, a.count)] else front
  }

  /** The names the default handler was called with. */
  function UnhandledNames(trace: seq<Action>): seq<string> {
    if trace == [] then []
    else
      var front, a := UnhandledNames(trace[..|trace| - 1]), trace[|trace| - 1];
      if a.Called? && a.handler.Noop? && a.visit.item.record.Some? then front + [a.visit.item.record.value] else front
  }

  function FirstOccurrences(names: seq<string>): seq<string> {
    if names == [] then []
    else
      var d, last := FirstOccurrences(names[..|names| - 1]), names[|names| - 1];
      if last in d then d else d + [last]
  }

  function Take(names: seq<string>, limit: int): seq<string> {
    if limit <= 0 then [] else if limit < |names| then names[..limit] else names
  }

  lemma ProjectionsSnoc(t: seq<Action>, a: Action)
    ensures EncountersOf(t + [a]) ==
            if a.Called? then EncountersOf(t) + [Met(a.visit)]
            else if a.LoggedDrift? then EncountersOf(t) + [Drift(a.name)]
            else if a.MadeState? then EncountersOf(t) + [Entered(a.k)] else EncountersOf(t)
    ensures ResultsOf(t + [a]) == if a.Resulted? then ResultsOf(t) + [(a.visit, a.r)] else ResultsOf(t)
    ensures ResultsDue(t + [a]) ==
            if a.Called? && a.handler.Tracked? && a.outcome.Value?
            then ResultsDue(t) + [(a.visit, a.outcome.r)] else ResultsDue(t)
    ensures LinesOf(t + [a]) == if a.LoggedUnhandled? then LinesOf(t) + [(a.name, a.count)] else LinesOf(t)
    ensures UnhandledNames(t + [a]) ==
            if a.Called? && a.handler.Noop? && a.visit.item.record.Some?
            then UnhandledNames(t) + [a.visit.item.record.value] else UnhandledNames(t)
  {
    assert (t + [a])[..|t|] == t;
  }

  // ----- Every reachable state -----

  /** Each name with its position, counted from one. */
  function Numbered(names: seq<string>): seq<(string, nat)> {
    seq(|names|, i requires 0 <= i < |names| => (names[i], i + 1))
  }

  predicate Good(s: State, c: Config) {
    && s.logged == Take(FirstOccurrences(UnhandledNames(s.trace)), c.limit)
    && LinesOf(s.trace) == Numbered(s.logged)
    && (c.isTracked ==> ResultsOf(s.trace) == ResultsDue(s.trace))
    && (!c.isTracked ==> ResultsOf(s.trace) == [])
  }

  lemma FirstOccurrencesSnoc(names: seq<string>, n: string, limit: int)
    ensures var d := FirstOccurrences(names);
            FirstOccurrences(names + [n]) == if n in d then d else d + [n]
    ensures var taken := Take(FirstOccurrences(names), limit);
            Take(FirstOccurrences(names + [n]), limit) ==
            if n in taken || |taken| >= limit then taken else taken + [n]
  {
    assert (names + [n])[..|names|] == names;
  }

  lemma NumberedSnoc(names: seq<string>, n: string)
    ensures Numbered(names + [n]) == Numbered(names) + [(n, |names| + 1)]
  {
  }

  lemma ActKeepsGood(s: State, c: Config, a: Action)
    requires Good(s, c) && (a.Stopped? || a.LoggedDrift? || a.MadeState?)
    ensures Good(Act(s, a), c)
    ensures EncountersOf(Act(s, a).trace) ==
            EncountersOf(s.trace) +
            if a.LoggedDrift? then [Drift(a.name)] else if a.MadeState? then [Entered(a.k)] else []
  {
    hide EncountersOf, ResultsOf, ResultsDue, LinesOf, UnhandledNames, FirstOccurrences, Take, Numbered;
    ProjectionsSnoc(s.trace, a);
  }

  lemma NoopKeepsGood(s: State, c: Config, v: Visit)
    requires Good(s, c)
    ensures Good(RunNoop(s, c, v), c) && EncountersOf(RunNoop(s, c, v).trace) == EncountersOf(s.trace) + [Met(v)]
  {
    hide EncountersOf, ResultsOf, ResultsDue, LinesOf, UnhandledNames, FirstOccurrences, Take, Numbered;
    var called := Called(v, Noop, if v.item.record.None? then Throws else Null);
    ProjectionsSnoc(s.trace, called);
    if v.item.record.Some? {
      var name := v.item.record.value;
      var t := s.trace + [called];
      FirstOccurrencesSnoc(UnhandledNames(s.trace), name, c.limit);
      if !(name in s.logged || |s.logged| >= c.limit) {
        ProjectionsSnoc(t, LoggedUnhandled(name, |s.logged| + 1));
        NumberedSnoc(s.logged, name);
      }
    }
  }

  lemma HandlerKeepsGood(s: State, c: Config, v: Visit, h: Handler)
    requires Good(s, c) && !h.Noop?
    ensures Good(RunHandler(s, c, v, h), c) && EncountersOf(RunHandler(s, c, v, h).trace) == EncountersOf(s.trace) + [Met(v)]
  {
    var outcome := c.behave(s.calls);
    hide EncountersOf, ResultsOf, ResultsDue, LinesOf, UnhandledNames, FirstOccurrences, Take, Numbered;
    ProjectionsSnoc(s.trace, Called(v, h, outcome));
    if outcome.Value? && h.Tracked? && c.isTracked {
      var t := s.trace + [Called(v, h, outcome)];
      ProjectionsSnoc(t, Resulted(v, outcome.r));
      ProjectionsSnoc(t + [Resulted(v, outcome.r)], Stopped(HookThrew(v, outcome.r)));
    }
  }

  lemma RunForKeepsGood(s: State, c: Config, v: Visit)
    requires Good(s, c) && !s.rejected
    ensures var t := RunFor(s, c, v);
            && Good(t, c) && t.blockStates == s.blockStates
            && Extends(c, EncountersOf(s.trace), EncountersOf(t.trace), [Met(v)], !t.rejected, Last(t.trace))
  {
    hide EncountersOf, Good, HandlerFor;
    var h := HandlerFor(c, v.name);
    if h.None? {
      ActKeepsGood(s, c, Stopped(NoHandler(v)));
      StopKeepsGood(s, c, NoHandler(v));
    } else if h.value.Noop? {
      NoopKeepsGood(s, c, v);
    } else {
      HandlerKeepsGood(s, c, v, h.value);
    }
  }

  lemma StopKeepsGood(s: State, c: Config, cause: Cause)
    requires Good(s, c)
    ensures Good(Stop(s, cause), c) && EncountersOf(Stop(s, cause).trace) == EncountersOf(s.trace)
  {
    ActKeepsGood(s, c, Stopped(cause));
    hide EncountersOf, ResultsOf, ResultsDue, LinesOf, UnhandledNames, FirstOccurrences, Take, Numbered;
  }

  lemma CallKeepsGood(s: State, c: Config)
    ensures Good(s, c) ==> Good(s.(calls := s.calls + 1), c)
  {
  }

  lemma DispatchKeepsGood(s: State, c: Config, v: Visit)
    requires Good(s, c) && !s.rejected
    ensures var t := Dispatch(s, c, v);
            && Good(t, c) && t.blockStates == s.blockStates
            && Extends(c, EncountersOf(s.trace), EncountersOf(t.trace), [Met(v)], !t.rejected, Last(t.trace))
  {
    hide EncountersOf, Good, RunFor;
    CallKeepsGood(s, c);
    var t := s.(calls := s.calls + 1);
    if !c.isTracked {
      RunForKeepsGood(s, c, v);
    } else if c.behave(s.calls).Throws? {
      StopKeepsGood(t, c, ContextThrew(v));
    } else {
      RunForKeepsGood(t, c, v);
    }
  }

  lemma ItemKeepsGood(s: State, c: Config, item: Item, blockState: Option<nat>)
    requires Good(s, c)
    ensures var t := StepItem(s, c, item, blockState);
            && Good(t, c)
            && t.blockStates == s.blockStates
            && (s.rejected ==> t == s)
            && (!s.rejected ==>
                  Extends(c, EncountersOf(s.trace), EncountersOf(t.trace), DueFor(c, item, blockState), !t.rejected, Last(t.trace)))
  {
    hide EncountersOf, Good, Dispatch;
    if !s.rejected && item.isEvent {
      CallKeepsGood(s, c);
      var t := s.(calls := s.calls + 1);
      var name := c.tryParse(item.name);
      if c.behave(s.calls).Throws? {
        StopKeepsGood(t, c, ParseThrew(item));
      } else if name.None? {
        ActKeepsGood(t, c, LoggedDrift(item.name));
      } else {
        DispatchKeepsGood(t, c, Visit(item, name.value, blockState));
      }
    }
  }

  lemma EnterKeepsGood(s: State, c: Config)
    requires Good(s, c) && !s.rejected
    ensures var t := EnterBlock(s, c);
            && Good(t, c)
            && (!t.rejected ==> t.blockStates == s.blockStates + if c.isTracked then 1 else 0)
            && Extends(c, EncountersOf(s.trace), EncountersOf(t.trace),
                       if c.isTracked then [Entered(s.blockStates)] else [], !t.rejected, Last(t.trace))
  {
    hide EncountersOf, Good;
    CallKeepsGood(s, c);
    var t := s.(calls := s.calls + 1);
    if c.isTracked && c.behave(s.calls).Throws? {
      StopKeepsGood(t, c, StateThrew(s.blockStates));
    } else if c.isTracked {
      ActKeepsGood(t, c, MadeState(s.blockStates));
      StatesKeepGood(Act(t, MadeState(s.blockStates)), c, s.blockStates + 1);
    }
  }

  lemma StatesKeepGood(s: State, c: Config, n: nat)
    requires Good(s, c)
    ensures Good(s.(blockStates := n), c)
  {
  }

  // ----- Main results -----

  /** The default handler's log, over any sequence of batches: the first `limit` distinct names, in order of appearance.
      The result hook sees exactly the non-null tracked results, in order. */
  lemma {:induction false} RouterIsGood(c: Config, batches: seq<seq<Block>>)
    ensures Good(AfterBatches(c, batches), c)
  {
    if batches != [] {
      var n := |batches| - 1;
      RouterIsGood(c, batches[..n]);
      BatchIsFilterMap(AfterBatches(c, batches[..n]), c, batches[n]);
    } else {
      assert FirstOccurrences([]) == [];
    }
  }

  function AfterBatches(c: Config, batches: seq<seq<Block>>): State {
    if batches == [] then INIT
    else StepBatch(AfterBatches(c, batches[..|batches| - 1]), c, batches[|batches| - 1])
  }

  /** A batch goes through what its blocks are due, in order: the block's one state on the tracked path, a handler call for
      each recognised event, a drift report for each other one. It goes through all of it, unless it is cut short: behind
      an event whose handler or result hook threw, or before one without a handler, or at a throw of the consumer's
      function that makes the block state, parses the name or makes the context. */
  lemma BatchIsFilterMap(s: State, c: Config, blocks: seq<Block>)
    requires Good(s, c)
    ensures var t := StepBatch(s, c, blocks);
            && Good(t, c)
            && Extends(c, EncountersOf(s.trace), EncountersOf(t.trace), DueIn(c, blocks, s.blockStates), !t.rejected, Last(t.trace))
  {
    BlocksKeepGood(s.(rejected := false), c, blocks);
  }

  function Last(trace: seq<Action>): Option<Action> { if trace == [] then None else Some(trace[|trace| - 1]) }

  /** `after` is `before` with a prefix of `due` behind it: all of it if `complete`, else as much as the last action
      allows. */
  predicate Extends(c: Config, before: seq<Encounter>, after: seq<Encounter>, due: seq<Encounter>, complete: bool,
      last: Option<Action>) {
    && before <= after
    && after[|before|..] <= due
    && (complete ==> after == before + due)
    && (!complete ==> last.Some? && CutAt(c, due, |after| - |before|, last.value))
  }

  /** The action that ended a batch after `n` of its encounters. */
  predicate CutAt(c: Config, due: seq<Encounter>, n: nat, last: Action)
    requires n <= |due|
  {
    match last
    case Called(v, _, outcome) => outcome.Throws? && n > 0 && due[n - 1] == Met(v)
    case Stopped(HookThrew(v, _)) => c.isTracked && n > 0 && due[n - 1] == Met(v)
    case Stopped(NoHandler(v)) => n < |due| && due[n] == Met(v) && HandlerFor(c, v.name).None?
    case Stopped(ContextThrew(v)) => c.isTracked && n < |due| && due[n] == Met(v)
    case Stopped(ParseThrew(item)) => n < |due| && IsOf(due[n], item)
    case Stopped(StateThrew(k)) => c.isTracked && n < |due| && due[n] == Entered(k)
    case _ => false
  }

  predicate IsOf(e: Encounter, item: Item) {
    match e
    case Met(v) => v.item == item
    case Drift(name) => name == item.name
    case Entered(_) => false
  }

  lemma {:induction false} BlocksKeepGood(s: State, c: Config, blocks: seq<Block>)
    requires Good(s, c) && !s.rejected
    ensures var t := StepBlocks(s, c, blocks);
            && Good(t, c)
            && (!t.rejected ==> t.blockStates == s.blockStates + if c.isTracked then |blocks| else 0)
            && Extends(c, EncountersOf(s.trace), EncountersOf(t.trace), DueIn(c, blocks, s.blockStates), !t.rejected, Last(t.trace))
  {
    hide EncountersOf, Good, StepBlock, Extends, DueBlock, Last;
    if blocks != [] {
      var n := |blocks| - 1;
      BlocksKeepGood(s, c, blocks[..n]);
      var u := StepBlocks(s, c, blocks[..n]);
      var due, more := DueIn(c, blocks[..n], s.blockStates),
        DueBlock(c, blocks[n], if c.isTracked then Some(s.blockStates + n) else None);
      if u.rejected {
        RejectedBlockStays(u, c, blocks[n]);
        ExtendsRejected(c, EncountersOf(s.trace), EncountersOf(u.trace), due, more, Last(u.trace));
      } else {
        BlockKeepsGood(u, c, blocks[n]);
        var t := StepBlock(u, c, blocks[n]);
        WholeDue(c, EncountersOf(s.trace), EncountersOf(u.trace), due, Last(u.trace));
        ExtendsConcat(c, EncountersOf(s.trace), EncountersOf(u.trace), EncountersOf(t.trace), due, more, !t.rejected,
                      Last(t.trace));
      }
    } else {
      ExtendsNothing(c, EncountersOf(s.trace), Last(s.trace));
    }
  }

  lemma RejectedBlockStays(s: State, c: Config, block: Block)
    requires s.rejected
    ensures StepBlock(s, c, block) == s
  {
  }

  lemma ExtendsNothing(c: Config, a: seq<Encounter>, last: Option<Action>)
    ensures Extends(c, a, a, [], true, last)
  {
  }

  lemma BlockKeepsGood(s: State, c: Config, block: Block)
    requires Good(s, c) && !s.rejected
    ensures var t := StepBlock(s, c, block);
            && Good(t, c)
            && (!t.rejected ==> t.blockStates == s.blockStates + if c.isTracked then 1 else 0)
            && Extends(c, EncountersOf(s.trace), EncountersOf(t.trace), DueBlock(c, block, StateOf(s, c)), !t.rejected,
                       Last(t.trace))
  {
    hide EncountersOf, EnterBlock, StepItems, Due, Last, Good, Extends;
    EnterKeepsGood(s, c);
    var u := EnterBlock(s, c);
    var t := StepBlock(s, c, block);
    var first := if c.isTracked then [Entered(s.blockStates)] else [];
    if u.rejected {
      StoppedItemsStay(u, c, block, StateOf(s, c));
      ExtendsRejected(c, EncountersOf(s.trace), EncountersOf(u.trace), first, Due(c, block, StateOf(s, c)), Last(u.trace));
    } else {
      ItemsKeepGood(u, c, block, StateOf(s, c));
      WholeDue(c, EncountersOf(s.trace), EncountersOf(u.trace), first, Last(u.trace));
      ExtendsConcat(c, EncountersOf(s.trace), EncountersOf(u.trace), EncountersOf(t.trace), first,
                    Due(c, block, StateOf(s, c)), !t.rejected, Last(t.trace));
    }
  }

  lemma StoppedItemsStay(s: State, c: Config, items: seq<Item>, blockState: Option<nat>)
    requires s.rejected
    ensures StepItems(s, c, items, blockState) == s
  {
    assert items[..0] == [];
    RejectedStays(s, c, items, 0, blockState);
  }

  lemma ExtendsConcat(c: Config, a: seq<Encounter>, b: seq<Encounter>, d: seq<Encounter>,
      due1: seq<Encounter>, due2: seq<Encounter>, complete: bool, last: Option<Action>)
    requires b == a + due1 && Extends(c, b, d, due2, complete, last)
    ensures Extends(c, a, d, due1 + due2, complete, last)
  {
    hide HandlerFor, IsOf;
    var n, m := |d| - |b|, |d| - |a|;
    assert d[|a|..] == due1 + d[|b|..];
    assert n < |due2| ==> (due1 + due2)[m] == due2[n];
    assert n > 0 ==> (due1 + due2)[m - 1] == due2[n - 1];
  }

  lemma ExtendsRejected(c: Config, a: seq<Encounter>, b: seq<Encounter>, due1: seq<Encounter>, due2: seq<Encounter>,
      last: Option<Action>)
    requires Extends(c, a, b, due1, false, last)
    ensures Extends(c, a, b, due1 + due2, false, last)
  {
    hide HandlerFor, IsOf;
    var n := |b| - |a|;
    assert n < |due1| ==> (due1 + due2)[n] == due1[n];
    assert n > 0 ==> (due1 + due2)[n - 1] == due1[n - 1];
  }

  lemma {:induction false} ItemsKeepGood(s: State, c: Config, items: seq<Item>, blockState: Option<nat>)
    requires Good(s, c) && !s.rejected
    ensures var t := StepItems(s, c, items, blockState);
            && Good(t, c)
            && t.blockStates == s.blockStates
            && Extends(c, EncountersOf(s.trace), EncountersOf(t.trace), Due(c, items, blockState), !t.rejected, Last(t.trace))
  {
    hide EncountersOf, Good, StepItem, DueFor, Extends, Last;
    if items != [] {
      var front, item := items[..|items| - 1], items[|items| - 1];
      ItemsKeepGood(s, c, front, blockState);
      var u := StepItems(s, c, front, blockState);
      ItemKeepsGood(u, c, item, blockState);
      var t := StepItems(s, c, items, blockState);
      if !u.rejected {
        WholeDue(c, EncountersOf(s.trace), EncountersOf(u.trace), Due(c, front, blockState), Last(u.trace));
        ExtendsConcat(c, EncountersOf(s.trace), EncountersOf(u.trace), EncountersOf(t.trace), Due(c, front, blockState),
                      DueFor(c, item, blockState), !t.rejected, Last(t.trace));
      } else {
        ExtendsRejected(c, EncountersOf(s.trace), EncountersOf(u.trace), Due(c, front, blockState),
                        DueFor(c, item, blockState), Last(u.trace));
      }
    } else {
      ExtendsNothing(c, EncountersOf(s.trace), Last(s.trace));
    }
  }

  lemma WholeDue(c: Config, a: seq<Encounter>, b: seq<Encounter>, due: seq<Encounter>, last: Option<Action>)
    requires Extends(c, a, b, due, true, last)
    ensures b == a + due
  {
  }

  // ----- Failures -----

  predicate IsFailure(a: Action) { a.Stopped? || (a.Called? && a.outcome.Throws?) }

  function Failures(trace: seq<Action>): nat {
    if trace == [] then 0
    else Failures(trace[..|trace| - 1]) + if IsFailure(trace[|trace| - 1]) then 1 else 0
  }

  lemma FailuresSnoc(t: seq<Action>, a: Action)
    ensures Failures(t + [a]) == Failures(t) + if IsFailure(a) then 1 else 0
  {
    assert (t + [a])[..|t|] == t;
  }

  /** No failure goes unnoticed: a batch is rejected exactly when something in it failed, and nothing happens after. */
  lemma BatchFailsAtOnce(s: State, c: Config, blocks: seq<Block>)
    ensures var t := StepBatch(s, c, blocks);
            Failures(t.trace) == Failures(s.trace) + if t.rejected then 1 else 0
  {
    BlocksFail(s.(rejected := false), c, blocks);
  }

  lemma {:induction false} BlocksFail(s: State, c: Config, blocks: seq<Block>)
    requires !s.rejected
    ensures var t := StepBlocks(s, c, blocks); Failures(t.trace) == Failures(s.trace) + if t.rejected then 1 else 0
  {
    hide Failures, EnterBlock, StepItems;
    if blocks != [] {
      var n := |blocks| - 1;
      BlocksFail(s, c, blocks[..n]);
      var u := StepBlocks(s, c, blocks[..n]);
      var v := EnterBlock(u, c);
      EnterFails(u, c);
      if v.rejected {
        StoppedItemsStay(v, c, blocks[n], StateOf(u, c));
      } else {
        ItemsFail(v, c, blocks[n], StateOf(u, c));
      }
    }
  }

  lemma EnterFails(s: State, c: Config)
    ensures !s.rejected ==>
              Failures(EnterBlock(s, c).trace) == Failures(s.trace) + if EnterBlock(s, c).rejected then 1 else 0
  {
    FailuresSnoc(s.trace, Stopped(StateThrew(s.blockStates)));
    FailuresSnoc(s.trace, MadeState(s.blockStates));
    hide Failures;
  }

  lemma {:induction false} ItemsFail(s: State, c: Config, items: seq<Item>, blockState: Option<nat>)
    requires !s.rejected
    ensures var t := StepItems(s, c, items, blockState);
            Failures(t.trace) == Failures(s.trace) + if t.rejected then 1 else 0
  {
    hide Failures, StepItem;
    if items != [] {
      ItemsFail(s, c, items[..|items| - 1], blockState);
      ItemFails(StepItems(s, c, items[..|items| - 1], blockState), c, items[|items| - 1], blockState);
    }
  }

  lemma ItemFails(s: State, c: Config, item: Item, blockState: Option<nat>)
    ensures var t := StepItem(s, c, item, blockState);
            if s.rejected then t == s else Failures(t.trace) == Failures(s.trace) + if t.rejected then 1 else 0
  {
    hide Failures, RunFor;
    var n := c.tryParse(item.name);
    FailuresSnoc(s.trace, Stopped(ParseThrew(item)));
    FailuresSnoc(s.trace, LoggedDrift(item.name));
    if n.Some? {
      var v := Visit(item, n.value, blockState);
      FailuresSnoc(s.trace, Stopped(ContextThrew(v)));
      RunFails(s.(calls := s.calls + 1), c, v);
      RunFails(s.(calls := s.calls + 2), c, v);
    }
  }

  lemma RunFails(s: State, c: Config, v: Visit)
    ensures !s.rejected ==>
              Failures(RunFor(s, c, v).trace) == Failures(s.trace) + if RunFor(s, c, v).rejected then 1 else 0
  {
    hide Failures, HandlerFor;
    var h := HandlerFor(c, v.name);
    FailuresSnoc(s.trace, Stopped(NoHandler(v)));
    if h.Some? && h.value.Noop? {
      var called := Called(v, Noop, if v.item.record.None? then Throws else Null);
      FailuresSnoc(s.trace, called);
      if v.item.record.Some? {
        FailuresSnoc(s.trace + [called], LoggedUnhandled(v.item.record.value, |s.logged| + 1));
      }
    } else if h.Some? {
      var outcome := c.behave(s.calls);
      var t := s.trace + [Called(v, h.value, outcome)];
      FailuresSnoc(s.trace, Called(v, h.value, outcome));
      if outcome.Value? {
        FailuresSnoc(t, Resulted(v, outcome.r));
        FailuresSnoc(t + [Resulted(v, outcome.r)], Stopped(HookThrew(v, outcome.r)));
      }
    }
  }

  // ----- What the consumer's code did -----

  /** The calls into the consumer's code that an action of the trace stands for: the name is parsed for every event met,
      then, on the tracked path, a context is made for every recognised one; then a handler of the consumer runs. */
  function CallsOf(c: Config, a: Action): nat {
    var perEvent := if c.isTracked then 2 else 1;
    match a
    case MadeState(_) => 1
    case LoggedDrift(_) => 1
    case Called(_, h, _) => if h.Noop? then perEvent else perEvent + 1
    case Resulted(_, _) => 1
    case LoggedUnhandled(_, _) => 0
    case Stopped(StateThrew(_)) => 1
    case Stopped(ParseThrew(_)) => 1
    case Stopped(ContextThrew(_)) => perEvent
    case Stopped(NoHandler(_)) => perEvent
    case Stopped(HookThrew(_, _)) => 0
  }

  function CallsIn(c: Config, trace: seq<Action>): nat {
    if trace == [] then 0 else CallsIn(c, trace[..|trace| - 1]) + CallsOf(c, trace[|trace| - 1])
  }

  /** None of the consumer's calls from number `a` up to `b` throws. */
  predicate Quiet(c: Config, a: nat, b: nat) { forall k :: a <= k < b ==> !c.behave(k).Throws? }

  /** What an action says about the calls it stands for, the first of which is number `n`: which of them threw, and that the
      outcome written down is the one the handler had. A throw of `onResult` is told by the action behind it. */
  predicate Truthful(c: Config, a: Action, n: nat) {
    var perEvent := if c.isTracked then 2 else 1;
    match a
    case MadeState(_) => Quiet(c, n, n + 1)
    case LoggedDrift(_) => Quiet(c, n, n + 1)
    case Called(v, Noop, outcome) =>
      Quiet(c, n, n + perEvent) && outcome == if v.item.record.None? then Throws else Null
    case Called(_, _, outcome) => Quiet(c, n, n + perEvent) && outcome == c.behave(n + perEvent)
    case Resulted(_, _) => true
    case LoggedUnhandled(_, _) => true
    case Stopped(StateThrew(_)) => !Quiet(c, n, n + 1)
    case Stopped(ParseThrew(_)) => !Quiet(c, n, n + 1)
    case Stopped(ContextThrew(_)) => Quiet(c, n, n + 1) && !Quiet(c, n + 1, n + 2)
    case Stopped(NoHandler(_)) => Quiet(c, n, n + perEvent)
    case Stopped(HookThrew(_, _)) => n > 0 && !Quiet(c, n - 1, n)
  }

  predicate TruthfulAt(c: Config, trace: seq<Action>, i: nat) {
    i < |trace| && Truthful(c, trace[i], CallsIn(c, trace[..i]))
  }

  /** Faults that are no throw of the consumer's: a missing handler, an unhandled event without its record. */
  predicate IsFault(a: Action) {
    (a.Stopped? && a.cause.NoHandler?) || (a.Called? && a.handler.Noop? && a.visit.item.record.None?)
  }

  function Faults(trace: seq<Action>): nat {
    if trace == [] then 0 else Faults(trace[..|trace| - 1]) + if IsFault(trace[|trace| - 1]) then 1 else 0
  }

  /** The trace accounts for every call into the consumer's code. */
  predicate Accounted(s: State, c: Config) {
    s.calls == CallsIn(c, s.trace) && forall i :: 0 <= i < |s.trace| ==> TruthfulAt(c, s.trace, i)
  }

  /** From `s` on: the batch is rejected exactly if a call of the consumer threw, or for a fault of its own. */
  predicate Noticed(s: State, t: State, c: Config) {
    s.calls <= t.calls && Faults(s.trace) <= Faults(t.trace) &&
    (t.rejected <==> !Quiet(c, s.calls, t.calls) || Faults(t.trace) > Faults(s.trace))
  }

  lemma CountsSnoc(c: Config, t: seq<Action>, a: Action)
    ensures CallsIn(c, t + [a]) == CallsIn(c, t) + CallsOf(c, a)
    ensures Faults(t + [a]) == Faults(t) + if IsFault(a) then 1 else 0
  {
    assert (t + [a])[..|t|] == t;
  }

  lemma AccountedSnoc(s: State, c: Config, a: Action, calls: nat)
    requires Accounted(s, c) && Truthful(c, a, s.calls) && calls == s.calls + CallsOf(c, a)
    ensures Accounted(Act(s, a).(calls := calls), c)
    ensures Faults(Act(s, a).trace) == Faults(s.trace) + if IsFault(a) then 1 else 0
  {
    hide CallsIn, Truthful, CallsOf, Faults;
    var t := s.trace + [a];
    CountsSnoc(c, s.trace, a);
    forall i | 0 <= i < |t|
      ensures TruthfulAt(c, t, i)
    {
      if i < |s.trace| {
        assert TruthfulAt(c, s.trace, i) && t[..i] == s.trace[..i];
      } else {
        assert t[..i] == s.trace;
      }
    }
  }

  lemma RejectedIsAccounted(s: State, c: Config, rejected: bool)
    requires Accounted(s, c)
    ensures Accounted(s.(rejected := rejected), c)
  {
  }

  lemma QuietOne(c: Config, a: nat)
    ensures Quiet(c, a, a) && (Quiet(c, a, a + 1) <==> !c.behave(a).Throws?)
  {
  }

  lemma QuietSplits(c: Config, a: nat, b: nat, d: nat)
    requires a <= b <= d
    ensures Quiet(c, a, d) <==> Quiet(c, a, b) && Quiet(c, b, d)
  {
  }

  lemma NoticedThen(s: State, u: State, t: State, c: Config)
    requires Noticed(s, u, c) && !u.rejected && Noticed(u, t, c)
    ensures Noticed(s, t, c)
  {
    QuietSplits(c, s.calls, u.calls, t.calls);
    hide Quiet, Faults;
  }

  /** One action that needs no other: it stands for all the calls, and tells whether it ends the batch. */
  lemma OneAction(s: State, t: State, c: Config, a: Action)
    requires Accounted(s, c) && Truthful(c, a, s.calls)
    requires t.trace == s.trace + [a] && t.calls == s.calls + CallsOf(c, a)
    requires t.rejected <==> !Quiet(c, s.calls, t.calls) || IsFault(a)
    ensures Accounted(t, c) && Noticed(s, t, c)
  {
    hide CallsOf, Truthful, TruthfulAt, Quiet, IsFault;
    AccountedSnoc(s, c, a, t.calls);
    hide CallsIn, Faults;
  }

  lemma ItemIsAccounted(s: State, c: Config, item: Item, blockState: Option<nat>)
    requires Accounted(s, c) && !s.rejected
    ensures var t := StepItem(s, c, item, blockState); Accounted(t, c) && Noticed(s, t, c)
  {
    hide Accounted, RunFor, TruthfulAt, Quiet, CallsIn, Faults;
    var n, t := s.calls, StepItem(s, c, item, blockState);
    QuietOne(c, n);
    QuietOne(c, n + 1);
    QuietSplits(c, n, n + 1, n + 2);
    if item.isEvent {
      var name := c.tryParse(item.name);
      if c.behave(n).Throws? {
        OneAction(s, t, c, Stopped(ParseThrew(item)));
      } else if name.None? {
        OneAction(s, t, c, LoggedDrift(item.name));
      } else {
        var v := Visit(item, name.value, blockState);
        if c.isTracked && c.behave(n + 1).Throws? {
          OneAction(s, t, c, Stopped(ContextThrew(v)));
        } else {
          RunIsAccounted(s, c, v);
        }
      }
    }
  }

  /** From the lookup on: the calls before it have been made and have not thrown. */
  lemma RunIsAccounted(s: State, c: Config, v: Visit)
    requires Accounted(s, c) && !s.rejected && Quiet(c, s.calls, s.calls + if c.isTracked then 2 else 1)
    ensures var t := RunFor(s.(calls := s.calls + if c.isTracked then 2 else 1), c, v); Accounted(t, c) && Noticed(s, t, c)
  {
    hide Accounted, TruthfulAt, Quiet, CallsIn, Faults, HandlerFor, Noticed;
    var m := s.calls + if c.isTracked then 2 else 1;
    var u := s.(calls := m);
    var t, h := RunFor(u, c, v), HandlerFor(c, v.name);
    if h.None? {
      OneAction(s, t, c, Stopped(NoHandler(v)));
    } else if h.value.Noop? {
      NoopIsAccounted(s, u, c, v);
    } else {
      HandlerIsAccounted(s, u, c, v, h.value);
    }
  }

  lemma NoopIsAccounted(s: State, u: State, c: Config, v: Visit)
    requires Accounted(s, c) && !s.rejected && u == s.(calls := s.calls + if c.isTracked then 2 else 1)
    requires Quiet(c, s.calls, u.calls)
    ensures var t := RunNoop(u, c, v); Accounted(t, c) && Noticed(s, t, c)
  {
    hide TruthfulAt, Quiet, CallsIn, Faults, Noticed, Accounted;
    var a := Called(v, Noop, if v.item.record.None? then Throws else Null);
    var w, t := Act(u, a), RunNoop(u, c, v);
    if v.item.record.None? {
      OneAction(s, t, c, a);
    } else {
      OneAction(s, w, c, a);
      var line := LoggedUnhandled(v.item.record.value, |s.logged| + 1);
      QuietOne(c, w.calls);
      if t.trace == w.trace {
        SameAccount(s, w, t, c);
      } else {
        OneAction(w, t, c, line);
        NoticedThen(s, w, t, c);
      }
    }
  }

  lemma SameAccount(s: State, w: State, t: State, c: Config)
    requires w.trace == t.trace && w.calls == t.calls && w.rejected == t.rejected
    ensures Accounted(w, c) ==> Accounted(t, c)
    ensures Noticed(s, w, c) ==> Noticed(s, t, c)
  {
  }

  lemma HandlerIsAccounted(s: State, u: State, c: Config, v: Visit, h: Handler)
    requires Accounted(s, c) && !s.rejected && u == s.(calls := s.calls + if c.isTracked then 2 else 1)
    requires Quiet(c, s.calls, u.calls) && !h.Noop?
    ensures var t := RunHandler(u, c, v, h); Accounted(t, c) && Noticed(s, t, c)
  {
    hide TruthfulAt, Quiet, CallsIn, Faults, Noticed, Accounted;
    var m, outcome := u.calls, c.behave(u.calls);
    var a, t := Called(v, h, outcome), RunHandler(u, c, v, h);
    QuietOne(c, m);
    QuietSplits(c, s.calls, m, m + 1);
    var w := Act(u, a).(calls := m + 1, rejected := outcome.Throws?);
    OneAction(s, w, c, a);
    if outcome.Value? && h.Tracked? && c.isTracked {
      HookIsAccounted(w, c, v, outcome.r);
      NoticedThen(s, w, t, c);
    } else {
      SameAccount(s, w, t, c);
    }
  }

  lemma HookIsAccounted(w: State, c: Config, v: Visit, r: nat)
    requires Accounted(w, c) && !w.rejected
    ensures var t := RunHook(w, c, v, r); Accounted(t, c) && Noticed(w, t, c)
  {
    hide TruthfulAt, Quiet, CallsIn;
    var n, t := w.calls, RunHook(w, c, v, r);
    QuietOne(c, n);
    QuietOne(c, n + 1);
    AccountedSnoc(w, c, Resulted(v, r), n + 1);
    var x := Act(w, Resulted(v, r)).(calls := n + 1);
    if c.behave(n).Throws? {
      AccountedSnoc(x, c, Stopped(HookThrew(v, r)), n + 1);
    }
    hide Faults;
  }

  lemma {:induction false} ItemsAreAccounted(s: State, c: Config, items: seq<Item>, blockState: Option<nat>)
    requires Accounted(s, c) && !s.rejected
    ensures var t := StepItems(s, c, items, blockState); Accounted(t, c) && Noticed(s, t, c)
  {
    hide Accounted, StepItem, Noticed;
    if items == [] {
      NothingToNotice(s, c);
    } else {
      var front, item := items[..|items| - 1], items[|items| - 1];
      ItemsAreAccounted(s, c, front, blockState);
      var u := StepItems(s, c, front, blockState);
      if u.rejected {
        StoppedItemStays(u, c, item, blockState);
      } else {
        ItemIsAccounted(u, c, item, blockState);
        NoticedThen(s, u, StepItem(u, c, item, blockState), c);
      }
    }
  }

  lemma StoppedItemStays(s: State, c: Config, item: Item, blockState: Option<nat>)
    ensures s.rejected ==> StepItem(s, c, item, blockState) == s
  {
  }

  lemma NothingToNotice(s: State, c: Config)
    ensures !s.rejected ==> Noticed(s, s, c)
  {
  }

  lemma EnterIsAccounted(s: State, c: Config)
    requires Accounted(s, c) && !s.rejected
    ensures var t := EnterBlock(s, c); Accounted(t, c) && Noticed(s, t, c)
  {
    hide Accounted, TruthfulAt, Quiet, CallsIn, Faults, Noticed;
    var t := EnterBlock(s, c);
    QuietOne(c, s.calls);
    if !c.isTracked {
      NothingToNotice(s, c);
    } else if c.behave(s.calls).Throws? {
      OneAction(s, t, c, Stopped(StateThrew(s.blockStates)));
    } else {
      OneAction(s, t, c, MadeState(s.blockStates));
    }
  }

  lemma {:induction false} BlocksAreAccounted(s: State, c: Config, blocks: seq<Block>)
    requires Accounted(s, c) && !s.rejected
    ensures var t := StepBlocks(s, c, blocks); Accounted(t, c) && Noticed(s, t, c)
  {
    hide Accounted, Noticed, EnterBlock, StepItems;
    if blocks == [] {
      NothingToNotice(s, c);
    } else {
      var n := |blocks| - 1;
      BlocksAreAccounted(s, c, blocks[..n]);
      var u := StepBlocks(s, c, blocks[..n]);
      if !u.rejected {
        var w := EnterBlock(u, c);
        EnterIsAccounted(u, c);
        NoticedThen(s, u, w, c);
        if w.rejected {
          StoppedItemsStay(w, c, blocks[n], StateOf(u, c));
        } else {
          ItemsAreAccounted(w, c, blocks[n], StateOf(u, c));
          NoticedThen(s, w, StepItems(w, c, blocks[n], StateOf(u, c)), c);
        }
      }
    }
  }

  /** The trace is the truth about the consumer's code: it accounts for every call, in order, and tells which one threw and
      what each handler did. And a throw is never swallowed: a batch is rejected if and only if one of the calls made
      during it threw, or a recognised event had no handler, or an unhandled one no record. */
  lemma ThrowsAreNoticed(s: State, c: Config, blocks: seq<Block>)
    requires Accounted(s, c)
    ensures var t := StepBatch(s, c, blocks);
            && Accounted(t, c)
            && s.calls <= t.calls
            && (t.rejected <==>
                  (exists k :: s.calls <= k < t.calls && c.behave(k).Throws?) || Faults(t.trace) > Faults(s.trace))
  {
    RejectedIsAccounted(s, c, false);
    BlocksAreAccounted(s.(rejected := false), c, blocks);
    hide Accounted, StepBlocks, Faults;
  }

  lemma {:induction false} RouterIsAccounted(c: Config, batches: seq<seq<Block>>)
    ensures Accounted(AfterBatches(c, batches), c)
  {
    hide Accounted, StepBatch;
    if batches != [] {
      var n := |batches| - 1;
      RouterIsAccounted(c, batches[..n]);
      ThrowsAreNoticed(AfterBatches(c, batches[..n]), c, batches[n]);
    } else {
      NothingAccounted(c);
    }
  }

  lemma NothingAccounted(c: Config)
    ensures Accounted(INIT, c)
  {
  }

  // ----- Which handler is called -----

  lemma {:induction false} DefaultsCover(names: seq<string>, name: string)
    ensures name in Defaults(names) <==> name in names
    ensures name in names ==> Defaults(names)[name] == Some(Noop)
  {
    if names != [] {
      DefaultsCover(names[..|names| - 1], name);
      assert names == names[..|names| - 1] + [names[|names| - 1]];
    }
  }

  /** A call goes to the event's override if there is one, else to the default handler of a subscribed name; there is no
      handler for an override that is `undefined` and for a name neither overridden nor subscribed. */
  predicate Dispatched(c: Config, a: Action) {
    match a
    case Called(v, h, _) =>
      && c.tryParse(v.item.name) == Some(v.name)
      && if v.name in c.overrides then c.overrides[v.name] == Some(h) else v.name in c.allEvents && h == Noop
    case Stopped(NoHandler(v)) =>
      && c.tryParse(v.item.name) == Some(v.name)
      && if v.name in c.overrides then c.overrides[v.name].None? else v.name !in c.allEvents
    case _ => true
  }

  predicate AllDispatched(c: Config, trace: seq<Action>) { forall i :: 0 <= i < |trace| ==> Dispatched(c, trace[i]) }

  lemma {:induction false} CallsAreDispatched(c: Config, batches: seq<seq<Block>>)
    ensures AllDispatched(c, AfterBatches(c, batches).trace)
  {
    if batches != [] {
      var n := |batches| - 1;
      CallsAreDispatched(c, batches[..n]);
      BlocksDispatch(AfterBatches(c, batches[..n]).(rejected := false), c, batches[n]);
    }
  }

  lemma {:induction false} BlocksDispatch(s: State, c: Config, blocks: seq<Block>)
    requires AllDispatched(c, s.trace)
    ensures AllDispatched(c, StepBlocks(s, c, blocks).trace)
  {
    if blocks != [] {
      var n := |blocks| - 1;
      BlocksDispatch(s, c, blocks[..n]);
      var u := StepBlocks(s, c, blocks[..n]);
      ItemsDispatch(EnterBlock(u, c), c, blocks[n], StateOf(u, c));
      hide StepItems;
    }
  }

  lemma {:induction false} ItemsDispatch(s: State, c: Config, items: seq<Item>, blockState: Option<nat>)
    requires AllDispatched(c, s.trace)
    ensures AllDispatched(c, StepItems(s, c, items, blockState).trace)
  {
    if items != [] {
      ItemsDispatch(s, c, items[..|items| - 1], blockState);
      ItemDispatches(StepItems(s, c, items[..|items| - 1], blockState), c, items[|items| - 1], blockState);
      hide AllDispatched, StepItem;
    }
  }

  lemma ItemDispatches(s: State, c: Config, item: Item, blockState: Option<nat>)
    requires AllDispatched(c, s.trace)
    ensures AllDispatched(c, StepItem(s, c, item, blockState).trace)
  {
    hide RunFor, AllDispatched;
    var name := c.tryParse(item.name);
    DispatchedSnoc(c, s.trace, Stopped(ParseThrew(item)));
    DispatchedSnoc(c, s.trace, LoggedDrift(item.name));
    if name.Some? {
      var v := Visit(item, name.value, blockState);
      DispatchedSnoc(c, s.trace, Stopped(ContextThrew(v)));
      RunDispatches(s.(calls := s.calls + 1), c, v);
      RunDispatches(s.(calls := s.calls + 2), c, v);
    }
  }

  lemma DispatchedSnoc(c: Config, t: seq<Action>, a: Action)
    ensures AllDispatched(c, t) && Dispatched(c, a) ==> AllDispatched(c, t + [a])
  {
    hide Dispatched;
  }

  lemma RunDispatches(s: State, c: Config, v: Visit)
    requires AllDispatched(c, s.trace) && c.tryParse(v.item.name) == Some(v.name)
    ensures AllDispatched(c, RunFor(s, c, v).trace)
  {
    DefaultsCover(c.allEvents, v.name);
    hide Defaults, AllDispatched;
    var h := HandlerFor(c, v.name);
    DispatchedSnoc(c, s.trace, Stopped(NoHandler(v)));
    if h.Some? && h.value.Noop? {
      var called := Called(v, Noop, if v.item.record.None? then Throws else Null);
      DispatchedSnoc(c, s.trace, called);
      if v.item.record.Some? {
        DispatchedSnoc(c, s.trace + [called], LoggedUnhandled(v.item.record.value, |s.logged| + 1));
      }
    } else if h.Some? {
      var outcome := c.behave(s.calls);
      var t := s.trace + [Called(v, h.value, outcome)];
      DispatchedSnoc(c, s.trace, Called(v, h.value, outcome));
      if outcome.Value? {
        DispatchedSnoc(c, t, Resulted(v, outcome.r));
        DispatchedSnoc(c, t + [Resulted(v, outcome.r)], Stopped(HookThrew(v, outcome.r)));
      }
    }
  }
}
