/** The generation guard of the chain boundary (packages/chain/papi-chain/src/index.ts:129-199, 294-332). */
module Connection {
  import opened Prelude

  type Status = nat

  /** A client and, over WebSocket, the generation of its provider. */
  datatype Client = Client(id: nat, generation: Option<nat>)

  /** A call of `client()` that is building its provider - on behalf of an `api()` that found no api cached, or not - or a
      call of `disconnect()` that is destroying the client: callbacks delivered meanwhile may call the object again. */
  datatype Frame = Connecting(generation: Option<nat>, forApi: bool) | Disconnecting

  datatype Event =
    | ConnectBegin(forApi: bool)                   // `client()` without a cached client: the provider is built
    | ConnectEnd                                   // ... and `createClient` has returned
    | StatusChanged(generation: nat, status: Status) // a provider delivers a status
    | Api                                          // `api()` with a cached client, or a cached api
    | DisconnectBegin
    | DisconnectEnd

  datatype State = State(
    generation: nat,
    client: Option<Client>,
    lastStatus: Option<Status>,
    smoldot: Option<nat>,
    api: Option<nat>,                  // the client the typed api was made from
    // the world around the object
    stack: seq<Frame>,
    providers: set<nat>,               // generations of the WebSocket providers built
    clients: nat,                      // clients created; numbered from 0
    alive: set<nat>,                   // clients not destroyed
    workers: nat,                      // smoldot workers started
    running: set<nat>,                 // smoldot workers not terminated
    forwarded: seq<(nat, Status)>)     // what `onStatusChanged` of the application saw, with the provider

  const INIT := State(0, None, None, None, None, [], {}, 0, {}, 0, {}, [])

  function Top(s: State): Frame
    requires s.stack != []
  {
    s.stack[|s.stack| - 1]
  }

  function Pop(s: State): State
    requires s.stack != []
  {
    s.(stack := s.stack[..|s.stack| - 1])
  }

  predicate Enabled(s: State, e: Event) {
    match e
    case ConnectBegin(forApi) => s.client.None? && (forApi ==> s.api.None?)
    case ConnectEnd => s.stack != [] && Top(s).Connecting?
    case StatusChanged(g, _) => g in s.providers
    case Api => s.client.Some? || s.api.Some?
    case DisconnectBegin => true
    case DisconnectEnd => s.stack != [] && Top(s).Disconnecting?
  }

  function Step(s: State, e: Event, ws: bool): State
    requires Enabled(s, e)
  {
    match e
    case ConnectBegin(forApi) =>
      if ws then
        var g := s.generation + 1;
        s.(generation := g, providers := s.providers + {g}, stack := s.stack + [Connecting(Some(g), forApi)])
      else
        s.(smoldot := Some(s.workers), running := s.running + {s.workers}, workers := s.workers + 1,
           stack := s.stack + [Connecting(None, forApi)])
    case ConnectEnd =>
      // an `api()` that waited for the client overwrites whatever is cached by now
      Pop(s).(client := Some(Client(s.clients, Top(s).generation)),
              api := if Top(s).forApi then Some(s.clients) else s.api,
              clients := s.clients + 1, alive := s.alive + {s.clients})
    case StatusChanged(g, status) =>
      if g != s.generation then s else s.(lastStatus := Some(status), forwarded := s.forwarded + [(g, status)])
    case Api => if s.api.None? then s.(api := Some(s.client.value.id)) else s
    case DisconnectBegin =>
      var t := s.(api := None, generation := s.generation + 1, stack := s.stack + [Disconnecting]);
      if s.client.Some? then t.(alive := t.alive - {s.client.value.id}) else t
    case DisconnectEnd =>
      var t := Pop(s).(client := None, lastStatus := None, smoldot := None);
      if s.smoldot.Some? then t.(running := t.running - {s.smoldot.value}) else t
  }

  /** A whole call of `client()` without a cached client - from `api()` or not - and of `disconnect()`. */
  function Connect(s: State, forApi: bool, ws: bool): State
    requires s.client.None? && (forApi ==> s.api.None?)
  {
    Step(Step(s, ConnectBegin(forApi), ws), ConnectEnd, ws)
  }

  function Teardown(s: State, ws: bool): State { Step(Step(s, DisconnectBegin, ws), DisconnectEnd, ws) }

  /** `Chain`, with the members it inherits from `ChainBase`. Each call is cut in two where callbacks may run. */
  class Chain {
    const ws: bool
    var generation: nat
    var client: Option<Client>
    var lastStatus: Option<Status>
    var smoldot: Option<nat>
    var api: Option<nat>
    ghost var world: State

    /** The fields, together with the part of the world the object cannot see. */
    ghost function Now(): State
      reads this
    {
      world.(generation := generation, client := client, lastStatus := lastStatus, smoldot := smoldot, api := api)
    }

    constructor (ws: bool)
      ensures Now() == INIT && this.ws == ws
    {
      this.ws := ws;
      generation, client, lastStatus, smoldot, api := 0, None, None, None, None;
      world := INIT;
    }

    /** The provider is built; `newWorker` is the worker started for a light client. */
    method BeginConnect(forApi: bool, newWorker: nat) returns (g: Option<nat>)
      requires client.None? && (forApi ==> api.None?) && newWorker == world.workers
      modifies this
      ensures Now() == Step(old(Now()), ConnectBegin(forApi), ws)
      ensures Top(Now()) == Connecting(g, forApi)
    {
      g := None;
      if ws {
        generation := generation + 1;
        g := Some(generation);
        world := world.(providers := world.providers + {generation});
      } else {
        smoldot := Some(newWorker);
        world := world.(running := world.running + {newWorker}, workers := newWorker + 1);
      }
      world := world.(stack := world.stack + [Connecting(g, forApi)]);
    }

    /** `createClient` has returned `newClient`. */
    method EndConnect(g: Option<nat>, forApi: bool, newClient: nat)
      requires world.stack != [] && Top(world) == Connecting(g, forApi) && newClient == world.clients
      modifies this
      ensures Now() == Step(old(Now()), ConnectEnd, ws)
    {
      client := Some(Client(newClient, g));
      if forApi {
        api := Some(newClient);
      }
      world := world.(stack := world.stack[..|world.stack| - 1], clients := newClient + 1, alive := world.alive + {newClient});
    }

    /** `client()`, with no call from inside. */
    method GetClient(newClient: nat, newWorker: nat) returns (c: Client)
      requires newClient == world.clients && newWorker == world.workers
      modifies this
      ensures Now() == if old(client).Some? then old(Now()) else Connect(old(Now()), false, ws)
      ensures client == Some(c)
    {
      if client.None? {
        var g := BeginConnect(false, newWorker);
        EndConnect(g, false, newClient);
      }
      c := client.value;
    }

    /** `api()`, with no call from inside. */
    method GetApi(newClient: nat, newWorker: nat) returns (a: nat)
      requires newClient == world.clients && newWorker == world.workers
      modifies this
      ensures Now() ==
              if old(client).Some? || old(api).Some? then Step(old(Now()), Api, ws) else Connect(old(Now()), true, ws)
      ensures api == Some(a)
    {
      if api.None? {
        if client.None? {
          var g := BeginConnect(true, newWorker);
          EndConnect(g, true, newClient);
        } else {
          api := Some(client.value.id);
        }
      }
      a := api.value;
    }

    /** The status callback of the provider built at `g`; `forward` says whether the application is told. */
    method OnStatusChanged(g: nat, status: Status) returns (forward: bool)
      requires g in world.providers
      modifies this
      ensures Now() == Step(old(Now()), StatusChanged(g, status), ws)
      ensures forward <==> Now().forwarded == old(Now()).forwarded + [(g, status)]
    {
      forward := g == generation;
      if !forward {
        return;
      }
      lastStatus := Some(status);
      world := world.(forwarded := world.forwarded + [(g, status)]);
    }

    /** Up to the destruction of the client. */
    method BeginDisconnect()
      modifies this
      ensures Now() == Step(old(Now()), DisconnectBegin, ws)
    {
      api := None;
      generation := generation + 1;
      if client.Some? {
        world := world.(alive := world.alive - {client.value.id});
      }
      world := world.(stack := world.stack + [Disconnecting]);
    }

    method EndDisconnect()
      requires world.stack != [] && Top(world) == Disconnecting
      modifies this
      ensures Now() == Step(old(Now()), DisconnectEnd, ws)
    {
      client := None;
      lastStatus := None;
      if smoldot.Some? {
        world := world.(running := world.running - {smoldot.value});
      }
      smoldot := None;
      world := world.(stack := world.stack[..|world.stack| - 1]);
    }

    /** `disconnect()`, with no call from inside. */
    method Disconnect()
      modifies this
      ensures Now() == Teardown(old(Now()), ws)
    {
      BeginDisconnect();
      EndDisconnect();
    }
  }

  // ----- Runs without calls from inside a call -----

  predicate CallsIn(e: Event) { e.ConnectBegin? || e.DisconnectBegin? || e.Api? }

  predicate IsRun(events: seq<Event>, ws: bool) {
    events == [] ||
    (IsRun(events[..|events| - 1], ws) && Enabled(After(events[..|events| - 1], ws), events[|events| - 1]) &&
     (CallsIn(events[|events| - 1]) ==> After(events[..|events| - 1], ws).stack == []))
  }

  function After(events: seq<Event>, ws: bool): State {
    if events == [] then INIT
    else
      var s := After(events[..|events| - 1], ws);
      if Enabled(s, events[|events| - 1]) then Step(s, events[|events| - 1], ws) else s
  }

  /** An observer that knows which provider belongs to the current connection, not the generation counter. */
  datatype Observer = Observer(provider: Option<nat>, latest: Option<Status>, heard: seq<(nat, Status)>)

  function Sees(o: Observer, s: State, e: Event, ws: bool): Observer {
    match e
    case ConnectBegin(_) => o.(provider := if ws then Some(s.generation + 1) else None, latest := None)
    case StatusChanged(g, status) =>
      if o.provider == Some(g) then o.(latest := Some(status), heard := o.heard + [(g, status)]) else o
    case DisconnectBegin => o.(provider := None)
    case DisconnectEnd => o.(latest := None)
    case _ => o
  }

  function Observe(events: seq<Event>, ws: bool): Observer {
    if events == [] then Observer(None, None, [])
    else
      var front := events[..|events| - 1];
      Sees(Observe(front, ws), After(front, ws), events[|events| - 1], ws)
  }

  predicate Good(s: State, o: Observer, ws: bool) {
    && s.lastStatus == o.latest
    && s.forwarded == o.heard
    && |s.stack| <= 1
    && (forall g :: g in s.providers ==> g <= s.generation)
    && (o.provider.Some? ==> ws && o.provider.value == s.generation)
    && (o.provider.None? ==> s.generation !in s.providers)
    && (s.stack == [] ==> s.client.None? ==> o.provider.None? && s.lastStatus.None? && s.smoldot.None? && s.api.None?)
    && (s.client.Some? && (s.stack == [] || Top(s).Connecting?) ==>
          s.stack == [] && s.client.value.generation == o.provider && (ws ==> o.provider.Some?) && s.alive == {s.client.value.id})
    && (s.client.None? || (s.stack != [] && Top(s).Disconnecting?) ==> s.alive == {} && s.api.None?)
    && (s.stack != [] && Top(s).Connecting? ==> Top(s).generation == o.provider && (ws ==> o.provider.Some?))
    && (s.stack != [] && Top(s).Disconnecting? ==> o.provider.None?)
    && (s.api.Some? ==> s.client.Some? && s.api.value == s.client.value.id)
    && s.running == (if s.smoldot.Some? then {s.smoldot.value} else {})
    && (s.smoldot.Some? ==> !ws)
  }

  lemma StepKeepsGood(s: State, o: Observer, e: Event, ws: bool)
    requires Good(s, o, ws) && Enabled(s, e) && (CallsIn(e) ==> s.stack == [])
    ensures Good(Step(s, e, ws), Sees(o, s, e, ws), ws)
  {
  }

  lemma {:induction false} RunsAreGood(events: seq<Event>, ws: bool)
    requires IsRun(events, ws)
    ensures Good(After(events, ws), Observe(events, ws), ws)
  {
    if events != [] {
      var front, e := events[..|events| - 1], events[|events| - 1];
      RunsAreGood(front, ws);
      StepKeepsGood(After(front, ws), Observe(front, ws), e, ws);
    }
  }

  /** `status()` is the latest status delivered by the provider of the current connection, and the application hears
      exactly what that provider delivers while it is current. */
  lemma StatusIsCurrent(events: seq<Event>, ws: bool)
    requires IsRun(events, ws)
    ensures After(events, ws).lastStatus == Observe(events, ws).latest
    ensures After(events, ws).forwarded == Observe(events, ws).heard
  {
    RunsAreGood(events, ws);
  }

  /** Between calls: the typed api, if cached, belongs to the cached client; no other client or worker is alive. */
  lemma NothingLeaks(events: seq<Event>, ws: bool)
    requires IsRun(events, ws) && After(events, ws).stack == []
    ensures var s := After(events, ws);
            && (s.api.Some? ==> s.client.Some? && s.api.value == s.client.value.id)
            && s.alive == (if s.client.Some? then {s.client.value.id} else {})
            && s.running == (if s.smoldot.Some? then {s.smoldot.value} else {})
  {
    RunsAreGood(events, ws);
  }

  // ----- Calls from inside a call -----

  /** Any run at all, calls from inside included. */
  predicate IsAnyRun(events: seq<Event>, ws: bool) {
    events == [] ||
    (IsAnyRun(events[..|events| - 1], ws) && Enabled(After(events[..|events| - 1], ws), events[|events| - 1]))
  }

  /** The calls that began to connect or to disconnect, in order. */
  function Begins(events: seq<Event>): seq<Event> {
    if events == [] then []
    else
      var front, e := Begins(events[..|events| - 1]), events[|events| - 1];
      if e.ConnectBegin? || e.DisconnectBegin? then front + [e] else front
  }

  /** The provider of the cached client is the one whose statuses are recorded. */
  predicate Heard(s: State) { s.client.Some? && s.client.value.generation == Some(s.generation) }

  /** A generation names the call of `client()` that built a provider. */
  predicate NamesConnect(generation: Option<nat>, begins: seq<Event>) {
    generation.Some? && 1 <= generation.value <= |begins| && begins[generation.value - 1].ConnectBegin?
  }

  lemma {:induction false} GenerationsNameConnects(events: seq<Event>)
    requires IsAnyRun(events, true)
    ensures var s := After(events, true);
            && s.generation == |Begins(events)|
            && (s.client.Some? ==> NamesConnect(s.client.value.generation, Begins(events)))
            && (forall i :: 0 <= i < |s.stack| && s.stack[i].Connecting? ==> NamesConnect(s.stack[i].generation, Begins(events)))
  {
    if events != [] {
      GenerationsNameConnects(events[..|events| - 1]);
    }
  }

  /** Over every run, calls from inside included: the provider of the cached client is heard if and only if the call that
      built it is the last one that began to connect or to disconnect. */
  lemma ClientIsHeardExactly(events: seq<Event>)
    requires IsAnyRun(events, true) && After(events, true).client.Some?
    ensures var g := After(events, true).client.value.generation;
            && NamesConnect(g, Begins(events))
            && (Heard(After(events, true)) <==> g.value == |Begins(events)|)
  {
    GenerationsNameConnects(events);
  }

  /** The guard over every run: a callback is recorded and forwarded if and only if the call that built its provider is
      the last one that began to connect or to disconnect; a late one changes nothing at all. */
  lemma CallbackIsRecordedExactly(events: seq<Event>, g: nat, status: Status)
    requires IsAnyRun(events, true) && g in After(events, true).providers
    ensures var s, t := After(events, true), Step(After(events, true), StatusChanged(g, status), true);
            && NamesConnect(Some(g), Begins(events))
            && (g == |Begins(events)| ==> t.lastStatus == Some(status) && t.forwarded == s.forwarded + [(g, status)])
            && (g != |Begins(events)| ==> t == s)
  {
    GenerationsNameConnects(events);
    ProvidersNameConnects(events, g);
  }

  lemma {:induction false} ProvidersNameConnects(events: seq<Event>, g: nat)
    requires IsAnyRun(events, true) && g in After(events, true).providers
    ensures NamesConnect(Some(g), Begins(events))
  {
    if events != [] {
      var front := events[..|events| - 1];
      GenerationsNameConnects(front);
      if g in After(front, true).providers {
        ProvidersNameConnects(front, g);
      }
    }
  }

  /** The status recorded was delivered to a connection that has been superseded since: a connection was begun while a
      status was recorded, and neither a status nor the end of a `disconnect()` has replaced it. */
  predicate Stale(events: seq<Event>, ws: bool) {
    events != [] &&
    var front, e := events[..|events| - 1], events[|events| - 1];
    match e
    case ConnectBegin(_) => After(front, ws).lastStatus.Some?
    case StatusChanged(g, _) => Stale(front, ws) && Observe(front, ws).provider != Some(g)
    case DisconnectEnd => false
    case _ => Stale(front, ws)
  }

  /** What the object knows of the observer's provider, in any run. */
  predicate Guarded(s: State, o: Observer, ws: bool) {
    && s.forwarded == o.heard
    && (forall g :: g in s.providers ==> ws && g <= s.generation)
    && (o.provider.Some? ==> o.provider.value == s.generation)
    && (o.provider.None? ==> s.generation !in s.providers)
  }

  lemma {:induction false} RunsAreGuarded(events: seq<Event>, ws: bool)
    requires IsAnyRun(events, ws)
    ensures Guarded(After(events, ws), Observe(events, ws), ws)
    ensures Stale(events, ws) ==> After(events, ws).lastStatus.Some? && Observe(events, ws).latest.None?
    ensures !Stale(events, ws) ==> After(events, ws).lastStatus == Observe(events, ws).latest
  {
    if events != [] {
      var front, e := events[..|events| - 1], events[|events| - 1];
      RunsAreGuarded(front, ws);
      GuardHolds(After(front, ws), Observe(front, ws), e, ws);
      hide Guarded, Step;
    }
  }

  lemma GuardHolds(s: State, o: Observer, e: Event, ws: bool)
    requires Guarded(s, o, ws) && Enabled(s, e)
    ensures Guarded(Step(s, e, ws), Sees(o, s, e, ws), ws)
    ensures e.StatusChanged? ==> (o.provider == Some(e.generation) <==> e.generation == s.generation)
    ensures Step(s, e, ws).lastStatus ==
            if e.StatusChanged? && o.provider == Some(e.generation) then Some(e.status)
            else if e.DisconnectEnd? then None else s.lastStatus
  {
  }

  /** Over every run: the application hears exactly what the provider of the current connection delivers, and `status()`
      is the latest of it, if and only if the recorded status is not stale. */
  lemma StatusIsCurrentExactly(events: seq<Event>, ws: bool)
    requires IsAnyRun(events, ws)
    ensures After(events, ws).forwarded == Observe(events, ws).heard
    ensures After(events, ws).lastStatus == Observe(events, ws).latest <==> !Stale(events, ws)
    ensures !ws ==> After(events, ws).lastStatus.None?
  {
    RunsAreGuarded(events, ws);
    if !ws {
      LightClientHearsNothing(events);
    }
  }

  lemma {:induction false} LightClientHearsNothing(events: seq<Event>)
    requires IsAnyRun(events, false)
    ensures After(events, false).lastStatus.None? && After(events, false).providers == {}
  {
    if events != [] {
      LightClientHearsNothing(events[..|events| - 1]);
    }
  }

  // ----- What leaks -----

  /** The call returns while a client is cached and alive, and replaces or forgets it. */
  predicate DropsClient(s: State, e: Event) {
    (e.ConnectEnd? || e.DisconnectEnd?) && s.client.Some? && s.client.value.id in s.alive
  }

  predicate EverDropsClient(events: seq<Event>, ws: bool) {
    events != [] &&
    (EverDropsClient(events[..|events| - 1], ws) || DropsClient(After(events[..|events| - 1], ws), events[|events| - 1]))
  }

  /** Some client is alive that is not cached. */
  predicate ClientLeaked(s: State) { s.alive - (if s.client.Some? then {s.client.value.id} else {}) != {} }

  /** Clients and workers are numbered in the order they are made. */
  predicate Numbered(s: State) {
    && (forall c :: c in s.alive ==> c < s.clients)
    && (s.client.Some? ==> s.client.value.id < s.clients)
    && (s.api.Some? ==> s.api.value < s.clients)
    && (forall w :: w in s.running ==> w < s.workers)
    && (s.smoldot.Some? ==> s.smoldot.value in s.running)
  }

  lemma StepKeepsNumbers(s: State, e: Event, ws: bool)
    requires Numbered(s) && Enabled(s, e)
    ensures Numbered(Step(s, e, ws))
  {
  }

  lemma {:induction false} RunsAreNumbered(events: seq<Event>, ws: bool)
    requires IsAnyRun(events, ws)
    ensures Numbered(After(events, ws))
  {
    hide Numbered, Step;
    if events != [] {
      RunsAreNumbered(events[..|events| - 1], ws);
      StepKeepsNumbers(After(events[..|events| - 1], ws), events[|events| - 1], ws);
    } else {
      NothingYet();
    }
  }

  lemma NothingYet()
    ensures Numbered(INIT) && ApiKnown(INIT, false)
  {
  }

  /** Over every run: a client is left alive that no `disconnect()` can reach any more, if and only if some call returned
      while a client was cached and alive. */
  lemma {:induction false} ClientLeaksExactly(events: seq<Event>, ws: bool)
    requires IsAnyRun(events, ws)
    ensures ClientLeaked(After(events, ws)) <==> EverDropsClient(events, ws)
  {
    if events != [] {
      var front, e := events[..|events| - 1], events[|events| - 1];
      ClientLeaksExactly(front, ws);
      RunsAreNumbered(front, ws);
      LeakStep(After(front, ws), e, ws);
    }
  }

  lemma LeakStep(s: State, e: Event, ws: bool)
    requires Enabled(s, e) && (forall c :: c in s.alive ==> c < s.clients)
    ensures ClientLeaked(Step(s, e, ws)) <==> ClientLeaked(s) || DropsClient(s, e)
  {
  }

  /** The light client's worker is replaced while it runs. */
  predicate EverDropsWorker(events: seq<Event>, ws: bool) {
    events != [] &&
    (EverDropsWorker(events[..|events| - 1], ws) ||
     (!ws && events[|events| - 1].ConnectBegin? && After(events[..|events| - 1], ws).smoldot.Some?))
  }

  predicate WorkerLeaked(s: State) { s.running - (if s.smoldot.Some? then {s.smoldot.value} else {}) != {} }

  /** Over every run: a worker is left running that nothing will terminate, if and only if a connection was begun while
      one was held. */
  lemma {:induction false} WorkerLeaksExactly(events: seq<Event>, ws: bool)
    requires IsAnyRun(events, ws)
    ensures WorkerLeaked(After(events, ws)) <==> EverDropsWorker(events, ws)
  {
    if events != [] {
      var front, e := events[..|events| - 1], events[|events| - 1];
      WorkerLeaksExactly(front, ws);
      RunsAreNumbered(front, ws);
      WorkerStep(After(front, ws), e, ws);
    }
  }

  lemma WorkerStep(s: State, e: Event, ws: bool)
    requires Enabled(s, e) && (forall w :: w in s.running ==> w < s.workers)
    requires s.smoldot.Some? ==> s.smoldot.value in s.running
    ensures WorkerLeaked(Step(s, e, ws)) <==> WorkerLeaked(s) || (!ws && e.ConnectBegin? && s.smoldot.Some?)
  {
  }

  // ----- The cached api -----

  predicate ApiIsCurrent(s: State) { s.api.Some? ==> s.client.Some? && s.api.value == s.client.value.id }

  /** The api now cached was cached by an `api()` that ran inside another call. */
  predicate CachedInside(events: seq<Event>, ws: bool) {
    events != [] &&
    var front := events[..|events| - 1];
    CachesInside(CachedInside(front, ws), After(front, ws), events[|events| - 1])
  }

  predicate CachesInside(inside: bool, s: State, e: Event) {
    match e
    case Api => if s.api.None? then s.stack != [] else inside
    case ConnectEnd => if s.stack != [] && Top(s).Connecting? && Top(s).forApi then |s.stack| > 1 else inside
    case DisconnectBegin => false
    case _ => inside
  }

  /** What `inside` says about the cached api: stale once the calls around it have returned, or current. */
  predicate ApiKnown(s: State, inside: bool) {
    if inside then s.api.Some? && (s.stack == [] ==> !ApiIsCurrent(s))
    else if s.stack == [] then ApiIsCurrent(s) else s.api.None?
  }

  lemma StepKeepsApiKnown(s: State, inside: bool, e: Event, ws: bool)
    requires ApiKnown(s, inside) && Enabled(s, e)
    requires s.api.Some? ==> s.api.value < s.clients
    ensures ApiKnown(Step(s, e, ws), CachesInside(inside, s, e))
  {
  }

  lemma {:induction false} ApiFromOutsideIsCurrent(events: seq<Event>, ws: bool)
    requires IsAnyRun(events, ws)
    ensures ApiKnown(After(events, ws), CachedInside(events, ws))
  {
    hide Step, CachesInside, ApiKnown;
    if events != [] {
      var front := events[..|events| - 1];
      ApiFromOutsideIsCurrent(front, ws);
      RunsAreNumbered(front, ws);
      StepKeepsApiKnown(After(front, ws), CachedInside(front, ws), events[|events| - 1], ws);
    } else {
      NothingYet();
    }
  }

  /** Between calls of every run: the cached api, if any, belongs to the cached client if and only if it was not cached
      from inside another call. */
  lemma ApiBelongsToClientExactly(events: seq<Event>, ws: bool)
    requires IsAnyRun(events, ws) && After(events, ws).stack == []
    ensures ApiIsCurrent(After(events, ws)) <==> !CachedInside(events, ws)
  {
    ApiFromOutsideIsCurrent(events, ws);
  }

  // ----- The runs in which it goes wrong -----

  function Run(s: State, events: seq<Event>): State
    decreases |events|
  {
    if events == [] then s
    else if Enabled(s, events[0]) then Run(Step(s, events[0], true), events[1..])
    else Run(s, events[1..])
  }

  /** A status handler that calls `client()` while the provider is being built: the client kept is not heard any more, and
      the other one is never destroyed. */
  lemma ReentrantConnectIsDeaf()
    ensures var s := Run(INIT, [ConnectBegin(false), StatusChanged(1, 7), ConnectBegin(false), ConnectEnd, ConnectEnd]);
            s.client == Some(Client(1, Some(1))) && !Heard(s) && s.alive == {0, 1} && s.lastStatus == Some(7) &&
            Step(s, StatusChanged(1, 8), true) == s
  {
  }

  /** An `api()` called while the client is destroyed stays cached afterwards. */
  lemma ApiFromInsideIsStale(s: State, ws: bool)
    requires s.client.Some? && s.stack == []
    ensures var t := Step(Step(Step(s, DisconnectBegin, ws), Api, ws), DisconnectEnd, ws);
            t.api == Some(s.client.value.id) && t.client.None? && t.stack == [] && !ApiIsCurrent(t)
  {
  }

  /** A second `client()` while a light client is being built: the first worker is never terminated. */
  lemma SecondWorkerLeaks()
    ensures var connecting := Step(Step(INIT, ConnectBegin(false), false), ConnectBegin(false), false);
            var s := Teardown(Step(Step(connecting, ConnectEnd, false), ConnectEnd, false), false);
            s.smoldot.None? && s.running == {0} && s.alive == {0} && s.stack == []
  {
  }
}
