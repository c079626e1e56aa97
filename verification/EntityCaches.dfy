/** The read-through / write-through entity cache (packages/indexer/squid-common/src/entityCache.ts). */
module EntityCaches {
  import opened Prelude

  /** An entity instance, by identity: its class object, its id, and a number telling instances apart. */
  datatype Entity = Entity(cls: nat, id: string, serial: nat)

  type Key = (nat, string)

  type Data = nat

  function KeyOf(e: Entity): Key { (e.cls, e.id) }

  /** The world the cache works in, and the cache. `dirty` holds the instances whose fields have been assigned since the
      instance was last read from or written to the store. */
  datatype State = State(
    rows: map<Key, Data>,
    cached: map<Key, Entity>,
    fields: map<Entity, Data>,
    next: nat,
    dirty: set<Entity>)

  // ----- What each call does -----

  function WriteRows(rows: map<Key, Data>, es: seq<Entity>, fields: map<Entity, Data>): map<Key, Data>
    requires forall e :: e in es ==> e in fields
  {
    if es == [] then rows
    else
      var last := es[|es| - 1];
      assert forall e :: e in es[..|es| - 1] ==> e in es;
      WriteRows(rows, es[..|es| - 1], fields)[KeyOf(last) := fields[last]]
  }

  function Populate(cached: map<Key, Entity>, es: seq<Entity>): map<Key, Entity> {
    if es == [] then cached else Populate(cached, es[..|es| - 1])[KeyOf(es[|es| - 1]) := es[|es| - 1]]
  }

  function KeysOf(es: seq<Entity>): set<Key> { set e | e in es :: KeyOf(e) }

  function Instances(es: seq<Entity>): set<Entity> { set e | e in es }

  /** An event of a batch: an application assigns to an instance or makes one, or calls the cache. `accepted` says
      whether the database takes the write. */
  datatype Event =
    | New(cls: nat, id: string, data: Data)
    | Assign(e: Entity, data: Data)
    | Get(cls: nat, id: string)
    | Write(es: seq<Entity>, accepted: bool)     // insert, upsert, save
    | Remove(es: seq<Entity>, accepted: bool)

  predicate Enabled(s: State, ev: Event) {
    match ev
    case Assign(e, _) => e in s.fields
    case Write(es, _) => forall e :: e in es ==> e in s.fields
    case _ => true
  }

  function Fresh(s: State, cls: nat, id: string): Entity { Entity(cls, id, s.next) }

  function Step(s: State, ev: Event): State
    requires Enabled(s, ev)
  {
    match ev
    case New(cls, id, data) =>
      var e := Fresh(s, cls, id);
      s.(fields := s.fields[e := data], next := s.next + 1, dirty := s.dirty + {e})
    case Assign(e, data) => s.(fields := s.fields[e := data], dirty := s.dirty + {e})
    case Get(cls, id) =>
      if (cls, id) in s.cached || (cls, id) !in s.rows then s
      else
        var e := Fresh(s, cls, id);
        s.(fields := s.fields[e := s.rows[(cls, id)]], next := s.next + 1, cached := s.cached[(cls, id) := e])
    case Write(es, accepted) =>
      if !accepted then s
      else s.(rows := WriteRows(s.rows, es, s.fields), cached := Populate(s.cached, es), dirty := s.dirty - Instances(es))
    case Remove(es, accepted) =>
      if !accepted then s else s.(rows := s.rows - KeysOf(es), cached := s.cached - KeysOf(es))
  }

  /** What `get` resolves to. */
  function Read(s: State, cls: nat, id: string): Option<Entity> {
    if (cls, id) in s.cached then Some(s.cached[(cls, id)])
    else if (cls, id) in s.rows then Some(Fresh(s, cls, id))
    else None
  }

  /** What a store without a cache returns: the data of the row. */
  function Uncached(s: State, cls: nat, id: string): Option<Data> {
    if (cls, id) in s.rows then Some(s.rows[(cls, id)]) else None
  }

  // ----- The cache, class by class -----

  class World {
    var rows: map<Key, Data>
    var fields: map<Entity, Data>
    var next: nat

    constructor (rows: map<Key, Data>)
      ensures this.rows == rows && fields == map[] && next == 0
    {
      this.rows, fields, next := rows, map[], 0;
    }

    /** `store.get`: a new instance with the fields of the row. */
    method StoreGet(cls: nat, id: string) returns (e: Option<Entity>)
      modifies this`fields, this`next
      ensures (cls, id) !in rows ==> e.None? && fields == old(fields) && next == old(next)
      ensures (cls, id) in rows ==>
                e == Some(Entity(cls, id, old(next))) && next == old(next) + 1 &&
                fields == old(fields)[e.value := rows[(cls, id)]]
    {
      e := None;
      if (cls, id) in rows {
        e := Some(Entity(cls, id, next));
        fields := fields[e.value := rows[(cls, id)]];
        next := next + 1;
      }
    }

    method StoreWrite(es: seq<Entity>, accepted: bool) returns (ok: bool)
      requires forall e :: e in es ==> e in fields
      modifies this`rows
      ensures ok == accepted
      ensures rows == if accepted then WriteRows(old(rows), es, fields) else old(rows)
    {
      ok := accepted;
      if accepted {
        for i := 0 to |es|
          invariant (forall e :: e in es[..i] ==> e in fields) && rows == WriteRows(old(rows), es[..i], fields)
        {
          assert es[..i + 1][..i] == es[..i];
          rows := rows[KeyOf(es[i]) := fields[es[i]]];
        }
        assert es[..|es|] == es;
      }
    }

    method StoreRemove(es: seq<Entity>, accepted: bool) returns (ok: bool)
      modifies this`rows
      ensures ok == accepted
      ensures rows == if accepted then old(rows) - KeysOf(es) else old(rows)
    {
      ok := accepted;
      if accepted {
        rows := rows - KeysOf(es);
      }
    }
  }

  class EntityCache {
    const world: World
    var cache: map<nat, map<string, Entity>>
    ghost var cached: map<Key, Entity>

    /** `cached` is the table of tables as one table. */
    ghost predicate Valid()
      reads this
    {
      forall cls, id :: ((cls, id) in cached <==> cls in cache && id in cache[cls]) &&
                        ((cls, id) in cached ==> cached[(cls, id)] == cache[cls][id])
    }

    constructor (world: World)
      ensures this.world == world && Valid() && cached == map[]
    {
      this.world := world;
      cache, cached := map[], map[];
    }

    ghost function Now(dirty: set<Entity>): State
      reads this, world
    {
      State(world.rows, cached, world.fields, world.next, dirty)
    }

    /** `cacheFor`: the table of a class, created on first use. */
    method CacheFor(cls: nat) returns (c: map<string, Entity>)
      requires Valid()
      modifies this`cache
      ensures Valid() && cls in cache && c == cache[cls]
    {
      if cls !in cache {
        cache := cache[cls := map[]];
      }
      c := cache[cls];
    }

    method SetEntry(e: Entity)
      requires Valid()
      modifies this`cache, this`cached
      ensures Valid() && cached == old(cached)[KeyOf(e) := e]
    {
      var c := CacheFor(e.cls);
      cache := cache[e.cls := c[e.id := e]];
      cached := cached[KeyOf(e) := e];
    }

    method DropEntry(e: Entity)
      requires Valid()
      modifies this`cache, this`cached
      ensures Valid() && cached == old(cached) - {KeyOf(e)}
    {
      var c := CacheFor(e.cls);
      cache := cache[e.cls := c - {e.id}];
      cached := cached - {KeyOf(e)};
    }

    method GetEntity(cls: nat, id: string, ghost dirty: set<Entity>) returns (e: Option<Entity>)
      requires Valid()
      modifies this`cache, this`cached, world
      ensures Valid() && e == Read(old(Now(dirty)), cls, id)
      ensures Now(dirty) == Step(old(Now(dirty)), Get(cls, id))
    {
      var c := CacheFor(cls);
      if id in c {
        return Some(c[id]);
      }
      e := world.StoreGet(cls, id);
      if e.Some? {
        SetEntry(e.value);
      }
    }

    /** `getOrFail` throws where `get` returns undefined. */
    method GetOrFail(cls: nat, id: string, ghost dirty: set<Entity>) returns (r: Result<Entity, string>)
      requires Valid()
      modifies this`cache, this`cached, world
      ensures Valid() && Now(dirty) == Step(old(Now(dirty)), Get(cls, id))
      ensures r.Ok? <==> Read(old(Now(dirty)), cls, id).Some?
      ensures r.Ok? ==> Read(old(Now(dirty)), cls, id) == Some(r.value)
    {
      var c := CacheFor(cls);
      if id in c {
        return Ok(c[id]);
      }
      var e := world.StoreGet(cls, id);
      if e.None? {
        return Err("not found");
      }
      SetEntry(e.value);
      r := Ok(e.value);
    }

    /** `insert`, `upsert` and `save`. */
    method WriteEntities(es: seq<Entity>, accepted: bool, ghost dirty: set<Entity>) returns (ok: bool)
      requires Valid() && forall e :: e in es ==> e in world.fields
      modifies this`cache, this`cached, world`rows
      ensures Valid() && ok == (es == [] || accepted)
      ensures Now(if accepted then dirty - Instances(es) else dirty) == Step(old(Now(dirty)), Write(es, accepted))
    {
      if |es| == 0 {
        assert Instances(es) == {};
        return true;
      }
      ok := world.StoreWrite(es, accepted);
      if !ok {
        return;
      }
      ghost var written := world.rows;
      for i := 0 to |es|
        invariant Valid() && cached == Populate(old(cached), es[..i]) && world.rows == written
      {
        assert es[..i + 1][..i] == es[..i];
        SetEntry(es[i]);
      }
      assert es[..|es|] == es;
    }

    method RemoveEntities(es: seq<Entity>, accepted: bool, ghost dirty: set<Entity>) returns (ok: bool)
      requires Valid()
      modifies this`cache, this`cached, world`rows
      ensures Valid() && ok == (es == [] || accepted)
      ensures Now(dirty) == Step(old(Now(dirty)), Remove(es, accepted))
    {
      if |es| == 0 {
        assert KeysOf(es) == {};
        return true;
      }
      ok := world.StoreRemove(es, accepted);
      if !ok {
        return;
      }
      ghost var left := world.rows;
      for i := 0 to |es|
        invariant Valid() && cached == old(cached) - KeysOf(es[..i]) && world.rows == left
      {
        assert es[..i + 1] == es[..i] + [es[i]];
        assert KeysOf(es[..i + 1]) == KeysOf(es[..i]) + {KeyOf(es[i])};
        DropEntry(es[i]);
      }
      assert es[..|es|] == es;
    }
  }

  // ----- Runs -----

  function Init(rows: map<Key, Data>): State { State(rows, map[], map[], 0, {}) }

  function After(rows: map<Key, Data>, events: seq<Event>): State {
    if events == [] then Init(rows)
    else
      var s := After(rows, events[..|events| - 1]);
      if Enabled(s, events[|events| - 1]) then Step(s, events[|events| - 1]) else s
  }

  predicate IsRun(rows: map<Key, Data>, events: seq<Event>) {
    events == [] ||
    (IsRun(rows, events[..|events| - 1]) && Enabled(After(rows, events[..|events| - 1]), events[|events| - 1]))
  }

  /** The instance of `k` in the last position of a list that holds one. */
  function LastOf(es: seq<Entity>, k: Key): Option<Entity> {
    if es == [] then None
    else if KeyOf(es[|es| - 1]) == k then Some(es[|es| - 1])
    else LastOf(es[..|es| - 1], k)
  }

  // ----- The history, told from the events alone -----

  /** How many instances have been made: by the application, and by reads that found a row and no cached instance. */
  function Made(rows: map<Key, Data>, events: seq<Event>): nat
    decreases |events|, 2
  {
    if events == [] then 0
    else
      var front := events[..|events| - 1];
      match events[|events| - 1]
      case New(_, _, _) => Made(rows, front) + 1
      case Get(cls, id) => if Loads(rows, front, (cls, id)) then Made(rows, front) + 1 else Made(rows, front)
      case _ => Made(rows, front)
  }

  /** A `get` of `k` would go to the store and find a row. */
  predicate Loads(rows: map<Key, Data>, events: seq<Event>, k: Key)
    decreases |events|, 3
  {
    LastTouched(rows, events, k).None? && RowOf(rows, events, k).Some?
  }

  /** The row of `k`: at first the initial one; then what the last instance written under `k` held when it was written;
      none after a remove. Refused calls do not count. */
  function RowOf(rows: map<Key, Data>, events: seq<Event>, k: Key): Option<Data>
    decreases |events|, 1
  {
    if events == [] then (if k in rows then Some(rows[k]) else None)
    else
      var front := events[..|events| - 1];
      match events[|events| - 1]
      case Write(es, true) =>
        if LastOf(es, k).Some? then DataOf(rows, front, LastOf(es, k).value) else RowOf(rows, front, k)
      case Remove(es, true) => if exists e :: e in es && KeyOf(e) == k then None else RowOf(rows, front, k)
      case _ => RowOf(rows, front, k)
  }

  /** What the fields of an instance hold: what was last assigned, or what it was made with. */
  function DataOf(rows: map<Key, Data>, events: seq<Event>, e: Entity): Option<Data>
    decreases |events|, 1
  {
    if events == [] then None
    else
      var front := events[..|events| - 1];
      match events[|events| - 1]
      case New(cls, id, data) => if e == Entity(cls, id, Made(rows, front)) then Some(data) else DataOf(rows, front, e)
      case Assign(e', data) => if e' == e then Some(data) else DataOf(rows, front, e)
      case Get(cls, id) =>
        if Loads(rows, front, (cls, id)) && e == Entity(cls, id, Made(rows, front)) then RowOf(rows, front, (cls, id))
        else DataOf(rows, front, e)
      case _ => DataOf(rows, front, e)
  }

  /** The instance last read or written by id under `k`, if it has not been removed since. */
  function LastTouched(rows: map<Key, Data>, events: seq<Event>, k: Key): Option<Entity>
    decreases |events|, 1
  {
    if events == [] then None
    else
      var front := events[..|events| - 1];
      match events[|events| - 1]
      case Get(cls, id) =>
        if (cls, id) == k && Loads(rows, front, k) then Some(Entity(cls, id, Made(rows, front)))
        else LastTouched(rows, front, k)
      case Write(es, true) => if LastOf(es, k).Some? then LastOf(es, k) else LastTouched(rows, front, k)
      case Remove(es, true) => if exists e :: e in es && KeyOf(e) == k then None else LastTouched(rows, front, k)
      case _ => LastTouched(rows, front, k)
  }

  predicate Good(s: State) {
    && (forall k :: k in s.cached ==> GoodEntry(s, k))
    && (forall e :: e in s.fields ==> e.serial < s.next)
    && s.dirty <= s.fields.Keys
  }

  /** A cached instance carries its class and id, has a row, and agrees with it unless it is dirty. */
  predicate GoodEntry(s: State, k: Key)
    requires k in s.cached
  {
    var e := s.cached[k];
    KeyOf(e) == k && e in s.fields && k in s.rows && (e !in s.dirty ==> s.fields[e] == s.rows[k])
  }

  lemma {:induction false} WrittenRow(rows: map<Key, Data>, es: seq<Entity>, fields: map<Entity, Data>, k: Key)
    requires forall e :: e in es ==> e in fields
    ensures var r := WriteRows(rows, es, fields);
            match LastOf(es, k)
            case None => (k in r <==> k in rows) && (k in r ==> r[k] == rows[k])
            case Some(e) => e in es && KeyOf(e) == k && k in r && r[k] == fields[e]
  {
    if es != [] {
      assert forall e :: e in es[..|es| - 1] ==> e in es;
      WrittenRow(rows, es[..|es| - 1], fields, k);
    }
  }

  lemma {:induction false} PopulatedEntry(cached: map<Key, Entity>, es: seq<Entity>, k: Key)
    ensures var c := Populate(cached, es);
            match LastOf(es, k)
            case None => (k in c <==> k in cached) && (k in c ==> c[k] == cached[k])
            case Some(e) => k in c && c[k] == e
  {
    if es != [] {
      PopulatedEntry(cached, es[..|es| - 1], k);
    }
  }

  lemma {:induction false} LastOfNone(es: seq<Entity>, k: Key)
    ensures LastOf(es, k).None? <==> k !in KeysOf(es)
  {
    if es != [] {
      var n := |es| - 1;
      LastOfNone(es[..n], k);
      assert es == es[..n] + [es[n]];
      if KeyOf(es[n]) == k {
        assert es[n] in es;
      } else if k in KeysOf(es) {
        var e :| e in es && KeyOf(e) == k;
        assert e in es[..n];
      }
    }
  }

  lemma WriteKeepsGood(s: State, es: seq<Entity>)
    requires Good(s) && Enabled(s, Write(es, true))
    ensures Good(Step(s, Write(es, true)))
  {
    var t := Step(s, Write(es, true));
    forall k | k in t.cached
      ensures GoodEntry(t, k)
    {
      WrittenRow(s.rows, es, s.fields, k);
      PopulatedEntry(s.cached, es, k);
      hide WriteRows, Populate;
      if LastOf(es, k).None? {
        assert GoodEntry(s, k);
        LastOfNone(es, k);
      }
    }
  }

  lemma StepKeepsGood(s: State, ev: Event)
    requires Good(s) && Enabled(s, ev)
    ensures Good(Step(s, ev))
  {
    if ev.Write? && ev.accepted {
      WriteKeepsGood(s, ev.es);
    } else {
      var t := Step(s, ev);
      forall k | k in t.cached
        ensures GoodEntry(t, k)
      {
        if k in s.cached {
          assert GoodEntry(s, k);
        }
      }
    }
  }

  lemma {:induction false} RunsAreGood(rows: map<Key, Data>, events: seq<Event>)
    requires IsRun(rows, events)
    ensures Good(After(rows, events))
  {
    if events != [] {
      RunsAreGood(rows, events[..|events| - 1]);
      StepKeepsGood(After(rows, events[..|events| - 1]), events[|events| - 1]);
    }
  }

  // ----- Main results -----

  /** `get` and `getOrFail` answer as a store without a cache would: an entity exactly when there is a row, and with the
      row's data unless the instance was assigned to since it was last read or written. */
  lemma ReadsAgreeWithStore(rows: map<Key, Data>, events: seq<Event>, cls: nat, id: string)
    requires IsRun(rows, events)
    ensures var s := After(rows, events); var r, t := Read(s, cls, id), Step(s, Get(cls, id));
            && (r.Some? <==> Uncached(s, cls, id).Some?)
            && (r.Some? ==> KeyOf(r.value) == (cls, id) && r.value in t.fields)
            && (r.Some? && r.value !in s.dirty ==> Some(t.fields[r.value]) == Uncached(s, cls, id))
            && t.rows == s.rows
  {
    RunsAreGood(rows, events);
    var s := After(rows, events);
    if (cls, id) in s.cached {
      assert GoodEntry(s, (cls, id));
    }
  }

  function Lookup<K, V>(m: map<K, V>, k: K): Option<V> { if k in m then Some(m[k]) else None }

  /** The state is the history: rows, fields, cached instances and the count of instances made. */
  ghost predicate Remembers(rows: map<Key, Data>, events: seq<Event>) {
    var s := After(rows, events);
    && s.next == Made(rows, events)
    && (forall k :: Lookup(s.rows, k) == RowOf(rows, events, k))
    && (forall e :: Lookup(s.fields, e) == DataOf(rows, events, e))
    && (forall k :: Lookup(s.cached, k) == LastTouched(rows, events, k))
  }

  lemma {:induction false} RunsRemember(rows: map<Key, Data>, events: seq<Event>)
    requires IsRun(rows, events)
    ensures Remembers(rows, events)
  {
    if events != [] {
      var front, ev := events[..|events| - 1], events[|events| - 1];
      RunsRemember(rows, front);
      var s := After(rows, front);
      forall k
        ensures Lookup(After(rows, events).rows, k) == RowOf(rows, events, k)
        ensures Lookup(After(rows, events).cached, k) == LastTouched(rows, events, k)
      {
        KeyRemembered(rows, events, k);
      }
      forall e
        ensures Lookup(After(rows, events).fields, e) == DataOf(rows, events, e)
      {
        assert Lookup(s.fields, e) == DataOf(rows, front, e);
        if ev.Get? {
          var k := (ev.cls, ev.id);
          assert Lookup(s.rows, k) == RowOf(rows, front, k) && Lookup(s.cached, k) == LastTouched(rows, front, k);
        }
      }
      if ev.Get? {
        var k := (ev.cls, ev.id);
        assert Lookup(s.rows, k) == RowOf(rows, front, k) && Lookup(s.cached, k) == LastTouched(rows, front, k);
      }
    }
  }

  lemma KeyRemembered(rows: map<Key, Data>, events: seq<Event>, k: Key)
    requires events != [] && IsRun(rows, events) && Remembers(rows, events[..|events| - 1])
    ensures Lookup(After(rows, events).rows, k) == RowOf(rows, events, k)
    ensures Lookup(After(rows, events).cached, k) == LastTouched(rows, events, k)
  {
    var front, ev := events[..|events| - 1], events[|events| - 1];
    var s := After(rows, front);
    assert Lookup(s.rows, k) == RowOf(rows, front, k) && Lookup(s.cached, k) == LastTouched(rows, front, k);
    if ev.Write? {
      WrittenRow(s.rows, ev.es, s.fields, k);
      PopulatedEntry(s.cached, ev.es, k);
      if LastOf(ev.es, k).Some? {
        var e := LastOf(ev.es, k).value;
        assert Lookup(s.fields, e) == DataOf(rows, front, e);
      }
    }
  }

  /** What the store holds after every run: for each key the initial row, then the data the last instance under the key
      held at the last accepted write, and none after an accepted remove. */
  lemma RowsAreWhatWasWritten(rows: map<Key, Data>, events: seq<Event>, cls: nat, id: string)
    requires IsRun(rows, events)
    ensures Uncached(After(rows, events), cls, id) == RowOf(rows, events, (cls, id))
  {
    RunsRemember(rows, events);
    var s := After(rows, events);
    assert Lookup(s.rows, (cls, id)) == RowOf(rows, events, (cls, id));
  }

  /** What a read answers after every run: the instance last read or written under its id, with the data it holds; if there
      is none, a new instance with the data of the row; if there is no row either, nothing. */
  lemma ReadsAnswerHistory(rows: map<Key, Data>, events: seq<Event>, cls: nat, id: string)
    requires IsRun(rows, events)
    ensures var s, k := After(rows, events), (cls, id);
            var r, t := Read(s, cls, id), Step(s, Get(cls, id));
            match LastTouched(rows, events, k)
            case Some(e) => r == Some(e) && Lookup(t.fields, e) == DataOf(rows, events, e)
            case None =>
              (r.Some? <==> RowOf(rows, events, k).Some?) && (r.Some? ==> Lookup(t.fields, r.value) == RowOf(rows, events, k))
  {
    RunsRemember(rows, events);
    var s, k := After(rows, events), (cls, id);
    assert Lookup(s.rows, k) == RowOf(rows, events, k) && Lookup(s.cached, k) == LastTouched(rows, events, k);
    if k in s.cached {
      assert Lookup(s.fields, s.cached[k]) == DataOf(rows, events, s.cached[k]);
    }
  }

  /** Every cached entry is the instance last read or written by id, and there is a row for it; nothing else is cached. */
  lemma CachedIsLastTouched(rows: map<Key, Data>, events: seq<Event>, k: Key)
    requires IsRun(rows, events)
    ensures var s := After(rows, events);
            Lookup(s.cached, k) == LastTouched(rows, events, k) && (k in s.cached ==> k in s.rows)
  {
    RunsAreGood(rows, events);
    RunsRemember(rows, events);
    var s := After(rows, events);
    if k in s.cached {
      assert GoodEntry(s, k);
    }
  }

  /** A write the database refuses changes nothing; a call never touches the entries of another class. */
  lemma FailuresAndClassesAreIsolated(s: State, ev: Event, k: Key)
    requires Enabled(s, ev)
    ensures (ev.Write? || ev.Remove?) && !ev.accepted ==> Step(s, ev) == s
    ensures (match ev
             case Get(cls, _) => cls != k.0
             case Write(es, _) => forall e :: e in es ==> e.cls != k.0
             case Remove(es, _) => forall e :: e in es ==> e.cls != k.0
             case _ => true) ==>
            (k in Step(s, ev).cached <==> k in s.cached) && (k in s.cached ==> Step(s, ev).cached[k] == s.cached[k])
  {
    if ev.Write? {
      PopulatedEntry(s.cached, ev.es, k);
      LastOfNone(ev.es, k);
    }
  }

  /** Assigning to a cached instance parts the cache from the store until the instance is written: from then on a read
      agrees with the row exactly if the assigned data is the row's. */
  lemma AssignmentPartsCacheAndStore(rows: map<Key, Data>, events: seq<Event>, cls: nat, id: string, data: Data)
    requires IsRun(rows, events) && (cls, id) in After(rows, events).cached
    ensures var s := After(rows, events);
            var e := s.cached[(cls, id)];
            && (cls, id) in s.rows && Enabled(s, Assign(e, data))
            && var t := Step(s, Assign(e, data));
            && Read(t, cls, id) == Some(e)
            && (Some(t.fields[e]) == Uncached(t, cls, id) <==> data == s.rows[(cls, id)])
  {
    RunsAreGood(rows, events);
    assert GoodEntry(After(rows, events), (cls, id));
  }
}
