/** The per-batch account upsert (packages/indexer/squid-common/src/account.ts). */
module Accounts {
  import opened Prelude

  /** The two block heights of an account. */
  datatype Seen = Seen(first: int, last: int)

  /** An entity instance: the object handlers hold, updated in place. */
  class Account {
    const id: string
    ghost const context: nat    // the context whose handlers hold the instance
    var firstSeenAtBlock: int
    var lastSeenAtBlock: int

    constructor (id: string, first: int, last: int, ghost context: nat)
      ensures this.id == id && this.context == context && firstSeenAtBlock == first && lastSeenAtBlock == last
    {
      this.id, this.context, firstSeenAtBlock, lastSeenAtBlock := id, context, first, last;
    }

    function Value(): Seen
      reads this
    {
      Seen(firstSeenAtBlock, lastSeenAtBlock)
    }
  }

  /** The database table: reading a row makes a new instance, writing one copies its fields. */
  class Store {
    var rows: map<string, Seen>

    constructor (rows: map<string, Seen>)
      ensures this.rows == rows
    {
      this.rows := rows;
    }

    method Get(id: string, ghost context: nat) returns (a: Account?)
      ensures a == null <==> id !in rows
      ensures a != null ==> fresh(a) && a.id == id && a.context == context && a.Value() == rows[id]
    {
      a := null;
      if id in rows {
        a := new Account(id, rows[id].first, rows[id].last, context);
      }
    }

    method Upsert(a: Account)
      modifies this
      ensures rows == old(rows)[a.id := a.Value()]
    {
      rows := rows[a.id := a.Value()];
    }
  }

  // ----- What one call does, on values -----

  /** What the helper knows: the accounts cached for a context, and the rows. */
  datatype Table = Table(cached: map<string, Seen>, rows: map<string, Seen>)

  /** The account a call starts from. */
  function Base(t: Table, id: string, block: int): Seen {
    if id in t.cached then t.cached[id]
    else if id in t.rows then t.rows[id]
    else Seen(block, block)
  }

  function Advance(a: Seen, block: int): Seen { if block > a.last then a.(last := block) else a }

  function Call(t: Table, id: string, block: int): Table {
    var a := Advance(Base(t, id, block), block);
    Table(t.cached[id := a], t.rows[id := a])
  }

  // ----- The helper, on objects -----

  class AccountHelpers {
    /** One cache per context, by the identity of the context. */
    var caches: map<nat, map<string, Account>>

    constructor ()
      ensures caches == map[] && Valid()
    {
      caches := map[];
    }

    ghost predicate Cached(ctx: nat, id: string)
      reads this
    {
      ctx in caches && id in caches[ctx]
    }

    /** Each cached account has its own object: it belongs to its context and carries its id. */
    ghost predicate Valid()
      reads this
    {
      forall c, i :: Cached(c, i) ==> caches[c][i].id == i && caches[c][i].context == c
    }

    ghost predicate Shows(ctx: nat, view: map<string, Seen>)
      reads this, set i | ctx in caches && i in caches[ctx] :: caches[ctx][i]
    {
      forall i :: (i in view <==> Cached(ctx, i)) && (i in view ==> view[i] == caches[ctx][i].Value())
    }

    /** The object a call may update: the cached account, if there is one. */
    ghost function Target(ctx: nat, id: string): set<Account>
      reads this
    {
      if Cached(ctx, id) then {caches[ctx][id]} else {}
    }

    /** The cached account, or the stored one, or a new one; cached from now on. */
    method Load(store: Store, ctx: nat, id: string, block: int) returns (acc: Account)
      requires Valid()
      modifies this
      ensures Valid() && Cached(ctx, id) && caches[ctx][id] == acc
      ensures old(Cached(ctx, id)) ==> acc == old(caches[ctx][id]) && caches == old(caches)
      ensures !old(Cached(ctx, id)) ==>
                fresh(acc) && acc.Value() == if id in store.rows then store.rows[id] else Seen(block, block)
      ensures forall c, i :: (c, i) != (ctx, id) ==>
                (Cached(c, i) <==> old(Cached(c, i))) && (Cached(c, i) ==> caches[c][i] == old(caches[c][i]))
    {
      var cache: map<string, Account> := if ctx in caches then caches[ctx] else map[];
      if id in cache {
        return cache[id];
      }
      var found := store.Get(id, ctx);
      if found != null {
        acc := found;
      } else {
        acc := new Account(id, block, block, ctx);
      }
      caches := caches[ctx := cache[id := acc]];
    }

    /** `getOrCreateAccount`. `view` is what the context has cached. */
    method GetOrCreateAccount(store: Store, ctx: nat, id: string, block: int, ghost view: map<string, Seen>)
      returns (acc: Account)
      requires Valid() && Shows(ctx, view)
      modifies this, store, Target(ctx, id)
      ensures Valid() && Cached(ctx, id) && caches[ctx][id] == acc
      ensures Shows(ctx, Call(Table(view, old(store.rows)), id, block).cached)
      ensures store.rows == Call(Table(view, old(store.rows)), id, block).rows
      ensures old(Cached(ctx, id)) ==> acc == old(caches[ctx][id])
      // the other accounts, of this and of other contexts, keep their objects and their values
      ensures forall c, i :: (c, i) != (ctx, id) && old(Cached(c, i)) ==>
                Cached(c, i) && caches[c][i] == old(caches[c][i]) && caches[c][i].Value() == old(caches[c][i].Value())
    {
      acc := Load(store, ctx, id, block);
      assert acc.Value() == Base(Table(view, store.rows), id, block);
      if block > acc.lastSeenAtBlock {
        acc.lastSeenAtBlock := block;
      }
      store.Upsert(acc);
    }
  }

  // ----- A batch of calls -----

  datatype Sighting = Sighting(id: string, block: int)

  function Calls(t: Table, calls: seq<Sighting>): Table {
    if calls == [] then t
    else Call(Calls(t, calls[..|calls| - 1]), calls[|calls| - 1].id, calls[|calls| - 1].block)
  }

  /** The rows after a batch run in a fresh context. */
  function Batch(rows: map<string, Seen>, calls: seq<Sighting>): map<string, Seen> { Calls(Table(map[], rows), calls).rows }

  /** The blocks an account was seen in. */
  function BlocksOf(calls: seq<Sighting>, id: string): seq<int> {
    if calls == [] then []
    else
      var front, c := BlocksOf(calls[..|calls| - 1], id), calls[|calls| - 1];
      if c.id == id then front + [c.block] else front
  }

  /** `m` is the largest of `x` and the blocks. */
  predicate IsMax(m: int, x: int, blocks: seq<int>) {
    m >= x && (forall b :: b in blocks ==> m >= b) && (m == x || m in blocks)
  }

  /** The row an account has after the blocks: the latest block, and the first it was ever given. */
  predicate IsRowAfter(row: Seen, rows: map<string, Seen>, id: string, blocks: seq<int>)
    requires blocks != []
  {
    if id in rows then row.first == rows[id].first && IsMax(row.last, rows[id].last, blocks)
    else row.first == blocks[0] && IsMax(row.last, blocks[0], blocks)
  }

  /** After any sequence of calls in a batch, for every account: the row says when it was first recorded and the latest
      block it was seen in, the cached instance says the same, and accounts not seen keep their rows. */
  lemma {:induction false} BatchRecords(rows: map<string, Seen>, calls: seq<Sighting>, id: string)
    ensures var t := Calls(Table(map[], rows), calls);
            && (id in t.cached <==> BlocksOf(calls, id) != [])
            && (id in t.cached ==>
                  id in t.rows && t.rows[id] == t.cached[id] && IsRowAfter(t.rows[id], rows, id, BlocksOf(calls, id)))
            && (id !in t.cached ==> (id in t.rows <==> id in rows) && (id in rows ==> t.rows[id] == rows[id]))
  {
    if calls != [] {
      BatchRecords(rows, calls[..|calls| - 1], id);
      var blocks := BlocksOf(calls[..|calls| - 1], id);
      var c := calls[|calls| - 1];
      if c.id == id && blocks != [] {
        assert (blocks + [c.block])[0] == blocks[0];
      }
    }
  }

  /** The row of an account seen in the batch is the only one with these facts. */
  lemma BatchRowExactly(rows: map<string, Seen>, calls: seq<Sighting>, id: string, row: Seen)
    requires BlocksOf(calls, id) != []
    ensures id in Batch(rows, calls) && (row == Batch(rows, calls)[id] <==> IsRowAfter(row, rows, id, BlocksOf(calls, id)))
  {
    BatchRecords(rows, calls, id);
    var blocks := BlocksOf(calls, id);
    var mine := Batch(rows, calls)[id];
    assert blocks[0] in blocks;
    if IsRowAfter(row, rows, id, blocks) {
      assert row.last >= mine.last && mine.last >= row.last;
    }
  }

  lemma {:induction false} BlocksOfPrefix(calls: seq<Sighting>, k: nat, id: string)
    requires k <= |calls|
    ensures BlocksOf(calls[..k], id) <= BlocksOf(calls, id)
  {
    if k < |calls| {
      assert calls[..|calls| - 1][..k] == calls[..k];
      BlocksOfPrefix(calls[..|calls| - 1], k, id);
    } else {
      assert calls[..k] == calls;
    }
  }

  /** A batch that stopped after `k` calls is made good by replaying it in a fresh context: the store is as if it had run
      once. With all its calls done, the replay leaves the store as it is. */
  lemma ReplayIsIdempotent(rows: map<string, Seen>, calls: seq<Sighting>, k: nat)
    requires k <= |calls|
    ensures Batch(Batch(rows, calls[..k]), calls) == Batch(rows, calls)
  {
    hide IsMax;
    var part := Batch(rows, calls[..k]);
    var twice, once := Batch(part, calls), Batch(rows, calls);
    forall id: string
      ensures (id in twice <==> id in once) && (id in once ==> twice[id] == once[id])
    {
      ReplayRow(rows, calls, k, id);
    }
    assert twice.Keys == once.Keys;
  }

  lemma ReplayRow(rows: map<string, Seen>, calls: seq<Sighting>, k: nat, id: string)
    requires k <= |calls|
    ensures var twice, once := Batch(Batch(rows, calls[..k]), calls), Batch(rows, calls);
            (id in twice <==> id in once) && (id in once ==> twice[id] == once[id])
  {
    hide BlocksOf, Calls;
    var part := Batch(rows, calls[..k]);
    BatchRecords(rows, calls[..k], id);
    BatchRecords(part, calls, id);
    BatchRecords(rows, calls, id);
    BlocksOfPrefix(calls, k, id);
    var some, all := BlocksOf(calls[..k], id), BlocksOf(calls, id);
    if all != [] {
      var row := Batch(part, calls)[id];
      if some != [] {
        RowAfterBoth(row, part[id], rows, id, some, all);
      }
      BatchRowExactly(rows, calls, id, row);
    }
  }

  lemma RowAfterBoth(row: Seen, part: Seen, rows: map<string, Seen>, id: string, some: seq<int>, all: seq<int>)
    requires some != [] && some <= all && IsRowAfter(part, rows, id, some)
    requires row.first == part.first && IsMax(row.last, part.last, all)
    ensures IsRowAfter(row, rows, id, all)
  {
    assert forall b :: b in some ==> b in all;
    assert all[0] == some[0] && all[0] in all;
  }

  /** The latest block does not depend on the order of the calls; the first block of a new account does. */
  lemma LastIsOrderFree(rows: map<string, Seen>, calls1: seq<Sighting>, calls2: seq<Sighting>, id: string)
    requires multiset(BlocksOf(calls1, id)) == multiset(BlocksOf(calls2, id)) && BlocksOf(calls1, id) != []
    ensures id in Batch(rows, calls1) && id in Batch(rows, calls2)
    ensures Batch(rows, calls1)[id].last == Batch(rows, calls2)[id].last
  {
    BatchRecords(rows, calls1, id);
    BatchRecords(rows, calls2, id);
    var b1, b2 := BlocksOf(calls1, id), BlocksOf(calls2, id);
    assert |b2| == |multiset(b2)| == |multiset(b1)| == |b1|;
    forall b: int
      ensures b in b1 <==> b in b2
    {
      assert b in b1 <==> b in multiset(b1);
      assert b in b2 <==> b in multiset(b2);
    }
    assert b1[0] in b1 && b2[0] in b2;
  }
}
