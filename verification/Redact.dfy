/** Graph redaction of the logger (packages/service/logger/src/index.ts:89-149). */
module Redact {
  import opened Prelude
  import opened SplitWords

  type Id = nat

  /** Everything `redact` returns as it is: strings, numbers, null, functions, ... */
  datatype Prim = Str(text: string) | Other(n: int)

  datatype Value = Leaf(prim: Prim) | Ref(id: Id)

  /** An object: an array, a plain record (own entries in order), or anything else. */
  datatype Node = Arr(items: seq<Value>) | Rec(fields: seq<(string, Value)>) | Opaque

  type Heap = map<Id, Node>

  /** The finite result. An opaque object is passed through by reference. */
  datatype Tree = TLeaf(prim: Prim) | TOpaque(id: Id) | TArr(items: seq<Tree>) | TRec(fields: seq<(string, Tree)>)

  const REDACTED := TLeaf(Str("[redacted]"))
  const CIRCULAR := TLeaf(Str("[circular]"))
  const PROTO := "__proto__"

  predicate ValueIn(h: Heap, v: Value) { v.Ref? ==> v.id in h }

  predicate NodeIn(h: Heap, n: Node) {
    match n
    case Arr(items) => forall i :: 0 <= i < |items| ==> ValueIn(h, items[i])
    case Rec(fields) => (forall i :: 0 <= i < |fields| ==> ValueIn(h, fields[i].1)) && UniqueKeys(fields)
    case Opaque => true
  }

  predicate UniqueKeys<T>(fields: seq<(string, T)>) {
    forall i, j :: 0 <= i < j < |fields| ==> fields[i].0 != fields[j].0
  }

  /** No reference leaves the heap, and an object has one entry per key. */
  predicate Closed(h: Heap) { forall id :: id in h ==> NodeIn(h, h[id]) }

  /** `out[k] = v` on a fresh `{}`: the key `__proto__` sets the prototype and leaves no own entry. */
  function Assign(out: seq<(string, Tree)>, k: string, v: Tree): seq<(string, Tree)> {
    if k == PROTO then out else out + [(k, v)]
  }

  function Names<T>(fields: seq<(string, T)>): seq<string> {
    seq(|fields|, i requires 0 <= i < |fields| => fields[i].0)
  }

  /** The entries left by assigning the values in order. */
  function Entries(names: seq<string>, values: seq<Tree>): seq<(string, Tree)>
    requires |names| == |values|
  {
    if names == [] then []
    else
      var n := |names| - 1;
      Assign(Entries(names[..n], values[..n]), names[n], values[n])
  }

  // ----- The result as a function of the graph and the set of objects on the path -----

  ghost function RedactFrom(h: Heap, value: Value, keys: set<string>, path: set<Id>): Tree
    requires Closed(h) && ValueIn(h, value)
    decreases h.Keys - path
  {
    if value.Leaf? then TLeaf(value.prim)
    else if h[value.id].Opaque? then TOpaque(value.id)
    else if value.id in path then CIRCULAR
    else
      match h[value.id]
      case Arr(items) =>
        TArr(seq(|items|, i requires 0 <= i < |items| => RedactFrom(h, items[i], keys, path + {value.id})))
      case Rec(fields) =>
        TRec(Entries(Names(fields), seq(|fields|, i requires 0 <= i < |fields| =>
          if IsRedactKey(fields[i].0, keys) then REDACTED else RedactFrom(h, fields[i].1, keys, path + {value.id}))))
  }

  // ----- The algorithm, with its mutable path set -----

  class SeenSet {
    var ids: set<Id>

    constructor ()
      ensures ids == {}
    {
      ids := {};
    }
  }

  method Redact(h: Heap, value: Value, keys: set<string>, seen: SeenSet) returns (r: Tree)
    requires Closed(h) && ValueIn(h, value)
    modifies seen
    ensures seen.ids == old(seen.ids)
    ensures r == RedactFrom(h, value, keys, seen.ids)
    decreases h.Keys - seen.ids
  {
    if value.Leaf? {
      return TLeaf(value.prim);
    }
    var id := value.id;
    var node := h[id];
    if node.Opaque? {
      return TOpaque(id);
    }
    if id in seen.ids {
      return CIRCULAR;
    }
    ghost var path := seen.ids + {id};
    seen.ids := seen.ids + {id};
    if node.Arr? {
      var mapped: seq<Tree> := [];
      for i := 0 to |node.items|
        invariant seen.ids == path
        invariant |mapped| == i
        invariant forall j :: 0 <= j < i ==> mapped[j] == RedactFrom(h, node.items[j], keys, path)
      {
        var t := Redact(h, node.items[i], keys, seen);
        mapped := mapped + [t];
      }
      r := TArr(mapped);
    } else {
      var out: seq<(string, Tree)> := [];
      ghost var names, values := Names(node.fields), FieldValues(h, node.fields, keys, path);
      for i := 0 to |node.fields|
        invariant seen.ids == path
        invariant out == Entries(names[..i], values[..i])
      {
        var (k, v) := node.fields[i];
        var t := REDACTED;
        if !IsRedactKey(k, keys) {
          t := Redact(h, v, keys, seen);
        }
        out := Assign(out, k, t);
        assert names[..i + 1][..i] == names[..i] && values[..i + 1][..i] == values[..i];
      }
      assert names[..|names|] == names && values[..|values|] == values;
      r := TRec(out);
    }
    seen.ids := seen.ids - {id};
  }

  // ----- What stands at each place of the result -----

  datatype Step = Index(i: nat) | Key(k: string)

  /** Where a sequence of steps leads in the graph: to a value with the objects passed on the way, to a value
      under a redacted key, or nowhere. */
  datatype Place = Nowhere | Marked | Found(value: Value, ancestors: set<Id>)

  function IndexOf<T>(fields: seq<(string, T)>, k: string): (i: Option<nat>)
    ensures i.Some? ==> i.value < |fields| && fields[i.value].0 == k
    ensures i.None? ==> forall j :: 0 <= j < |fields| ==> fields[j].0 != k
  {
    if fields == [] then None
    else if fields[|fields| - 1].0 == k then Some(|fields| - 1)
    else IndexOf(fields[..|fields| - 1], k)
  }

  function Walk(h: Heap, keys: set<string>, value: Value, ancestors: set<Id>, steps: seq<Step>): (p: Place)
    requires Closed(h) && ValueIn(h, value)
    ensures p.Found? ==> ValueIn(h, p.value)
    decreases |steps|
  {
    if steps == [] then Found(value, ancestors)
    else if value.Leaf? || value.id in ancestors then Nowhere
    else
      match (h[value.id], steps[0])
      case (Arr(items), Index(i)) =>
        if i < |items| then Walk(h, keys, items[i], ancestors + {value.id}, steps[1..]) else Nowhere
      case (Rec(fields), Key(k)) =>
        (match IndexOf(fields, k)
         case None => Nowhere
         case Some(i) =>
           if k == PROTO then Nowhere
           else if IsRedactKey(k, keys) then (if |steps| == 1 then Marked else Nowhere)
           else Walk(h, keys, fields[i].1, ancestors + {value.id}, steps[1..]))
      case _ => Nowhere
  }

  /** The subtree of the result at the end of a sequence of steps. */
  function At(t: Tree, steps: seq<Step>): Option<Tree>
    decreases |steps|
  {
    if steps == [] then Some(t)
    else
      match (t, steps[0])
      case (TArr(items), Index(i)) => if i < |items| then At(items[i], steps[1..]) else None
      case (TRec(fields), Key(k)) =>
        (match IndexOf(fields, k)
         case None => None
         case Some(i) => At(fields[i].1, steps[1..]))
      case _ => None
  }

  ghost function FieldValues(h: Heap, fields: seq<(string, Value)>, keys: set<string>, path: set<Id>): seq<Tree>
    requires Closed(h) && forall i :: 0 <= i < |fields| ==> ValueIn(h, fields[i].1)
  {
    seq(|fields|, i requires 0 <= i < |fields| =>
      if IsRedactKey(fields[i].0, keys) then REDACTED else RedactFrom(h, fields[i].1, keys, path))
  }

  /** The last value assigned under a name is the entry with that name; `__proto__` is never one. */
  lemma {:induction false} EntriesAt(names: seq<string>, values: seq<Tree>, k: string)
    requires |names| == |values|
    requires forall i, j :: 0 <= i < j < |names| ==> names[i] != names[j]
    ensures var e := Entries(names, values); var i := IndexOf(e, k);
            i.Some? <==> k in names && k != PROTO
    ensures var e := Entries(names, values); var i := IndexOf(e, k);
            i.Some? ==> forall j :: 0 <= j < |names| && names[j] == k ==> e[i.value].1 == values[j]
  {
    if names != [] {
      var n := |names| - 1;
      EntriesAt(names[..n], values[..n], k);
      var e := Entries(names[..n], values[..n]);
      assert names == names[..n] + [names[n]];
      if names[n] != PROTO {
        assert (e + [(names[n], values[n])])[..|e|] == e;
      }
    }
  }

  /** The whole result, place by place, for every graph: shared, cyclic or not. */
  lemma {:induction false} ResultAt(h: Heap, keys: set<string>, value: Value, path: set<Id>, steps: seq<Step>)
    requires Closed(h) && ValueIn(h, value)
    ensures At(RedactFrom(h, value, keys, path), steps) ==
            match Walk(h, keys, value, path, steps)
            case Nowhere => None
            case Marked => Some(REDACTED)
            case Found(v, ancestors) => Some(RedactFrom(h, v, keys, ancestors))
    decreases |steps|
  {
    if steps != [] && value.Ref? && value.id !in path && !h[value.id].Opaque? {
      var rest := steps[1..];
      var path' := path + {value.id};
      match (h[value.id], steps[0])
      case (Arr(items), Index(i)) =>
        if i < |items| {
          ResultAt(h, keys, items[i], path', rest);
        }
      case (Rec(fields), Key(k)) =>
        var values := FieldValues(h, fields, keys, path');
        assert RedactFrom(h, value, keys, path) == TRec(Entries(Names(fields), values));
        EntriesAt(Names(fields), values, k);
        match IndexOf(fields, k) {
          case None =>
            assert k !in Names(fields);
          case Some(i) =>
            assert Names(fields)[i] == k;
            if k != PROTO && !IsRedactKey(k, keys) {
              ResultAt(h, keys, fields[i].1, path', rest);
            }
        }
      case _ =>
    }
  }

  /** An array or record reads `[circular]` at a place exactly when it is one of its own ancestors there. */
  lemma CircularExactly(h: Heap, keys: set<string>, root: Value, steps: seq<Step>, id: Id, ancestors: set<Id>)
    requires Closed(h) && ValueIn(h, root) && id in h && !h[id].Opaque?
    requires Walk(h, keys, root, {}, steps) == Found(Ref(id), ancestors)
    ensures At(RedactFrom(h, root, keys, {}), steps) == Some(TLeaf(Str("[circular]"))) <==> id in ancestors
  {
    ResultAt(h, keys, root, {}, steps);
  }

  // ----- Keys: what is marked, what survives -----

  function Without(names: seq<string>, k: string): seq<string> {
    if names == [] then []
    else
      var n := |names| - 1;
      if names[n] == k then Without(names[..n], k) else Without(names[..n], k) + [names[n]]
  }

  lemma {:induction false} EntriesNames(names: seq<string>, values: seq<Tree>)
    requires |names| == |values|
    ensures Names(Entries(names, values)) == Without(names, PROTO)
  {
    if names != [] {
      EntriesNames(names[..|names| - 1], values[..|names| - 1]);
    }
  }

  /** Every key of a record survives, in order: all but an own `__proto__`, which the assignment swallows. */
  lemma KeysSurvive(h: Heap, id: Id, keys: set<string>, path: set<Id>)
    requires Closed(h) && id in h && h[id].Rec? && id !in path
    ensures var t := RedactFrom(h, Ref(id), keys, path);
            t.TRec? && Names(t.fields) == Without(Names(h[id].fields), "__proto__")
  {
    var fields := h[id].fields;
    EntriesNames(Names(fields), FieldValues(h, fields, keys, path + {id}));
    assert RedactFrom(h, Ref(id), keys, path) == TRec(Entries(Names(fields), FieldValues(h, fields, keys, path + {id})));
  }

  /** At every depth of arrays and plain records a matching key holds the marker. */
  predicate AllMarked(t: Tree, keys: set<string>) {
    match t
    case TArr(items) => forall i :: 0 <= i < |items| ==> AllMarked(items[i], keys)
    case TRec(fields) =>
      forall i :: 0 <= i < |fields| ==>
        && fields[i].0 != PROTO
        && (IsRedactKey(fields[i].0, keys) ==> fields[i].1 == TLeaf(Str("[redacted]")))
        && AllMarked(fields[i].1, keys)
    case _ => true
  }

  lemma {:induction false} EntriesFrom(names: seq<string>, values: seq<Tree>)
    requires |names| == |values|
    ensures forall e :: e in Entries(names, values) ==>
              e.0 != PROTO && exists j :: 0 <= j < |names| && names[j] == e.0 && values[j] == e.1
  {
    if names != [] {
      var n := |names| - 1;
      EntriesFrom(names[..n], values[..n]);
      forall e | e in Entries(names, values)
        ensures e.0 != PROTO && exists j :: 0 <= j < |names| && names[j] == e.0 && values[j] == e.1
      {
        if e in Entries(names[..n], values[..n]) {
          var j :| 0 <= j < n && names[..n][j] == e.0 && values[..n][j] == e.1;
          assert names[j] == e.0 && values[j] == e.1;
        } else {
          assert names[n] == e.0 && values[n] == e.1;
        }
      }
    }
  }

  lemma {:induction false} ResultIsMarked(h: Heap, value: Value, keys: set<string>, path: set<Id>)
    requires Closed(h) && ValueIn(h, value)
    ensures AllMarked(RedactFrom(h, value, keys, path), keys)
    decreases h.Keys - path
  {
    if value.Ref? && value.id !in path && !h[value.id].Opaque? {
      var path' := path + {value.id};
      match h[value.id]
      case Arr(items) =>
        forall i | 0 <= i < |items| {
          ResultIsMarked(h, items[i], keys, path');
        }
      case Rec(fields) =>
        var values := FieldValues(h, fields, keys, path');
        forall i | 0 <= i < |fields|
          ensures AllMarked(values[i], keys) && (IsRedactKey(fields[i].0, keys) ==> values[i] == REDACTED)
        {
          if !IsRedactKey(fields[i].0, keys) {
            ResultIsMarked(h, fields[i].1, keys, path');
          }
        }
        EntriesFrom(Names(fields), values);
        var out := Entries(Names(fields), values);
        assert RedactFrom(h, value, keys, path) == TRec(out);
        forall i | 0 <= i < |out|
          ensures out[i].0 != PROTO && (IsRedactKey(out[i].0, keys) ==> out[i].1 == REDACTED) && AllMarked(out[i].1, keys)
        {
          assert out[i] in out;
        }
    }
  }

  // ----- Values under redacted keys do not matter -----

  /** The graphs agree on the objects in `s`, redacted values (and own `__proto__` values) aside. */
  predicate Agree(h1: Heap, h2: Heap, s: set<Id>, keys: set<string>) {
    s <= h1.Keys && s <= h2.Keys && forall id :: id in s ==> AgreeAt(h1[id], h2[id], s, keys)
  }

  predicate AgreeAt(n1: Node, n2: Node, s: set<Id>, keys: set<string>) {
    match (n1, n2)
    case (Arr(a), Arr(b)) => a == b && forall i :: 0 <= i < |a| && a[i].Ref? ==> a[i].id in s
    case (Rec(a), Rec(b)) =>
      && Names(a) == Names(b) && |a| == |b|
      && forall i :: 0 <= i < |a| && a[i].0 != PROTO && !IsRedactKey(a[i].0, keys) ==>
           a[i].1 == b[i].1 && (a[i].1.Ref? ==> a[i].1.id in s)
    case (Opaque, Opaque) => true
    case _ => false
  }

  lemma {:induction false} EntriesIgnoreProto(names: seq<string>, v1: seq<Tree>, v2: seq<Tree>)
    requires |names| == |v1| == |v2|
    requires forall i :: 0 <= i < |names| && names[i] != PROTO ==> v1[i] == v2[i]
    ensures Entries(names, v1) == Entries(names, v2)
  {
    if names != [] {
      var n := |names| - 1;
      EntriesIgnoreProto(names[..n], v1[..n], v2[..n]);
    }
  }

  lemma {:induction false} RedactedValuesDoNotMatter(h1: Heap, h2: Heap, s: set<Id>, value: Value, keys: set<string>,
      path: set<Id>)
    requires Closed(h1) && Closed(h2) && Agree(h1, h2, s, keys)
    requires value.Ref? ==> value.id in s
    ensures RedactFrom(h1, value, keys, path) == RedactFrom(h2, value, keys, path)
    decreases s - path
  {
    if value.Ref? && value.id !in path && !h1[value.id].Opaque? {
      var id := value.id;
      var path' := path + {id};
      assert AgreeAt(h1[id], h2[id], s, keys);
      match h1[id]
      case Arr(items) =>
        forall i | 0 <= i < |items|
          ensures RedactFrom(h1, items[i], keys, path') == RedactFrom(h2, items[i], keys, path')
        {
          RedactedValuesDoNotMatter(h1, h2, s, items[i], keys, path');
        }
      case Rec(f1) =>
        var f2 := h2[id].fields;
        var v1, v2 := FieldValues(h1, f1, keys, path'), FieldValues(h2, f2, keys, path');
        forall i | 0 <= i < |f1| && f1[i].0 != PROTO
          ensures v1[i] == v2[i]
        {
          assert Names(f1)[i] == Names(f2)[i];
          if !IsRedactKey(f1[i].0, keys) {
            RedactedValuesDoNotMatter(h1, h2, s, f1[i].1, keys, path');
          }
        }
        EntriesIgnoreProto(Names(f1), v1, v2);
        assert RedactFrom(h1, value, keys, path) == TRec(Entries(Names(f1), v1));
        assert RedactFrom(h2, value, keys, path) == TRec(Entries(Names(f2), v2));
    }
  }

  // ----- Plain trees -----

  function RedactTree(t: Tree, keys: set<string>): Tree {
    match t
    case TArr(items) => TArr(seq(|items|, i requires 0 <= i < |items| => RedactTree(items[i], keys)))
    case TRec(fields) =>
      TRec(Entries(Names(fields), seq(|fields|, i requires 0 <= i < |fields| =>
        if IsRedactKey(fields[i].0, keys) then REDACTED else RedactTree(fields[i].1, keys))))
    case _ => t
  }

  function TreeValues(fields: seq<(string, Tree)>, keys: set<string>): seq<Tree> {
    seq(|fields|, i requires 0 <= i < |fields| =>
      if IsRedactKey(fields[i].0, keys) then REDACTED else RedactTree(fields[i].1, keys))
  }

  lemma {:induction false} EntriesOfEntries(fields: seq<(string, Tree)>, values: seq<Tree>)
    requires |fields| == |values|
    requires forall i :: 0 <= i < |fields| ==> fields[i].0 != PROTO && values[i] == fields[i].1
    ensures Entries(Names(fields), values) == fields
  {
    if fields != [] {
      var n := |fields| - 1;
      EntriesOfEntries(fields[..n], values[..n]);
      assert Names(fields)[..n] == Names(fields[..n]);
      assert fields == fields[..n] + [(fields[n].0, values[n])];
    }
  }

  lemma {:induction false} MarkedIsFixed(t: Tree, keys: set<string>)
    requires AllMarked(t, keys)
    ensures RedactTree(t, keys) == t
  {
    match t
    case TArr(items) =>
      forall i | 0 <= i < |items|
        ensures RedactTree(items[i], keys) == items[i]
      {
        MarkedIsFixed(items[i], keys);
      }
    case TRec(fields) =>
      var values := TreeValues(fields, keys);
      forall i | 0 <= i < |fields|
        ensures values[i] == fields[i].1
      {
        if !IsRedactKey(fields[i].0, keys) {
          MarkedIsFixed(fields[i].1, keys);
        }
      }
      EntriesOfEntries(fields, values);
      assert RedactTree(t, keys) == TRec(Entries(Names(fields), values));
    case _ =>
  }

  /** The graph below the ranked objects has no cycle: every reference goes to a smaller rank. */
  predicate Ranked(h: Heap, rank: map<Id, nat>) {
    rank.Keys <= h.Keys && forall id :: id in rank ==> RankedAt(h[id], rank, rank[id])
  }

  predicate RankedAt(n: Node, rank: map<Id, nat>, r: nat) {
    match n
    case Arr(items) => forall i :: 0 <= i < |items| ==> Below(items[i], rank, r)
    case Rec(fields) => forall i :: 0 <= i < |fields| ==> Below(fields[i].1, rank, r)
    case Opaque => true
  }

  predicate Below(v: Value, rank: map<Id, nat>, r: nat) { v.Ref? ==> v.id in rank && rank[v.id] < r }

  /** The tree obtained by following every reference, each shared object copied at each use. */
  function Unfold(h: Heap, rank: map<Id, nat>, value: Value): Tree
    requires Ranked(h, rank) && (value.Ref? ==> value.id in rank)
    decreases if value.Ref? then rank[value.id] + 1 else 0
  {
    if value.Leaf? then TLeaf(value.prim)
    else
      assert RankedAt(h[value.id], rank, rank[value.id]);
      match h[value.id]
      case Opaque => TOpaque(value.id)
      case Arr(items) =>
        assert forall i :: 0 <= i < |items| ==> Below(items[i], rank, rank[value.id]);
        TArr(seq(|items|, i requires 0 <= i < |items| => Unfold(h, rank, items[i])))
      case Rec(fields) =>
        assert forall i :: 0 <= i < |fields| ==> Below(fields[i].1, rank, rank[value.id]);
        TRec(seq(|fields|, i requires 0 <= i < |fields| => (fields[i].0, Unfold(h, rank, fields[i].1))))
  }

  /** On acyclic graphs, diamonds included, redacting the graph is redacting its unfolding. */
  lemma {:induction false} AcyclicIsTree(h: Heap, rank: map<Id, nat>, value: Value, keys: set<string>, path: set<Id>)
    requires Closed(h) && Ranked(h, rank) && (value.Ref? ==> value.id in rank)
    requires forall p :: p in path ==> Below(value, rank, if p in rank then rank[p] else 0)
    ensures RedactFrom(h, value, keys, path) == RedactTree(Unfold(h, rank, value), keys)
    decreases if value.Ref? then rank[value.id] + 1 else 0
  {
    if value.Ref? && !h[value.id].Opaque? {
      var id := value.id;
      var path' := path + {id};
      assert id !in path;
      assert RankedAt(h[id], rank, rank[id]);
      match h[id]
      case Arr(items) =>
        forall i | 0 <= i < |items|
          ensures Below(items[i], rank, rank[id])
          ensures RedactFrom(h, items[i], keys, path') == RedactTree(Unfold(h, rank, items[i]), keys)
        {
          AcyclicIsTree(h, rank, items[i], keys, path');
        }
      case Rec(fields) =>
        var tree := Unfold(h, rank, value);
        var values := FieldValues(h, fields, keys, path');
        forall i | 0 <= i < |fields|
          ensures values[i] == TreeValues(tree.fields, keys)[i]
        {
          assert Below(fields[i].1, rank, rank[id]);
          AcyclicIsTree(h, rank, fields[i].1, keys, path');
        }
        assert values == TreeValues(tree.fields, keys) && Names(fields) == Names(tree.fields);
        assert RedactFrom(h, value, keys, path) == TRec(Entries(Names(fields), values));
        assert RedactTree(tree, keys) == TRec(Entries(Names(tree.fields), TreeValues(tree.fields, keys)));
    }
  }

  /** Redacting an output again changes nothing: however the output lies in memory, the algorithm run on it, with the
      ancestor checks it makes, gives it back. */
  lemma RedactIsIdempotent(h: Heap, value: Value, keys: set<string>, h2: Heap, rank2: map<Id, nat>, value2: Value)
    requires Closed(h) && ValueIn(h, value)
    requires Closed(h2) && Ranked(h2, rank2) && (value2.Ref? ==> value2.id in rank2)
    requires Unfold(h2, rank2, value2) == RedactFrom(h, value, keys, {})
    ensures RedactFrom(h2, value2, keys, {}) == RedactFrom(h, value, keys, {})
  {
    ResultIsMarked(h, value, keys, {});
    MarkedIsFixed(RedactFrom(h, value, keys, {}), keys);
    AcyclicIsTree(h2, rank2, value2, keys, {});
  }
}
