/** Fragment resolution of the GraphQL client (packages/web/graphql-client/src/fragments.ts). */
module Fragments {
  import opened Prelude

  // ----- The spread pattern /\.\.\.([^\s,{}()]+)/g -----

  predicate IsNameChar(c: char) { !IsSpace(c) && c !in {',', '{', '}', '(', ')'} }

  function NameRun(s: string): (n: nat)
    ensures n <= |s|
    ensures forall i :: 0 <= i < n ==> IsNameChar(s[i])
    ensures n < |s| ==> !IsNameChar(s[n])
  {
    if s != "" && IsNameChar(s[0]) then
      var n := 1 + NameRun(s[1..]);
      assert forall i :: 0 < i < n ==> s[i] == s[1..][i - 1];
      n
    else 0
  }

  predicate SpreadAt(s: string) { "..." <= s && NameRun(s[3..]) > 0 }

  /** The captured names of all matches, left to right; a match consumes its text. */
  function SpreadNames(s: string): seq<string>
    decreases |s|
  {
    if s == "" then []
    else if SpreadAt(s) then
      var n := NameRun(s[3..]);
      [s[3..3 + n]] + SpreadNames(s[3 + n..])
    else SpreadNames(s[1..])
  }

  // ----- assembleDocument -----

  type Definitions = map<string, string>

  function Join(parts: seq<string>): string
    requires parts != []
  {
    if |parts| == 1 then parts[0] else parts[0] + "\n" + Join(parts[1..])
  }

  function Texts(defs: Definitions, names: seq<string>): seq<string>
    requires forall n :: n in names ==> n in defs
  {
    seq(|names|, i requires 0 <= i < |names| => defs[names[i]])
  }

  /** `chain` leads from the query to its last name: each name is known and spread by the text before it. */
  predicate Chain(defs: Definitions, query: string, chain: seq<string>)
    decreases |chain|
  {
    chain != [] && chain[|chain| - 1] in defs &&
    if |chain| == 1 then chain[0] in SpreadNames(query)
    else
      var front := chain[..|chain| - 1];
      Chain(defs, query, front) && chain[|chain| - 1] in SpreadNames(defs[front[|front| - 1]])
  }

  ghost predicate Reachable(defs: Definitions, query: string, name: string) {
    exists chain: seq<string> :: Chain(defs, query, chain) && chain[|chain| - 1] == name
  }

  predicate Distinct(names: seq<string>) {
    forall i, j :: 0 <= i < j < |names| ==> names[i] != names[j]
  }

  /** What the worklist knows: the texts already searched are the query and fragments, all the others are pending. */
  ghost predicate Progress(defs: Definitions, query: string, names: seq<string>, pending: seq<string>,
      searched: set<string>) {
    && Distinct(names)
    && (forall n :: n in names ==> n in defs && Reachable(defs, query, n))
    && (forall t :: t in pending ==> t == query || exists n :: n in names && defs[n] == t)
    && (query in searched || query in pending)
    && (forall n :: n in names ==> defs[n] in searched || defs[n] in pending)
    && (forall t :: t in searched ==> KnownIn(defs, t, names))
  }

  /** Every known fragment spread by `t` is collected. */
  predicate KnownIn(defs: Definitions, t: string, names: seq<string>) {
    forall n :: n in SpreadNames(t) && n in defs ==> n in names
  }

  ghost function Missing(defs: Definitions, names: seq<string>): set<string> {
    set n | n in defs && n !in names
  }

  /** A self-contained document: the query, then exactly the reachable known fragments, each once. */
  ghost predicate IsResolution(defs: Definitions, query: string, names: seq<string>) {
    Distinct(names) && forall n :: n in names <==> n in defs && Reachable(defs, query, n)
  }

  ghost predicate IsAssembled(defs: Definitions, query: string, document: string) {
    exists names :: IsResolution(defs, query, names) && document == Join([query] + Texts(defs, names))
  }

  method AssembleDocument(query: string, defs: Definitions) returns (document: string)
    ensures IsAssembled(defs, query, document)
  {
    hide Reachable, KnownIn, Progress, IsResolution, SpreadNames, Missing;
    // `collected`: a Map keeps its insertion order
    var collected: seq<string> := [];
    var pending: seq<string> := [query];
    ghost var searched: set<string> := {};
    StartProgress(defs, query);
    while |pending| > 0
      invariant Progress(defs, query, collected, pending, searched)
      decreases |Missing(defs, collected)|, |pending|
    {
      var text := pending[|pending| - 1];
      ghost var before, left := pending, |Missing(defs, collected)|;
      pending := pending[..|pending| - 1];
      assert before == pending + [text];
      ReorderProgress(defs, query, collected, before, [text] + pending, searched);
      var spread := SpreadNames(text);
      for i := 0 to |spread|
        invariant Progress(defs, query, collected, [text] + pending, searched)
        invariant forall j :: 0 <= j < i && spread[j] in defs ==> spread[j] in collected
        invariant |Missing(defs, collected)| < left || (|Missing(defs, collected)| == left && |pending| < |before|)
      {
        var name := spread[i];
        if name !in collected && name in defs {
          CollectStep(defs, query, collected, [text] + pending, searched, text, name);
          collected := collected + [name];
          pending := pending + [defs[name]];
          assert [text] + pending == [text] + pending[..|pending| - 1] + [defs[name]];
        }
      }
      AllCollected(defs, text, collected);
      SearchedStep(defs, query, collected, text, pending, searched);
      searched := searched + {text};
    }
    ClosedIsComplete(defs, query, collected, searched);
    document := Join([query] + Texts(defs, collected));
  }

  lemma StartProgress(defs: Definitions, query: string)
    ensures Progress(defs, query, [], [query], {})
  {
  }

  lemma ReorderProgress(defs: Definitions, query: string, names: seq<string>, pending: seq<string>, pending': seq<string>,
      searched: set<string>)
    requires Progress(defs, query, names, pending, searched)
    requires forall t :: t in pending <==> t in pending'
    ensures Progress(defs, query, names, pending', searched)
  {
    hide Reachable, KnownIn;
  }

  lemma CollectStep(defs: Definitions, query: string, names: seq<string>, pending: seq<string>, searched: set<string>,
      text: string, name: string)
    requires Progress(defs, query, names, pending, searched) && text in pending
    requires name in SpreadNames(text) && name in defs && name !in names
    ensures Progress(defs, query, names + [name], pending + [defs[name]], searched)
    ensures |Missing(defs, names + [name])| < |Missing(defs, names)|
  {
    hide Reachable, SpreadNames;
    SpreadIsReachable(defs, query, names, pending, searched, text, name);
    Smaller(Missing(defs, names + [name]), Missing(defs, names), name);
  }

  lemma AllCollected(defs: Definitions, text: string, names: seq<string>)
    requires var spread := SpreadNames(text); forall j :: 0 <= j < |spread| && spread[j] in defs ==> spread[j] in names
    ensures KnownIn(defs, text, names)
  {
    var spread := SpreadNames(text);
    forall n | n in spread && n in defs
      ensures n in names
    {
      var j :| 0 <= j < |spread| && spread[j] == n;
    }
  }

  lemma SearchedStep(defs: Definitions, query: string, names: seq<string>, text: string, pending: seq<string>,
      searched: set<string>)
    requires Progress(defs, query, names, [text] + pending, searched)
    requires KnownIn(defs, text, names)
    ensures Progress(defs, query, names, pending, searched + {text})
  {
    hide Reachable, KnownIn;
    assert forall t :: t in [text] + pending <==> t == text || t in pending;
    forall n | n in names
      ensures defs[n] in searched + {text} || defs[n] in pending
    {
      assert defs[n] in searched || defs[n] in [text] + pending;
    }
  }

  lemma Smaller<T>(a: set<T>, b: set<T>, x: T)
    requires a <= b - {x} && x in b
    ensures |a| < |b|
  {
    Subset(a, b - {x});
  }

  lemma {:induction false} Subset<T>(a: set<T>, b: set<T>)
    requires a <= b
    ensures |a| <= |b|
  {
    if a != {} {
      var x :| x in a;
      Subset(a - {x}, b - {x});
    }
  }

  lemma SpreadIsReachable(defs: Definitions, query: string, names: seq<string>, pending: seq<string>, searched: set<string>,
      text: string, name: string)
    requires Progress(defs, query, names, pending, searched) && text in pending
    requires name in SpreadNames(text) && name in defs
    ensures Reachable(defs, query, name)
  {
    if text == query {
      assert Chain(defs, query, [name]);
    } else {
      var n :| n in names && defs[n] == text;
      ReachableNext(defs, query, n, name);
    }
  }

  /** What a reachable fragment spreads is reachable. */
  lemma ReachableNext(defs: Definitions, query: string, owner: string, name: string)
    requires Reachable(defs, query, owner) && owner in defs && name in defs && name in SpreadNames(defs[owner])
    ensures Reachable(defs, query, name)
  {
    hide SpreadNames;
    var chain :| Chain(defs, query, chain) && chain[|chain| - 1] == owner;
    var longer := chain + [name];
    assert longer[..|longer| - 1] == chain;
    assert Chain(defs, query, longer);
  }

  lemma {:induction false} ChainStaysInside(defs: Definitions, query: string, names: seq<string>, chain: seq<string>)
    requires Chain(defs, query, chain)
    requires KnownIn(defs, query, names)
    requires forall n :: n in names ==> n in defs && KnownIn(defs, defs[n], names)
    ensures chain[|chain| - 1] in names
    decreases |chain|
  {
    if |chain| > 1 {
      ChainStaysInside(defs, query, names, chain[..|chain| - 1]);
    }
  }

  lemma ClosedIsComplete(defs: Definitions, query: string, names: seq<string>, searched: set<string>)
    requires Progress(defs, query, names, [], searched)
    ensures IsResolution(defs, query, names)
    ensures forall n :: n in names ==> n in defs
  {
    forall n | Reachable(defs, query, n)
      ensures n in names
    {
      var chain :| Chain(defs, query, chain) && chain[|chain| - 1] == n;
      ChainStaysInside(defs, query, names, chain);
    }
  }

  // ----- The document as text -----

  /** A line break ends a match, so the spreads of joined texts are the spreads of the texts. */
  lemma {:induction false} SpreadsSplit(a: string, c: char, b: string)
    requires IsSpace(c)
    ensures SpreadNames(a + [c] + b) == SpreadNames(a) + SpreadNames(b)
    decreases |a|
  {
    var s := a + [c] + b;
    if a == "" {
      assert s[0] == c && s[1..] == b;
      assert !("..." <= s);
      assert SpreadNames(a) + SpreadNames(b) == SpreadNames(b);
    } else {
      SpreadAtSplit(a, c, b);
      if SpreadAt(a) {
        var n := NameRun(a[3..]);
        assert s[3..3 + n] == a[3..3 + n] && s[3 + n..] == a[3 + n..] + [c] + b;
        SpreadsSplit(a[3 + n..], c, b);
        ConcatAssoc([a[3..3 + n]], SpreadNames(a[3 + n..]), SpreadNames(b));
      } else {
        assert s[1..] == a[1..] + [c] + b;
        SpreadsSplit(a[1..], c, b);
      }
    }
  }

  lemma SpreadAtSplit(a: string, c: char, b: string)
    requires IsSpace(c) && a != ""
    ensures SpreadAt(a + [c] + b) == SpreadAt(a)
    ensures SpreadAt(a) ==> NameRun((a + [c] + b)[3..]) == NameRun(a[3..])
  {
    var s := a + [c] + b;
    if "..." <= a {
      assert s[3..] == a[3..] + [c] + b;
      NameRunSplit(a[3..], c, b);
    } else {
      assert s[|a|] == c && c != '.';
      assert s[..|a|] == a;
    }
  }

  lemma {:induction false} NameRunSplit(a: string, c: char, b: string)
    requires IsSpace(c)
    ensures NameRun(a + [c] + b) == NameRun(a)
  {
    var s := a + [c] + b;
    if a != "" {
      assert s[1..] == a[1..] + [c] + b;
      NameRunSplit(a[1..], c, b);
    }
  }

  function AllSpreads(parts: seq<string>): seq<string> {
    if parts == [] then [] else SpreadNames(parts[0]) + AllSpreads(parts[1..])
  }

  lemma {:induction false} SpreadsOfJoin(parts: seq<string>)
    requires parts != []
    ensures SpreadNames(Join(parts)) == AllSpreads(parts)
  {
    if |parts| == 1 {
      assert AllSpreads(parts[1..]) == [];
      assert AllSpreads(parts) == SpreadNames(parts[0]) + [];
    } else {
      SpreadsOfJoin(parts[1..]);
      SpreadsSplit(parts[0], '\n', Join(parts[1..]));
      assert [parts[0]][0] + "\n" + Join(parts[1..]) == parts[0] + ['\n'] + Join(parts[1..]);
    }
  }

  lemma {:induction false} AllSpreadsFrom(parts: seq<string>, name: string)
    ensures name in AllSpreads(parts) <==> exists i :: 0 <= i < |parts| && name in SpreadNames(parts[i])
  {
    if parts != [] {
      AllSpreadsFrom(parts[1..], name);
      if i :| 0 <= i < |parts| && name in SpreadNames(parts[i]) {
        if i > 0 {
          assert parts[1..][i - 1] == parts[i];
        }
      }
    }
  }

  /** Every known name the pattern finds anywhere in the text of the document is one of the fragments it defines. */
  lemma FoundSpreadsAreDefined(defs: Definitions, query: string, names: seq<string>, name: string)
    requires IsResolution(defs, query, names)
    requires name in SpreadNames(Join([query] + Texts(defs, names))) && name in defs
    ensures name in names
  {
    var parts := [query] + Texts(defs, names);
    SpreadsOfJoin(parts);
    AllSpreadsFrom(parts, name);
    var i :| 0 <= i < |parts| && name in SpreadNames(parts[i]);
    if i == 0 {
      assert Chain(defs, query, [name]);
    } else {
      var owner := names[i - 1];
      assert owner in names && parts[i] == defs[owner];
      ReachableNext(defs, query, owner, name);
    }
  }

  /** Which fragments are appended is determined: any two resolutions hold the same names. */
  lemma ResolutionIsUnique(defs: Definitions, query: string, a: seq<string>, b: seq<string>)
    requires IsResolution(defs, query, a) && IsResolution(defs, query, b)
    ensures multiset(a) == multiset(b)
  {
    forall x
      ensures multiset(a)[x] == multiset(b)[x]
    {
      Once(a, x);
      Once(b, x);
    }
  }

  lemma {:induction false} Once(s: seq<string>, x: string)
    requires Distinct(s)
    ensures multiset(s)[x] == if x in s then 1 else 0
  {
    if s != [] {
      var front := s[..|s| - 1];
      Once(front, x);
      assert s == front + [s[|s| - 1]];
    }
  }

  lemma {:induction false} NameRunOf(name: string, tail: string)
    requires forall i :: 0 <= i < |name| ==> IsNameChar(name[i])
    ensures NameRun(name + tail) == |name| + NameRun(tail)
    ensures NameRun(tail) == 0 <==> tail == "" || !IsNameChar(tail[0])
  {
    if name == "" {
      assert name + tail == tail;
    } else {
      assert (name + tail)[1..] == name[1..] + tail;
      NameRunOf(name[1..], tail);
    }
  }

  // ----- FragmentRegistry -----

  function FragmentText(name: string, onType: string, body: string): string {
    "fragment " + name + " on " + onType + " {\n" + body + "\n}"
  }

  const CONNECTION_OPENING: seq<string> := ["edges {", "  node {"]
  const CONNECTION_CLOSING: seq<string> :=
    ["  }", "}", "pageInfo {", "  startCursor", "  endCursor", "  hasNextPage", "  hasPreviousPage", "}"]

  function ConnectionBody(nodeBody: string): string {
    Join(CONNECTION_OPENING + [nodeBody] + CONNECTION_CLOSING)
  }

  class FragmentRegistry {
    var definitions: Definitions

    constructor ()
      ensures definitions == map[]
    {
      definitions := map[];
    }

    method RegisterFragment(name: string, onType: string, body: string)
      modifies this
      ensures definitions == old(definitions)[name := FragmentText(name, onType, body)]
    {
      definitions := definitions[name := FragmentText(name, onType, body)];
    }

    method RegisterConnectionFragment(name: string, onType: string, nodeBody: string)
      modifies this
      ensures definitions == old(definitions)[name := FragmentText(name, onType, ConnectionBody(nodeBody))]
    {
      RegisterFragment(name, onType, ConnectionBody(nodeBody));
    }

    method Resolve(query: string) returns (document: string)
      ensures IsAssembled(definitions, query, document)
    {
      document := AssembleDocument(query, definitions);
    }
  }

  /** A text without dots has no spread. */
  lemma {:induction false} NoDots(s: string)
    requires '.' !in s
    ensures SpreadNames(s) == []
  {
    if s != "" {
      assert s[0] in s && "..."[0] == '.';
      NoDots(s[1..]);
    }
  }

  lemma SpreadsAfterWord(word: string, t: string)
    requires '.' !in word
    ensures SpreadNames(word + " " + t) == SpreadNames(t)
  {
    NoDots(word);
    SpreadsSplit(word, ' ', t);
    hide SpreadNames;
    assert word + " " + t == word + [' '] + t;
  }

  /** The registry's own text adds no spread: a registered fragment spreads what its name, type and body spread. */
  lemma FragmentTextSpreads(name: string, onType: string, body: string)
    ensures SpreadNames(FragmentText(name, onType, body)) ==
            SpreadNames(name) + (SpreadNames(onType) + SpreadNames(body))
  {
    hide SpreadNames;
    var inner := body + "\n" + "}";
    var braces := "{" + ['\n'] + inner;
    var typed := onType + " " + braces;
    var onTyped := "on" + " " + typed;
    var named := name + " " + onTyped;
    BodySpreads(body);
    SpreadsSplit(onType, ' ', braces);
    assert typed == onType + [' '] + braces;
    SpreadsAfterWord("on", typed);
    SpreadsSplit(name, ' ', onTyped);
    assert named == name + [' '] + onTyped;
    SpreadsAfterWord("fragment", named);
    FragmentTextParts(name, onType, body);
  }

  lemma BodySpreads(body: string)
    ensures SpreadNames("{" + ['\n'] + (body + "\n" + "}")) == SpreadNames(body)
  {
    NoDots("{");
    NoDots("}");
    SpreadsSplit(body, '\n', "}");
    SpreadsSplit("{", '\n', body + "\n" + "}");
    hide SpreadNames;
    assert body + "\n" + "}" == body + ['\n'] + "}";
  }

  lemma FragmentTextParts(name: string, onType: string, body: string)
    ensures FragmentText(name, onType, body) ==
            "fragment" + " " + (name + " " + ("on" + " " + (onType + " " + ("{" + ['\n'] + (body + "\n" + "}")))))
  {
  }

  /** Nor does the connection boilerplate. */
  lemma ConnectionSpreads(nodeBody: string)
    ensures SpreadNames(ConnectionBody(nodeBody)) == SpreadNames(nodeBody)
  {
    hide SpreadNames, Join;
    var opening, closing := ["edges {", "  node {"],
      ["  }", "}", "pageInfo {", "  startCursor", "  endCursor", "  hasNextPage", "  hasPreviousPage", "}"];
    assert CONNECTION_OPENING == opening && CONNECTION_CLOSING == closing;
    SpreadsOfJoin(opening + [nodeBody] + closing);
    PlainParts(opening, nodeBody, closing);
  }

  lemma {:induction false} NoSpreadsIn(parts: seq<string>)
    requires forall i :: 0 <= i < |parts| ==> '.' !in parts[i]
    ensures AllSpreads(parts) == []
  {
    if parts != [] {
      NoDots(parts[0]);
      NoSpreadsIn(parts[1..]);
    }
  }

  lemma {:induction false} PlainParts(before: seq<string>, t: string, after: seq<string>)
    requires forall i :: 0 <= i < |before| ==> '.' !in before[i]
    requires forall i :: 0 <= i < |after| ==> '.' !in after[i]
    ensures AllSpreads(before + [t] + after) == SpreadNames(t)
  {
    var all := before + [t] + after;
    if before == [] {
      assert all[0] == t && all[1..] == after;
      NoSpreadsIn(after);
    } else {
      assert all[0] == before[0] && all[1..] == before[1..] + [t] + after;
      NoDots(before[0]);
      PlainParts(before[1..], t, after);
    }
  }
}
