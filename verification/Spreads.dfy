/** GraphQL fragment spreads as the language defines them (October 2021, sections 2.1 and 2.8), against the pattern
    that looks for them (packages/web/graphql-client/src/fragments.ts:6-20). */
module Spreads {
  import opened Prelude
  import opened Fragments

  // ----- The lexical grammar: ignored tokens, names, strings, and the three dots -----

  predicate IsNameStart(c: char) { 'a' <= c <= 'z' || 'A' <= c <= 'Z' || c == '_' }

  predicate IsNameContinue(c: char) { IsNameStart(c) || '0' <= c <= '9' }

  predicate IsLineEnd(c: char) { c == '\n' || c == '\r' }

  predicate IsIgnored(c: char) { c == ' ' || c == '\t' || IsLineEnd(c) || c == ',' || c == '\U{feff}' }

  predicate IsName(s: string) { s != "" && IsNameStart(s[0]) && forall i :: 0 <= i < |s| ==> IsNameContinue(s[i]) }

  /** Where a reader of the text is. */
  datatype Mode =
    | Code(dots: nat)         // behind this many dots in a row
    | Gap                     // behind three dots, only ignored tokens in between
    | Comment(inGap: bool)
    | Naming(text: string)    // in the name behind the dots
    | Quotes(n: nat)          // behind one or two quotes
    | Text(escaped: bool)     // in a string
    | Block(quotes: nat)      // in a block string, behind this many quotes
    | Escape(quotes: nat)     // in a block string, behind a backslash and this many quotes

  const CODE := Code(0)

  function InCode(dots: nat, c: char): Mode {
    if c == '.' then (if dots >= 2 then Gap else Code(dots + 1))
    else if c == '"' then Quotes(1)
    else if c == '#' then Comment(false)
    else CODE
  }

  function Next(m: Mode, c: char): Mode {
    match m
    case Code(dots) => InCode(dots, c)
    case Gap =>
      if IsIgnored(c) then Gap
      else if c == '#' then Comment(true)
      else if IsNameStart(c) then Naming([c])
      else InCode(0, c)
    case Comment(inGap) => if !IsLineEnd(c) then m else if inGap then Gap else CODE
    case Naming(text) => if IsNameContinue(c) then Naming(text + [c]) else InCode(0, c)
    case Quotes(n) =>
      if c == '"' then (if n >= 2 then Block(0) else Quotes(n + 1))
      else if n >= 2 then InCode(0, c)
      else if IsLineEnd(c) then CODE
      else Text(c == '\\')
    case Text(escaped) =>
      if IsLineEnd(c) || (c == '"' && !escaped) then CODE else Text(c == '\\' && !escaped)
    case Block(quotes) =>
      if c == '"' then (if quotes >= 2 then CODE else Block(quotes + 1))
      else if c == '\\' then Escape(0)
      else Block(0)
    case Escape(quotes) =>
      if c == '"' then (if quotes >= 2 then Block(0) else Escape(quotes + 1))
      else if c == '\\' then Escape(0)
      else Block(0)
  }

  /** The spread that ends with its name: `on` is no fragment name. */
  function Ended(m: Mode): seq<string> { if m.Naming? && m.text != "on" then [m.text] else [] }

  function EndedAt(m: Mode, c: char): seq<string> { if IsNameContinue(c) then [] else Ended(m) }

  function Lexed(m: Mode, s: string): Mode
    decreases |s|
  {
    if s == "" then m else Lexed(Next(m, s[0]), s[1..])
  }

  /** The names of the spreads that end inside `s`. */
  function NamesIn(m: Mode, s: string): seq<string>
    decreases |s|
  {
    if s == "" then []
    else EndedAt(m, s[0]) + NamesIn(Next(m, s[0]), s[1..])
  }

  /** The fragment names a GraphQL reader finds spread in the text, in order. */
  function LexicalSpreads(s: string): seq<string> { NamesIn(CODE, s) + Ended(Lexed(CODE, s)) }

  lemma {:induction false} LexedConcat(m: Mode, a: string, b: string)
    ensures Lexed(m, a + b) == Lexed(Lexed(m, a), b)
    ensures NamesIn(m, a + b) == NamesIn(m, a) + NamesIn(Lexed(m, a), b)
    decreases |a|
  {
    hide Next, Ended, IsNameContinue;
    var s := a + b;
    if a == "" {
      assert s == b;
    } else {
      assert s[0] == a[0] && s[1..] == a[1..] + b;
      LexedConcat(Next(m, a[0]), a[1..], b);
      NamesInStep(m, s);
      NamesInStep(m, a);
      hide Lexed, NamesIn;
      ConcatAssoc(EndedAt(m, a[0]), NamesIn(Next(m, a[0]), a[1..]), NamesIn(Lexed(m, a), b));
    }
  }

  lemma NamesInStep(m: Mode, s: string)
    requires s != ""
    ensures Lexed(m, s) == Lexed(Next(m, s[0]), s[1..])
    ensures NamesIn(m, s) == EndedAt(m, s[0]) + NamesIn(Next(m, s[0]), s[1..])
  {
    hide Next, Ended;
  }

  lemma LexedOne(m: Mode, c: char)
    ensures Lexed(m, [c]) == Next(m, c)
    ensures NamesIn(m, [c]) == EndedAt(m, c)
  {
    hide Next;
    assert [c][1..] == "";
    assert Lexed(m, [c]) == Lexed(Next(m, c), "");
    assert NamesIn(Next(m, c), "") == [];
  }

  // ----- A spread, written out -----

  /** Whether a comment is open behind these ignored tokens; None if something else is among them. */
  function GapState(gap: string): Option<bool> {
    if gap == "" then Some(false)
    else
      var before, c := GapState(gap[..|gap| - 1]), gap[|gap| - 1];
      if before.None? then None
      else if before.value then Some(!IsLineEnd(c))
      else if IsIgnored(c) then Some(false)
      else if c == '#' then Some(true)
      else None
  }

  predicate IsGap(gap: string) { GapState(gap) == Some(false) }

  /** A spread of the fragment `name`: in the code, three dots, ignored tokens, and the whole of the name. */
  predicate IsSpread(p: string, gap: string, name: string, tail: string) {
    && Lexed(CODE, p + "...") == Gap
    && IsGap(gap)
    && IsName(name) && name != "on"
    && (tail == "" || !IsNameContinue(tail[0]))
  }

  function Spelled(p: string, gap: string, name: string, tail: string): string { p + "..." + (gap + (name + tail)) }

  lemma {:induction false} GapStays(gap: string)
    ensures GapState(gap) == Some(false) ==> Lexed(Gap, gap) == Gap && NamesIn(Gap, gap) == []
    ensures GapState(gap) == Some(true) ==> Lexed(Gap, gap) == Comment(true) && NamesIn(Gap, gap) == []
  {
    if gap != "" {
      var front, c := gap[..|gap| - 1], gap[|gap| - 1];
      GapStays(front);
      LexedConcat(Gap, front, [c]);
      LexedOne(Lexed(Gap, front), c);
      hide Lexed, NamesIn;
      assert gap == front + [c];
    }
  }

  lemma {:induction false} NameIsRead(name: string)
    requires IsName(name)
    ensures Lexed(Gap, name) == Naming(name) && NamesIn(Gap, name) == []
  {
    var front, c := name[..|name| - 1], name[|name| - 1];
    LexedConcat(Gap, front, [c]);
    LexedOne(Lexed(Gap, front), c);
    assert name == front + [c];
    if front != "" {
      NameIsRead(front);
    }
  }

  /** Written out anywhere, a spread is found by the reader. */
  lemma SpreadIsRead(p: string, gap: string, name: string, tail: string)
    requires IsSpread(p, gap, name, tail)
    ensures name in LexicalSpreads(Spelled(p, gap, name, tail))
  {
    var dots := p + "...";
    LexedConcat(CODE, dots, gap + (name + tail));
    LexedConcat(Gap, gap, name + tail);
    LexedConcat(Gap, name, tail);
    GapStays(gap);
    NameIsRead(name);
    assert NamesIn(Naming(name), tail) + Ended(Lexed(Naming(name), tail)) != [] &&
           (NamesIn(Naming(name), tail) + Ended(Lexed(Naming(name), tail)))[0] == name;
  }

  predicate EndsInDots(s: string, n: nat) { n <= |s| && forall i :: |s| - n <= i < |s| ==> s[i] == '.' }

  /** What has been read when the reader is in a gap, in a comment there, or in a name. */
  predicate ReadSoFar(s: string, p: string, gap: string) {
    match Lexed(CODE, s)
    case Code(dots) => dots <= 2 && EndsInDots(s, dots)
    case Gap => s == p + "..." + gap && Lexed(CODE, p + "...") == Gap && IsGap(gap)
    case Comment(inGap) =>
      inGap ==> s == p + "..." + gap && Lexed(CODE, p + "...") == Gap && GapState(gap) == Some(true)
    case Naming(text) =>
      s == p + "..." + (gap + text) && Lexed(CODE, p + "...") == Gap && IsGap(gap) && IsName(text)
    case _ => true
  }

  lemma {:induction false} ReadBack(s: string) returns (p: string, gap: string)
    ensures ReadSoFar(s, p, gap)
  {
    p, gap := "", "";
    if s != "" {
      var front, c := s[..|s| - 1], s[|s| - 1];
      assert s == front + [c];
      p, gap := ReadBack(front);
      LexedConcat(CODE, front, [c]);
      LexedOne(Lexed(CODE, front), c);
      p, gap := ReadOneMore(front, c, p, gap);
    }
  }

  lemma ReadOneMore(front: string, c: char, p: string, gap: string) returns (p': string, gap': string)
    requires ReadSoFar(front, p, gap)
    requires Lexed(CODE, front + [c]) == Next(Lexed(CODE, front), c)
    ensures ReadSoFar(front + [c], p', gap')
  {
    hide Lexed;
    p', gap' := p, gap;
    var s := front + [c];
    match Lexed(CODE, front)
    case Code(dots) =>
      if Next(Lexed(CODE, front), c) == Gap {
        p', gap' := s[..|s| - 3], "";
        assert s == p' + "..." + gap' && s == p' + "...";
      }
    case Gap =>
      if IsIgnored(c) || c == '#' {
        gap' := gap + [c];
        assert s == p + "..." + gap';
        assert gap'[..|gap|] == gap;
      } else if IsNameStart(c) {
        assert s == p + "..." + (gap + [c]);
      }
    case Comment(inGap) =>
      if inGap {
        gap' := gap + [c];
        assert s == p + "..." + gap';
        assert gap'[..|gap|] == gap;
      }
    case Naming(text) =>
      if IsNameContinue(c) {
        assert s == p + "..." + (gap + (text + [c]));
      }
    case _ =>
  }

  lemma {:induction false} NameWasSpread(s: string, name: string) returns (p: string, gap: string, tail: string)
    requires name in NamesIn(CODE, s)
    ensures IsSpread(p, gap, name, tail) && s == Spelled(p, gap, name, tail) && tail != ""
  {
    var front, c := s[..|s| - 1], s[|s| - 1];
    assert s == front + [c];
    LexedConcat(CODE, front, [c]);
    LexedOne(Lexed(CODE, front), c);
    hide NamesIn, Lexed;
    if name in NamesIn(CODE, front) {
      p, gap, tail := NameWasSpread(front, name);
      tail := tail + [c];
      assert s == Spelled(p, gap, name, tail);
    } else {
      assert name in EndedAt(Lexed(CODE, front), c);
      p, gap := ReadBack(front);
      tail := [c];
      assert s == Spelled(p, gap, name, tail);
    }
  }

  /** The names a reader finds are exactly those of the spreads written in the text. */
  lemma LexicalSpreadsExactly(s: string, name: string)
    ensures name in LexicalSpreads(s) <==>
            exists p, gap, tail :: IsSpread(p, gap, name, tail) && s == Spelled(p, gap, name, tail)
  {
    if name in NamesIn(CODE, s) {
      var p, gap, tail := NameWasSpread(s, name);
    } else if name in Ended(Lexed(CODE, s)) {
      var p, gap := ReadBack(s);
      assert name + "" == name;
      assert s == Spelled(p, gap, name, "") && IsSpread(p, gap, name, "");
    }
    forall p, gap, tail | IsSpread(p, gap, name, tail) && s == Spelled(p, gap, name, tail)
      ensures name in LexicalSpreads(s)
    {
      SpreadIsRead(p, gap, name, tail);
    }
  }

  // ----- What the pattern finds -----

  type Match = (nat, nat)

  /** A match starts and ends inside the text, with a name between the dots and its end. */
  predicate IsMatch(s: string, m: Match) { m.0 + 3 < m.1 <= |s| }

  function MatchEnd(s: string, at: nat): (end: nat)
    requires at <= |s| && SpreadAt(s[at..])
    ensures at + 3 < end <= |s|
  {
    at + 3 + NameRun(s[at..][3..])
  }

  /** Start and end of every match of the pattern, scanning from `at`. */
  function Matches(s: string, at: nat): (ms: seq<Match>)
    ensures forall m :: m in ms ==> IsMatch(s, m) && at <= m.0
    decreases |s| - at
  {
    if at >= |s| then []
    else if SpreadAt(s[at..]) then [(at, MatchEnd(s, at))] + Matches(s, MatchEnd(s, at))
    else Matches(s, at + 1)
  }

  function Capture(s: string, m: Match): string
    requires IsMatch(s, m)
  {
    s[m.0 + 3..m.1]
  }

  /** The names captured are those of the matches. */
  lemma {:induction false} CapturesOfMatches(s: string, at: nat, name: string)
    requires at <= |s|
    ensures name in SpreadNames(s[at..]) <==> exists m :: m in Matches(s, at) && Capture(s, m) == name
    decreases |s| - at
  {
    hide NameRun, SpreadAt;
    if at < |s| {
      if SpreadAt(s[at..]) {
        CapturesOfMatches(s, MatchEnd(s, at), name);
        FirstCapture(s, at);
      } else {
        CapturesOfMatches(s, at + 1, name);
        assert s[at..][1..] == s[at + 1..];
      }
    }
  }

  lemma SlicesAt(s: string, at: nat, n: nat)
    requires at + 3 + n <= |s|
    ensures s[at..][3..][..n] == s[at + 3..at + 3 + n] == s[at..][3..3 + n]
    ensures s[at..][3..][n..] == s[at + 3 + n..] == s[at..][3 + n..]
  {
  }

  lemma FirstCapture(s: string, at: nat)
    requires at <= |s| && SpreadAt(s[at..])
    ensures SpreadNames(s[at..]) == [Capture(s, (at, MatchEnd(s, at)))] + SpreadNames(s[MatchEnd(s, at)..])
  {
    hide NameRun;
    SlicesAt(s, at, NameRun(s[at..][3..]));
  }

  /** A match that began earlier runs across position `i`. */
  predicate Across(ms: seq<Match>, i: nat) { exists m :: m in ms && m.0 < i < m.1 }

  /** A match begins at `i` exactly where the pattern fits and no match runs across. */
  lemma {:induction false} MatchBeginsExactly(s: string, at: nat, i: nat, end: nat)
    requires at <= i < |s|
    ensures (i, end) in Matches(s, at) <==> SpreadAt(s[i..]) && end == MatchEnd(s, i) && !Across(Matches(s, at), i)
    decreases |s| - at
  {
    hide SpreadAt, MatchEnd;
    if SpreadAt(s[at..]) {
      var e := MatchEnd(s, at);
      assert Matches(s, at) == [(at, e)] + Matches(s, e);
      if at < i < e {
        assert (at, e) in Matches(s, at);
      } else if at < i {
        MatchBeginsExactly(s, e, i, end);
      }
    } else if at < i {
      MatchBeginsExactly(s, at + 1, i, end);
    }
  }

  lemma DotsAhead(s: string, i: nat, v: string)
    requires i <= |s| && s[i..] == "..." + v
    ensures SpreadAt(s[i..]) <==> NameRun(v) > 0
    ensures SpreadAt(s[i..]) ==> MatchEnd(s, i) == i + 3 + NameRun(v)
  {
    hide NameRun;
    assert s[i..][3..] == v && "..." <= s[i..];
  }

  predicate IsSeparator(c: char) { IsSpace(c) || c in {',', '{', '}', '(', ')'} }

  /** Three dots, then `name`: one or more characters up to the next separator. */
  predicate IsWritten(s: string, p: string, name: string, tail: string) {
    && s == p + "..." + (name + tail)
    && name != "" && (forall i :: 0 <= i < |name| ==> !IsSeparator(name[i]))
    && (tail == "" || IsSeparator(tail[0]))
  }

  lemma MatchIsWritten(s: string, m: Match)
    requires m in Matches(s, 0)
    ensures IsWritten(s, s[..m.0], Capture(s, m), s[m.1..]) && !Across(Matches(s, 0), m.0)
  {
    hide *;
    MatchInside(s, m);
    MatchBeginsExactly(s, 0, m.0, m.1);
    var v := s[m.0 + 3..];
    RunBehindDots(s, m.0, v);
    DotsText(s, m.0);
    RunIsWritten(s, s[..m.0], v);
    CaptureIs(s, m);
  }

  lemma MatchInside(s: string, m: Match)
    requires m in Matches(s, 0)
    ensures IsMatch(s, m) && m.0 + 3 < m.1 <= |s|
  {
    hide Matches;
  }

  lemma RunBehindDots(s: string, at: nat, v: string)
    requires at + 3 <= |s| && v == s[at + 3..] && SpreadAt(s[at..])
    ensures "..." <= s[at..] && NameRun(v) > 0 && MatchEnd(s, at) == at + 3 + NameRun(v)
  {
    hide NameRun;
    assert s[at..][3..] == v;
  }

  lemma DotsText(s: string, at: nat)
    requires at + 3 <= |s| && "..." <= s[at..]
    ensures s == s[..at] + ("..." + s[at + 3..])
  {
    var t := s[at..];
    assert t == t[..3] + t[3..] && t[..3] == "..." && t[3..] == s[at + 3..];
  }

  /** The characters up to the end of a run are no separators, and one follows. */
  lemma RunIsWritten(s: string, p: string, v: string)
    requires s == p + ("..." + v) && NameRun(v) > 0
    ensures IsWritten(s, p, v[..NameRun(v)], v[NameRun(v)..])
  {
    var n := NameRun(v);
    assert v[..n] + v[n..] == v;
    ConcatAssoc(p, "...", v);
    hide NameRun;
  }

  lemma CaptureIs(s: string, m: Match)
    requires IsMatch(s, m)
    ensures var n := m.1 - m.0 - 3; Capture(s, m) == s[m.0 + 3..][..n] && s[m.1..] == s[m.0 + 3..][n..]
  {
  }

  lemma WrittenIsMatched(s: string, p: string, name: string, tail: string)
    requires IsWritten(s, p, name, tail) && !Across(Matches(s, 0), |p|)
    ensures var m := (|p|, |p| + 3 + |name|); m in Matches(s, 0) && Capture(s, m) == name
  {
    var v := name + tail;
    ConcatAssoc(p, "...", v);
    assert s[|p|..] == "..." + v;
    NameRunOf(name, tail);
    DotsAhead(s, |p|, v);
    MatchBeginsExactly(s, 0, |p|, |p| + 3 + |name|);
    hide NameRun, Matches, SpreadAt, Across, MatchEnd;
    assert s == (p + "...") + name + tail;
  }

  /** The names the pattern captures, told from the text: those written behind three dots and up to the next separator,
      where no match begun further left runs across the dots. */
  lemma CapturesExactly(s: string, name: string)
    ensures name in SpreadNames(s) <==>
            exists p, tail :: IsWritten(s, p, name, tail) && !Across(Matches(s, 0), |p|)
  {
    hide IsWritten, Across, Matches, SpreadNames;
    CapturesOfMatches(s, 0, name);
    assert s[0..] == s;
    if m :| m in Matches(s, 0) && Capture(s, m) == name {
      MatchIsWritten(s, m);
      assert |s[..m.0]| == m.0;
    }
    if p, tail :| IsWritten(s, p, name, tail) && !Across(Matches(s, 0), |p|) {
      WrittenIsMatched(s, p, name, tail);
    }
  }

  /** The pattern captures `name` for the spread whose dots begin at `i`. */
  predicate CapturedAt(s: string, i: nat, name: string) {
    exists m :: m in Matches(s, 0) && m.0 == i && Capture(s, m) == name
  }

  lemma {:induction false} GapBegins(gap: string)
    requires GapState(gap).Some? && gap != ""
    ensures IsIgnored(gap[0]) || gap[0] == '#'
  {
    if |gap| > 1 {
      GapBegins(gap[..|gap| - 1]);
    } else {
      assert gap[..0] == "";
    }
  }

  lemma NamesAreNameChars(name: string)
    requires IsName(name)
    ensures forall i :: 0 <= i < |name| ==> IsNameChar(name[i])
  {
  }

  lemma AtDots(p: string, gap: string, name: string, tail: string)
    ensures var s := Spelled(p, gap, name, tail); s[|p|..] == "..." + (gap + (name + tail)) && "..." <= s[|p|..]
    ensures Spelled(p, gap, name, tail)[|p|..][3..] == gap + (name + tail)
  {
  }

  /** What the pattern sees if the name follows the dots at once. */
  lemma PatternAtName(p: string, name: string, tail: string)
    requires IsName(name)
    ensures var s, end := Spelled(p, "", name, tail), |p| + 3 + |name|;
            SpreadAt(s[|p|..]) && MatchEnd(s, |p|) == end + NameRun(tail) && s[|p| + 3..end] == name
    ensures NameRun(tail) == 0 <==> tail == "" || !IsNameChar(tail[0])
  {
    NamesAreNameChars(name);
    NameRunOf(name, tail);
    AtDots(p, "", name, tail);
    hide NameRun, IsNameChar, SpreadAt, MatchEnd, Spelled;
    var s, v := Spelled(p, "", name, tail), "" + (name + tail);
    assert v == name + tail;
    DotsAhead(s, |p|, v);
    SliceAt(s, p, name, tail);
  }

  lemma SliceAt(s: string, p: string, name: string, tail: string)
    requires s == Spelled(p, "", name, tail)
    ensures |p| + 3 + |name| <= |s| && s[|p| + 3..|p| + 3 + |name|] == name
  {
    var q := p + "...";
    assert s == q + name + tail;
  }

  /** What follows the dots otherwise is not the name. */
  lemma PatternAtGap(p: string, gap: string, name: string, tail: string)
    requires IsGap(gap) && IsName(name) && gap != ""
    ensures Spelled(p, gap, name, tail)[|p| + 3] != name[0]
  {
    GapBegins(gap);
    AtDots(p, gap, name, tail);
    assert Spelled(p, gap, name, tail)[|p| + 3] == gap[0];
  }

  /** A spread is found by the pattern exactly when its name follows the dots at once, something that cannot belong to it
      follows the name, and no match begun further left runs across the dots. */
  lemma SpreadIsCaptured(p: string, gap: string, name: string, tail: string)
    requires IsGap(gap) && IsName(name)
    ensures var s := Spelled(p, gap, name, tail);
            CapturedAt(s, |p|, name) <==>
            && gap == ""
            && (tail == "" || IsSeparator(tail[0]))
            && !Across(Matches(s, 0), |p|)
  {
    var s := Spelled(p, gap, name, tail);
    var end := |p| + 3 + |name|;
    MatchBeginsExactly(s, 0, |p|, end);
    if CapturedAt(s, |p|, name) {
      var m :| m in Matches(s, 0) && m.0 == |p| && Capture(s, m) == name;
      MatchBeginsExactly(s, 0, |p|, m.1);
      assert Capture(s, m)[0] == s[|p| + 3];
      if gap == "" {
        PatternAtName(p, name, tail);
      } else {
        PatternAtGap(p, gap, name, tail);
      }
    }
    if gap == "" {
      PatternAtName(p, name, tail);
    }
    hide SpreadAt, MatchEnd, Matches, Spelled, NameRun, IsGap, Across, IsName;
    if gap == "" && NameRun(tail) == 0 && !Across(Matches(s, 0), |p|) {
      var m := (|p|, end);
      assert m in Matches(s, 0) && Capture(s, m) == name;
    }
  }

  lemma MatchIsNameChars(s: string, at: nat, k: nat)
    requires at <= |s| && SpreadAt(s[at..]) && at <= k < MatchEnd(s, at)
    ensures IsNameChar(s[k])
  {
    var t := s[at..];
    assert t[..3] == "..." && s[k] == t[k - at];
    if k >= at + 3 {
      assert s[k] == t[3..][k - at - 3];
    } else {
      assert t[k - at] == t[..3][k - at] == '.';
    }
  }

  /** No match runs across a spread that stands behind white space, a comma, a brace or a parenthesis. */
  lemma SeparatedIsNotCrossed(s: string, i: nat)
    requires 0 < i <= |s| && !IsNameChar(s[i - 1])
    ensures !Across(Matches(s, 0), i)
  {
    hide *;
    if Across(Matches(s, 0), i) {
      var m := AcrossMatch(s, i);
      MatchBeginsExactly(s, 0, m.0, m.1);
      MatchIsNameChars(s, m.0, i - 1);
      assert false;
    }
  }

  lemma AcrossMatch(s: string, i: nat) returns (m: Match)
    requires Across(Matches(s, 0), i)
    ensures m in Matches(s, 0) && m.0 < i < m.1 <= |s|
  {
    hide Matches;
    m :| m in Matches(s, 0) && m.0 < i < m.1;
    assert IsMatch(s, m);
  }

  /** Every spread of the text has its name right behind the dots, a separator behind the name, and no match of the
      pattern running across its dots. */
  ghost predicate IsTight(s: string) {
    forall p, gap, name, tail :: IsSpread(p, gap, name, tail) && s == Spelled(p, gap, name, tail) ==>
      gap == "" && (tail == "" || !IsNameChar(tail[0])) && !Across(Matches(s, 0), |p|)
  }

  ghost predicate AllCaptured(s: string) {
    forall p, gap, name, tail :: IsSpread(p, gap, name, tail) && s == Spelled(p, gap, name, tail) ==> CapturedAt(s, |p|, name)
  }

  /** The pattern finds all spreads of a text exactly if the text is tight. */
  lemma TightTextsExactly(s: string)
    ensures AllCaptured(s) <==> IsTight(s)
    ensures IsTight(s) ==> forall x :: x in LexicalSpreads(s) ==> x in SpreadNames(s)
  {
    forall p, gap, name, tail | IsSpread(p, gap, name, tail) && s == Spelled(p, gap, name, tail)
      ensures CapturedAt(s, |p|, name) <==>
              gap == "" && (tail == "" || !IsNameChar(tail[0])) && !Across(Matches(s, 0), |p|)
    {
      SpreadIsCaptured(p, gap, name, tail);
    }
    hide Spelled, Across, IsNameChar, Matches;
    if IsTight(s) {
      forall x | x in LexicalSpreads(s)
        ensures x in SpreadNames(s)
      {
        LexicalSpreadsExactly(s, x);
        CapturesOfMatches(s, 0, x);
        assert s[0..] == s;
      }
    }
  }

  // ----- Documents -----

  /** The text does not end in a block string, nor between dots and the name behind them. */
  predicate IsComplete(text: string) { Next(Lexed(CODE, text), '\n') == CODE }

  lemma LexicalSplit(a: string, b: string)
    requires IsComplete(a)
    ensures LexicalSpreads(a + "\n" + b) == LexicalSpreads(a) + LexicalSpreads(b)
  {
    hide Next, Lexed, NamesIn, Ended;
    var m := Lexed(CODE, a);
    LexedConcat(CODE, a + "\n", b);
    LexedConcat(CODE, a, "\n");
    LexedOne(m, '\n');
    assert "\n" == ['\n'];
    ConcatAssoc(NamesIn(CODE, a) + Ended(m), NamesIn(CODE, b), Ended(Lexed(CODE, b)));
  }

  /** The spreads of a joined document are those of its parts. */
  lemma {:induction false} LexicalSpreadsOfJoin(parts: seq<string>, name: string)
    requires parts != [] && forall i :: 0 <= i < |parts| ==> IsComplete(parts[i])
    ensures name in LexicalSpreads(Join(parts)) <==> exists i :: 0 <= i < |parts| && name in LexicalSpreads(parts[i])
  {
    hide LexicalSpreads, IsComplete;
    if |parts| > 1 {
      LexicalSpreadsOfJoin(parts[1..], name);
      LexicalSplit(parts[0], Join(parts[1..]));
      if i :| 0 <= i < |parts| && name in LexicalSpreads(parts[i]) {
        if i > 0 {
          assert parts[1..][i - 1] == parts[i];
        }
      }
    }
  }

  /** Every known fragment spread anywhere in the document is defined in it. */
  ghost predicate IsSelfContained(defs: Definitions, query: string, names: seq<string>)
    requires forall n :: n in names ==> n in defs
  {
    forall x :: x in LexicalSpreads(Join([query] + Texts(defs, names))) && x in defs ==> x in names
  }

  /** A name the text spreads, or the pattern takes for a spread. */
  predicate Names(text: string, name: string) { name in SpreadNames(text) || name in LexicalSpreads(text) }

  /** As `Chain`, but over the spreads a reader finds as well. */
  predicate ReadersChain(defs: Definitions, query: string, chain: seq<string>)
    decreases |chain|
  {
    chain != [] && chain[|chain| - 1] in defs &&
    if |chain| == 1 then Names(query, chain[0])
    else
      var front := chain[..|chain| - 1];
      ReadersChain(defs, query, front) && Names(defs[front[|front| - 1]], chain[|chain| - 1])
  }

  /** A known fragment the document needs, as a GraphQL reader reads it. */
  ghost predicate Needed(defs: Definitions, query: string, name: string) {
    exists chain: seq<string> :: ReadersChain(defs, query, chain) && chain[|chain| - 1] == name
  }

  lemma NeededFirst(defs: Definitions, query: string, name: string)
    requires name in defs && Names(query, name)
    ensures Needed(defs, query, name)
  {
    assert ReadersChain(defs, query, [name]);
  }

  lemma NeededNext(defs: Definitions, query: string, owner: string, name: string)
    requires Needed(defs, query, owner) && owner in defs && name in defs && Names(defs[owner], name)
    ensures Needed(defs, query, name)
  {
    hide Names;
    var chain :| ReadersChain(defs, query, chain) && chain[|chain| - 1] == owner;
    var longer := chain + [name];
    assert longer[..|longer| - 1] == chain;
    assert ReadersChain(defs, query, longer);
  }

  lemma {:induction false} ReachableIsNeeded(defs: Definitions, query: string, chain: seq<string>)
    requires Chain(defs, query, chain)
    ensures ReadersChain(defs, query, chain)
    decreases |chain|
  {
    hide SpreadNames, LexicalSpreads;
    if |chain| > 1 {
      ReachableIsNeeded(defs, query, chain[..|chain| - 1]);
    }
  }

  /** Every text of the document spreads only what is defined. */
  ghost predicate PartsAreSelfContained(defs: Definitions, query: string, names: seq<string>)
    requires forall n :: n in names ==> n in defs
  {
    (forall x :: x in LexicalSpreads(query) && x in defs ==> x in names) &&
    forall n :: n in names ==> forall x :: x in LexicalSpreads(defs[n]) && x in defs ==> x in names
  }

  lemma SelfContainedByParts(defs: Definitions, query: string, names: seq<string>)
    requires forall n :: n in names ==> n in defs && IsComplete(defs[n])
    requires IsComplete(query)
    ensures IsSelfContained(defs, query, names) <==> PartsAreSelfContained(defs, query, names)
  {
    hide LexicalSpreads, IsComplete;
    var parts := [query] + Texts(defs, names);
    assert forall i :: 1 <= i < |parts| ==> names[i - 1] in names && parts[i] == defs[names[i - 1]];
    forall x
      ensures x in LexicalSpreads(Join(parts)) <==> exists i :: 0 <= i < |parts| && x in LexicalSpreads(parts[i])
    {
      LexicalSpreadsOfJoin(parts, x);
    }
    if IsSelfContained(defs, query, names) {
      assert parts[0] == query;
      forall n | n in names
        ensures forall x :: x in LexicalSpreads(defs[n]) && x in defs ==> x in names
      {
        var i :| 0 <= i < |names| && names[i] == n;
        assert parts[i + 1] == defs[n];
      }
    }
  }

  lemma {:induction false} NeededIsDefined(defs: Definitions, query: string, names: seq<string>, chain: seq<string>)
    requires IsResolution(defs, query, names) && PartsAreSelfContained(defs, query, names)
    requires ReadersChain(defs, query, chain)
    ensures chain[|chain| - 1] in names
    decreases |chain|
  {
    hide LexicalSpreads, SpreadNames;
    var name := chain[|chain| - 1];
    if |chain| == 1 {
      if name in SpreadNames(query) {
        assert Chain(defs, query, [name]);
      }
    } else {
      var front := chain[..|chain| - 1];
      NeededIsDefined(defs, query, names, front);
      var owner := front[|front| - 1];
      if name in SpreadNames(defs[owner]) {
        ReachableNext(defs, query, owner, name);
      }
    }
  }

  /** The assembled document is self-contained, as a GraphQL reader reads it, if and only if every fragment that reader
      needs is reached by the pattern. */
  lemma DocumentIsSelfContained(defs: Definitions, query: string, names: seq<string>)
    requires IsResolution(defs, query, names)
    requires IsComplete(query) && forall n :: n in names ==> IsComplete(defs[n])
    ensures IsSelfContained(defs, query, names) <==>
            forall x :: Needed(defs, query, x) ==> Reachable(defs, query, x)
  {
    hide LexicalSpreads, SpreadNames, IsComplete, IsSelfContained;
    SelfContainedByParts(defs, query, names);
    if PartsAreSelfContained(defs, query, names) {
      forall x | Needed(defs, query, x)
        ensures Reachable(defs, query, x)
      {
        var chain :| ReadersChain(defs, query, chain) && chain[|chain| - 1] == x;
        NeededIsDefined(defs, query, names, chain);
      }
    }
    if forall x :: Needed(defs, query, x) ==> Reachable(defs, query, x) {
      forall x | x in LexicalSpreads(query) && x in defs
        ensures x in names
      {
        NeededFirst(defs, query, x);
      }
      forall n, x | n in names && x in LexicalSpreads(defs[n]) && x in defs
        ensures x in names
      {
        var chain :| Chain(defs, query, chain) && chain[|chain| - 1] == n;
        ReachableIsNeeded(defs, query, chain);
        NeededNext(defs, query, n, x);
      }
    }
  }

  /** In particular, a document of tight texts is self-contained. */
  lemma TightDocumentIsSelfContained(defs: Definitions, query: string, names: seq<string>)
    requires IsResolution(defs, query, names)
    requires IsComplete(query) && IsTight(query)
    requires forall n :: n in names ==> IsComplete(defs[n]) && IsTight(defs[n])
    ensures IsSelfContained(defs, query, names)
  {
    hide LexicalSpreads, SpreadNames, IsComplete, IsSelfContained, IsTight;
    SelfContainedByParts(defs, query, names);
    TightTextsExactly(query);
    forall x | x in SpreadNames(query) && x in defs
      ensures x in names
    {
      assert Chain(defs, query, [x]);
    }
    forall n, x | n in names && x in LexicalSpreads(defs[n]) && x in defs
      ensures x in names
    {
      TightTextsExactly(defs[n]);
      ReachableNext(defs, query, n, x);
    }
  }

  lemma {:induction false} PlainStays(w: string)
    requires forall i :: 0 <= i < |w| ==> w[i] !in {'.', '"', '#'}
    ensures Lexed(CODE, w) == CODE && NamesIn(CODE, w) == []
  {
    if w != "" {
      PlainStays(w[1..]);
    }
  }

  /** What the registry writes around a complete body is complete and adds no spread. */
  lemma RegisteredTextIsComplete(name: string, onType: string, body: string)
    requires IsName(name) && IsName(onType) && IsComplete(body)
    ensures var text := FragmentText(name, onType, body);
            IsComplete(text) && LexicalSpreads(text) == LexicalSpreads(body)
  {
    hide Lexed, NamesIn, Next, IsName;
    NamesArePlain(name);
    NamesArePlain(onType);
    var head := "fragment " + name + " on " + onType + " {\n";
    PlainStays(head);
    PlainStays("}");
    LexedConcat(CODE, head, body + "\n" + "}");
    LexicalSplit(body, "}");
    LexedConcat(CODE, body + "\n", "}");
    LexedConcat(CODE, body, "\n");
    LexedOne(Lexed(CODE, body), '\n');
    assert "\n" == ['\n'];
    assert FragmentText(name, onType, body) == head + (body + "\n" + "}");
    NewLineInCode();
  }

  lemma NewLineInCode()
    ensures Next(CODE, '\n') == CODE
  {
  }

  lemma NamesArePlain(name: string)
    requires IsName(name)
    ensures forall i :: 0 <= i < |name| ==> name[i] !in {'.', '"', '#'}
  {
  }

  // ----- Spreads that are missed -----

  lemma DotsAreRead(p: string)
    requires Lexed(CODE, p) == CODE || Lexed(CODE, p).Naming?
    ensures Lexed(CODE, p + "...") == Gap
  {
    var m := Lexed(CODE, p);
    LexedConcat(CODE, p, "...");
    assert "..."[1..] == ".." && ".."[1..] == "." && "."[1..] == "";
    assert Lexed(Code(2), ".") == Lexed(Gap, "") == Gap;
    assert Lexed(Code(1), "..") == Lexed(Code(2), ".");
    assert Lexed(m, "...") == Lexed(Code(1), "..");
  }

  /** Two spreads written without a separator are taken for one: neither fragment is appended. */
  lemma SwallowedSpreadIsMissed(defs: Definitions, names: seq<string>)
    requires "A" in defs && "A...B" !in defs && IsResolution(defs, "...A...B }", names)
    ensures SpreadNames("...A...B }") == ["A...B"] && "A" in LexicalSpreads("...A...B }") && "B" in LexicalSpreads("...A...B }")
    ensures names == [] && !IsSelfContained(defs, "...A...B }", names)
  {
    var q := "...A...B }";
    CapturedTogether();
    ReadApart();
    hide *;
    NothingReached(defs, q, names);
    QueryAlone(defs, q, "A");
  }

  lemma QueryAlone(defs: Definitions, query: string, x: string)
    requires x in LexicalSpreads(query) && x in defs
    ensures !IsSelfContained(defs, query, [])
  {
    hide LexicalSpreads;
    assert [query] + Texts(defs, []) == [query] && Join([query]) == query;
  }

  lemma ReadApart()
    ensures "A" in LexicalSpreads("...A...B }") && "B" in LexicalSpreads("...A...B }")
  {
    hide LexicalSpreads, Lexed;
    assert IsName("A") && IsName("B") && GapState("") == Some(false);
    TwoInARow("A", "B", " }");
    assert Spelled("", "", "A", "..." + ("B" + " }")) == "...A...B }";
  }

  lemma TwoInARow(a: string, b: string, tail: string)
    requires IsName(a) && IsName(b) && a != "on" && b != "on" && IsGap("")
    requires tail == "" || !IsNameContinue(tail[0])
    ensures var s := Spelled("", "", a, "..." + (b + tail)); a in LexicalSpreads(s) && b in LexicalSpreads(s)
  {
    DotsAreRead("");
    assert "" + "..." == "...";
    NameIsRead(a);
    LexedConcat(CODE, "...", a);
    DotsAreRead("..." + a);
    hide LexicalSpreads, Lexed, IsName, IsGap;
    SpreadIsRead("", "", a, "..." + (b + tail));
    SpreadIsRead("..." + a, "", b, tail);
    SameText(a, b, tail);
  }

  lemma SameText(a: string, b: string, tail: string)
    ensures Spelled("", "", a, "..." + (b + tail)) == Spelled("..." + a, "", b, tail)
  {
    var u, v := "..." + (b + tail), "" + (b + tail);
    assert v == b + tail;
    assert "" + (a + u) == a + u && "" + "..." == "...";
    ConcatAssoc("...", a, u);
    ConcatAssoc("..." + a, "...", b + tail);
  }

  lemma CapturedTogether()
    ensures SpreadNames("...A...B }") == ["A...B"]
  {
    var q := "...A...B }";
    assert q[..3] == "..." && q[3..] == "A...B" + " }";
    NameRunOf("A...B", " }");
    assert q[3 + 5..] == " }" && q[3..3 + 5] == "A...B";
    NoDots(" }");
  }

  lemma NothingReached(defs: Definitions, query: string, names: seq<string>)
    requires IsResolution(defs, query, names) && forall n :: n in SpreadNames(query) ==> n !in defs
    ensures names == []
  {
    hide SpreadNames, Chain;
    forall chain
      ensures !Chain(defs, query, chain)
    {
      NoChain(defs, query, chain);
    }
    if names != [] {
      HasMember(names);
    }
  }

  lemma HasMember(names: seq<string>)
    requires names != []
    ensures exists n :: n in names
  {
    assert names[0] in names;
  }

  lemma {:induction false} NoChain(defs: Definitions, query: string, chain: seq<string>)
    requires forall n :: n in SpreadNames(query) ==> n !in defs
    ensures !Chain(defs, query, chain)
    decreases |chain|
  {
    hide SpreadNames;
    if |chain| > 1 {
      NoChain(defs, query, chain[..|chain| - 1]);
    }
  }
}
