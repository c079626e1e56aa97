/** Key-word splitting of the logger (packages/service/logger/src/index.ts:94-118). */
module SplitWords {
  import opened Prelude
  import opened Digits

  predicate IsLower(c: char) { 'a' <= c <= 'z' }

  predicate IsUpper(c: char) { 'A' <= c <= 'Z' }

  predicate IsLetter(c: char) { IsLower(c) || IsUpper(c) }

  predicate LowerOrDigit(c: char) { IsLower(c) || IsDigit(c) }

  function ToLower(c: char): char { if IsUpper(c) then (c as int + 32) as char else c }

  function ToUpper(c: char): char { if IsLower(c) then (c as int - 32) as char else c }

  function LowerCase(s: string): string {
    if s == "" then "" else [ToLower(s[0])] + LowerCase(s[1..])
  }

  // ----- The two regular expressions, the split, the filter and the map -----

  /** `replace(/([a-z0-9])([A-Z])/g, "$1 $2")`: a match consumes both characters. */
  function BreakLowerUpper(s: string): string {
    if |s| < 2 then s
    else if LowerOrDigit(s[0]) && IsUpper(s[1]) then [s[0], ' ', s[1]] + BreakLowerUpper(s[2..])
    else [s[0]] + BreakLowerUpper(s[1..])
  }

  /** How much a greedy `[A-Z]+` takes at the start of `s`. */
  function UpperRun(s: string): (n: nat)
    ensures n <= |s| && forall i :: 0 <= i < n ==> IsUpper(s[i])
    ensures n < |s| ==> !IsUpper(s[n])
  {
    if s != "" && IsUpper(s[0]) then
      var n := 1 + UpperRun(s[1..]);
      assert forall i :: 0 < i < n ==> s[i] == s[1..][i - 1];
      n
    else 0
  }

  /** Backtracking from `m` letters down to one: the longest first group that lets `[A-Z][a-z]` follow; 0 if none. */
  function Backtrack(s: string, m: nat): (k: nat)
    requires m <= |s|
    ensures k <= m && (k > 0 ==> k + 2 <= |s| && IsUpper(s[k]) && IsLower(s[k + 1]))
    ensures forall j :: k < j <= m && j + 2 <= |s| ==> !(IsUpper(s[j]) && IsLower(s[j + 1]))
  {
    if m == 0 then 0
    else if m + 2 <= |s| && IsUpper(s[m]) && IsLower(s[m + 1]) then m
    else Backtrack(s, m - 1)
  }

  /** `replace(/([A-Z]+)([A-Z][a-z])/g, "$1 $2")`. */
  function BreakAcronym(s: string): string {
    if s == "" then ""
    else
      var k := Backtrack(s, UpperRun(s));
      if k > 0 then s[..k] + " " + s[k..k + 2] + BreakAcronym(s[k + 2..])
      else [s[0]] + BreakAcronym(s[1..])
  }

  function LetterRun(s: string): (n: nat)
    ensures n <= |s| && forall i :: 0 <= i < n ==> IsLetter(s[i])
    ensures n < |s| ==> !IsLetter(s[n])
  {
    if s != "" && IsLetter(s[0]) then
      var n := 1 + LetterRun(s[1..]);
      assert forall i :: 0 < i < n ==> s[i] == s[1..][i - 1];
      n
    else 0
  }

  function OtherRun(s: string): (n: nat)
    ensures n <= |s| && forall i :: 0 <= i < n ==> !IsLetter(s[i])
    ensures s != "" && !IsLetter(s[0]) ==> n > 0
  {
    if s != "" && !IsLetter(s[0]) then
      var n := 1 + OtherRun(s[1..]);
      assert forall i :: 0 < i < n ==> s[i] == s[1..][i - 1];
      n
    else 0
  }

  /** `split(/[^a-zA-Z]+/)`. */
  function SplitOthers(s: string): seq<string>
    decreases |s|
  {
    var n := LetterRun(s);
    if n == |s| then [s] else [s[..n]] + SplitOthers(s[n + OtherRun(s[n..])..])
  }

  /** `filter((w) => w.length > 0)`, then `map((w) => w.toLowerCase())`. */
  function KeepWords(ws: seq<string>): seq<string> {
    if ws == [] then []
    else (if ws[0] == "" then [] else [LowerCase(ws[0])]) + KeepWords(ws[1..])
  }

  function SplitName(name: string): seq<string> {
    KeepWords(SplitOthers(BreakAcronym(BreakLowerUpper(name))))
  }

  predicate IsRedactKey(name: string, keys: set<string>) {
    LowerCase(name) in keys || exists w :: w in SplitName(name) && w in keys
  }

  // ----- The specification: one scan from left to right -----

  /** A word starts at this uppercase letter. */
  predicate Boundary(prev: char, s: string) {
    s != "" && IsUpper(s[0]) && (LowerOrDigit(prev) || (IsUpper(prev) && |s| >= 2 && IsLower(s[1])))
  }

  function Flush(word: string): seq<string> { if word == "" then [] else [word] }

  function Scan(prev: char, word: string, s: string): seq<string>
    decreases |s|
  {
    if s == "" then Flush(word)
    else if !IsLetter(s[0]) then Flush(word) + Scan(s[0], "", s[1..])
    else if Boundary(prev, s) then Flush(word) + Scan(s[0], [ToLower(s[0])], s[1..])
    else Scan(s[0], word + [ToLower(s[0])], s[1..])
  }

  // ----- The rewriting equals the scan -----

  function Gap(b: bool): string { if b then " " else "" }

  predicate Break1(prev: char, s: string) { s != "" && LowerOrDigit(prev) && IsUpper(s[0]) }

  predicate Break2(prev: char, s: string) { |s| >= 2 && IsUpper(prev) && IsUpper(s[0]) && IsLower(s[1]) }

  /** A space before every place where the first pass breaks, the second pass breaks, a word starts. */
  function Spaced1(prev: char, s: string): string
    decreases |s|
  {
    if s == "" then "" else Gap(Break1(prev, s)) + ([s[0]] + Spaced1(s[0], s[1..]))
  }

  function Spaced2(prev: char, s: string): string
    decreases |s|
  {
    if s == "" then "" else Gap(Break2(prev, s)) + ([s[0]] + Spaced2(s[0], s[1..]))
  }

  function Spaced(prev: char, s: string): string
    decreases |s|
  {
    if s == "" then "" else Gap(Boundary(prev, s)) + ([s[0]] + Spaced(s[0], s[1..]))
  }

  lemma Spaced2Cons(prev: char, c: char, rest: string)
    ensures Spaced2(prev, [c] + rest) == Gap(Break2(prev, [c] + rest)) + ([c] + Spaced2(c, rest))
  {
    assert ([c] + rest)[1..] == rest;
  }

  lemma NoGap(t: string)
    ensures Gap(false) + t == t
  {
  }

  lemma ThreeInFront(a: char, b: char, c: char, t: string)
    ensures [a] + ([b] + ([c] + t)) == [a, b, c] + t
  {
  }

  lemma {:induction false} FirstPass(prev: char, s: string)
    requires !Break1(prev, s)
    ensures BreakLowerUpper(s) == Spaced1(prev, s)
    decreases |s|
  {
    if s != "" {
      NoGap([s[0]] + Spaced1(s[0], s[1..]));
      if |s| >= 2 && Break1(s[0], s[1..]) {
        FirstPass(s[1], s[2..]);
        assert s[1..][1..] == s[2..];
        ThreeInFront(s[0], ' ', s[1], Spaced1(s[1], s[2..]));
      } else {
        FirstPass(s[0], s[1..]);
        assert |s| == 1 ==> [s[0]] + "" == s;
      }
    }
  }

  /** Across a run of uppercase letters the second pass only breaks before its last letter. */
  lemma {:induction false} AcrossRun(prev: char, s: string, k: nat)
    requires IsUpper(prev) && k + 2 <= |s| && IsUpper(s[k]) && IsLower(s[k + 1])
    requires forall i :: 0 <= i < k ==> IsUpper(s[i])
    ensures Spaced2(prev, s) == s[..k] + (" " + (s[k..k + 2] + Spaced2(s[k + 1], s[k + 2..])))
    decreases k
  {
    var t := s[1..];
    assert Spaced2(prev, s) == Gap(Break2(prev, s)) + ([s[0]] + Spaced2(s[0], t));
    if k == 0 {
      assert t[1..] == s[2..];
      assert Spaced2(s[0], t) == Gap(false) + ([s[1]] + Spaced2(s[1], s[2..]));
      hide Spaced2;
      NoGap([s[1]] + Spaced2(s[1], s[2..]));
      assert s[0..2] == [s[0]] + [s[1]] && s[..0] == "";
    } else {
      AcrossRun(s[0], t, k - 1);
      Shifted(s, k);
      hide Spaced2;
      NoGap([s[0]] + Spaced2(s[0], t));
      ConcatAssoc([s[0]], s[1..k], " " + (s[k..k + 2] + Spaced2(s[k + 1], s[k + 2..])));
    }
  }

  lemma Shifted(s: string, k: nat)
    requires 0 < k && k + 2 <= |s|
    ensures s[1..][..k - 1] == s[1..k] && s[1..][k - 1..k + 1] == s[k..k + 2] && s[1..][k + 1..] == s[k + 2..]
    ensures s[..k] == [s[0]] + s[1..k]
  {
  }

  /** Where no match starts the pass moves on by one, and there is no break behind that letter either. */
  lemma NoMatch(s: string)
    requires s != "" && Backtrack(s, UpperRun(s)) == 0
    ensures IsUpper(s[0]) && |s| >= 3 ==> !(IsUpper(s[1]) && IsLower(s[2]))
  {
    if IsUpper(s[0]) && |s| >= 3 && IsUpper(s[1]) {
      assert UpperRun(s) >= 1;
    }
  }

  /** A match takes the whole run but one letter. */
  lemma MatchIsRun(s: string)
    requires s != "" && Backtrack(s, UpperRun(s)) > 0
    ensures var k := Backtrack(s, UpperRun(s));
            UpperRun(s) == k + 1 && IsUpper(s[0]) && forall i :: 0 <= i < k ==> IsUpper(s[i])
  {
  }

  lemma {:induction false} SecondPass(prev: char, s: string)
    requires !Break2(prev, s)
    ensures BreakAcronym(s) == Spaced2(prev, s)
    decreases |s|
  {
    if s != "" {
      var k := Backtrack(s, UpperRun(s));
      if k > 0 {
        MatchIsRun(s);
        SecondPass(s[k + 1], s[k + 2..]);
        MatchedRun(prev, s, k);
      } else {
        NoMatch(s);
        SecondPass(s[0], s[1..]);
        NoGap([s[0]] + Spaced2(s[0], s[1..]));
      }
    }
  }

  lemma MatchedRun(prev: char, s: string, k: nat)
    requires 0 < k && k + 2 <= |s| && IsUpper(s[k]) && IsLower(s[k + 1])
    requires forall i :: 0 <= i < k ==> IsUpper(s[i])
    requires !Break2(prev, s)
    ensures Spaced2(prev, s) == s[..k] + " " + s[k..k + 2] + Spaced2(s[k + 1], s[k + 2..])
  {
    var t := s[1..];
    AcrossRun(s[0], t, k - 1);
    Shifted(s, k);
    assert Spaced2(prev, s) == Gap(false) + ([s[0]] + Spaced2(s[0], t));
    NoGap([s[0]] + Spaced2(s[0], t));
    var a, b := s[k..k + 2], Spaced2(s[k + 1], s[k + 2..]);
    hide *;
    ConcatAssoc([s[0]], s[1..k], " " + (a + b));
    ConcatAssoc(s[..k], " ", a + b);
    ConcatAssoc(s[..k] + " ", a, b);
  }

  lemma {:induction false} BothPasses(prev: char, s: string)
    ensures Spaced2(prev, Spaced1(prev, s)) == Spaced(prev, s)
    decreases |s|
  {
    if s != "" {
      BothPasses(s[0], s[1..]);
      var rest := Spaced1(s[0], s[1..]);
      Spaced1Start(s[0], s[1..]);
      var tail := [s[0]] + rest;
      assert Spaced1(prev, s) == Gap(Break1(prev, s)) + tail;
      assert Spaced(prev, s) == Gap(Boundary(prev, s)) + ([s[0]] + Spaced2(s[0], rest));
      Spaced2Cons(' ', s[0], rest);
      Spaced2Cons(prev, s[0], rest);
      Spaced2Cons(prev, ' ', tail);
      hide Spaced1, Spaced2, Spaced;
      NoGap(tail);
      NoGap([s[0]] + Spaced2(s[0], rest));
      NoGap([' '] + Spaced2(' ', tail));
      assert Gap(true) + tail == [' '] + tail;
      if !Break1(prev, s) {
        assert Break2(prev, tail) == Boundary(prev, s);
      }
    }
  }

  lemma Spaced1Start(prev: char, s: string)
    ensures var t := Spaced1(prev, s);
            if s == "" then t == "" else t != "" && t[0] == if Break1(prev, s) then ' ' else s[0]
  {
  }

  /** The words of a spaced text, read letter by letter behind a word already begun. */
  function Pieces(word: string, t: string): seq<string>
    decreases |t|
  {
    if t == "" then Flush(word)
    else if !IsLetter(t[0]) then Flush(word) + Pieces("", t[1..])
    else Pieces(word + [ToLower(t[0])], t[1..])
  }

  lemma {:induction false} PiecesOfLetters(word: string, t: string, n: nat)
    requires n <= |t| && forall i :: 0 <= i < n ==> IsLetter(t[i])
    ensures Pieces(word, t) == Pieces(word + LowerCase(t[..n]), t[n..])
    decreases n
  {
    if n == 0 {
      assert word + LowerCase(t[..0]) == word && t[0..] == t;
    } else {
      PiecesOfLetters(word + [ToLower(t[0])], t[1..], n - 1);
      assert t[1..][..n - 1] == t[..n][1..] && t[1..][n - 1..] == t[n..];
      assert word + [ToLower(t[0])] + LowerCase(t[..n][1..]) == word + LowerCase(t[..n]);
    }
  }

  lemma {:induction false} PiecesOfOthers(t: string, n: nat)
    requires n <= |t| && forall i :: 0 <= i < n ==> !IsLetter(t[i])
    ensures Pieces("", t) == Pieces("", t[n..])
    decreases n
  {
    if n > 0 {
      PiecesOfOthers(t[1..], n - 1);
      assert t[1..][n - 1..] == t[n..];
    } else {
      assert t[0..] == t;
    }
  }

  lemma {:induction false} LowerCaseLength(s: string)
    ensures |LowerCase(s)| == |s|
  {
    if s != "" {
      LowerCaseLength(s[1..]);
    }
  }

  lemma {:induction false} SplitIsPieces(t: string)
    ensures KeepWords(SplitOthers(t)) == Pieces("", t)
    decreases |t|
  {
    var n := LetterRun(t);
    PiecesOfLetters("", t, n);
    assert "" + LowerCase(t[..n]) == LowerCase(t[..n]);
    LowerCaseLength(t[..n]);
    if n == |t| {
      assert t[..n] == t && t[n..] == "";
      assert KeepWords([t]) == (if t == "" then [] else [LowerCase(t)]) + KeepWords([]);
    } else {
      var m := OtherRun(t[n..]);
      var rest := t[n + m..];
      assert t[n..][m..] == rest && t[n..][1..][m - 1..] == rest;
      PiecesOfOthers(t[n..][1..], m - 1);
      SplitIsPieces(rest);
      assert SplitOthers(t)[1..] == SplitOthers(rest);
    }
  }

  lemma PiecesCons(word: string, c: char, t: string)
    ensures Pieces(word, [c] + t) ==
            if IsLetter(c) then Pieces(word + [ToLower(c)], t) else Flush(word) + Pieces("", t)
  {
    assert ([c] + t)[1..] == t;
  }

  lemma {:induction false} PiecesIsScan(prev: char, word: string, s: string)
    ensures Pieces(word, Spaced(prev, s)) == Scan(prev, word, s)
    decreases |s|
  {
    if s != "" {
      var c, rest := s[0], Spaced(s[0], s[1..]);
      assert Spaced(prev, s) == Gap(Boundary(prev, s)) + ([c] + rest);
      var begun := if !IsLetter(c) then "" else if Boundary(prev, s) then [ToLower(c)] else word + [ToLower(c)];
      PiecesIsScan(c, begun, s[1..]);
      PiecesCons(word, c, rest);
      PiecesCons("", c, rest);
      PiecesCons(word, ' ', [c] + rest);
      hide Pieces, Spaced;
      NoGap([c] + rest);
      assert Gap(true) + ([c] + rest) == [' '] + ([c] + rest);
      assert "" + [ToLower(c)] == [ToLower(c)];
    }
  }

  /** The two rewriting passes, the split, the filter and the map are one scan from left to right. */
  lemma SplitIsScan(name: string)
    ensures SplitName(name) == Scan(' ', "", name)
  {
    FirstPass(' ', name);
    SecondPass(' ', BreakLowerUpper(name));
    BothPasses(' ', name);
    SplitIsPieces(Spaced(' ', name));
    PiecesIsScan(' ', "", name);
  }

  // ----- What the words are -----

  /** The ASCII letters of a text, lower-cased. */
  function LettersOf(s: string): string {
    if s == "" then "" else (if IsLetter(s[0]) then [ToLower(s[0])] else "") + LettersOf(s[1..])
  }

  lemma {:induction false} FlattenFlush(word: string, ws: seq<string>)
    ensures Flatten(Flush(word) + ws) == word + Flatten(ws)
  {
    if word != "" {
      assert ([word] + ws)[1..] == ws;
    } else {
      assert Flush(word) + ws == ws;
    }
  }

  lemma {:induction false} ScanLosesNothing(prev: char, word: string, s: string)
    ensures Flatten(Scan(prev, word, s)) == word + LettersOf(s)
    decreases |s|
  {
    if s == "" {
      FlattenFlush(word, []);
      assert Flush(word) + [] == Flush(word);
    } else if !IsLetter(s[0]) {
      ScanLosesNothing(s[0], "", s[1..]);
      FlattenFlush(word, Scan(s[0], "", s[1..]));
    } else if Boundary(prev, s) {
      ScanLosesNothing(s[0], [ToLower(s[0])], s[1..]);
      FlattenFlush(word, Scan(s[0], [ToLower(s[0])], s[1..]));
    } else {
      ScanLosesNothing(s[0], word + [ToLower(s[0])], s[1..]);
    }
  }

  /** Put together again, the words are exactly the letters of the name. */
  lemma WordsAreTheLetters(name: string)
    ensures Flatten(SplitName(name)) == LettersOf(name)
  {
    SplitIsScan(name);
    ScanLosesNothing(' ', "", name);
  }

  // ----- Which compound names a word is found in -----

  /** A lower-case word, as key lists and compound names are made of. */
  predicate IsWord(w: string) { w != "" && forall i :: 0 <= i < |w| ==> IsLower(w[i]) }

  predicate AreWords(ws: seq<string>) { forall i :: 0 <= i < |ws| ==> IsWord(ws[i]) }

  function Capitalize(w: string): string
    requires IsWord(w)
  {
    [ToUpper(w[0])] + w[1..]
  }

  function CamelTail(ws: seq<string>): string
    requires AreWords(ws)
  {
    if ws == [] then "" else Capitalize(ws[0]) + CamelTail(ws[1..])
  }

  function CamelCase(ws: seq<string>): string
    requires AreWords(ws) && ws != []
  {
    ws[0] + CamelTail(ws[1..])
  }

  /** Words joined by one character that is not a letter: snake_case, kebab-case. */
  function Joined(ws: seq<string>, separator: char): string
    requires AreWords(ws)
  {
    if ws == [] then "" else if |ws| == 1 then ws[0] else ws[0] + [separator] + Joined(ws[1..], separator)
  }

  /** What the splitter makes of camelCase: a one-letter word sticks to a one-letter word before it. */
  function Glued(afterSingle: bool, word: string, ws: seq<string>): seq<string>
    decreases |ws|
  {
    if ws == [] then [word]
    else if afterSingle && |ws[0]| == 1 then Glued(true, word + ws[0], ws[1..])
    else [word] + Glued(|ws[0]| == 1, ws[0], ws[1..])
  }

  predicate NoTwoSingles(afterSingle: bool, ws: seq<string>)
    decreases |ws|
  {
    ws == [] || (!(afterSingle && |ws[0]| == 1) && NoTwoSingles(|ws[0]| == 1, ws[1..]))
  }

  lemma {:induction false} ScanLowers(prev: char, word: string, w: string, s: string)
    requires w != "" && forall i :: 0 <= i < |w| ==> IsLower(w[i])
    ensures Scan(prev, word, w + s) == Scan(w[|w| - 1], word + w, s)
    decreases |w|
  {
    var t := w + s;
    assert t[1..] == w[1..] + s;
    if |w| == 1 {
      assert w[1..] + s == s && [ToLower(w[0])] == w;
    } else {
      ScanLowers(w[0], word + [w[0]], w[1..], s);
      assert word + [w[0]] + w[1..] == word + w;
    }
  }

  /** One capitalised word behind a word already begun. */
  lemma ScanCapital(prev: char, word: string, w: string, s: string)
    requires IsLower(prev) || IsUpper(prev)
    requires word != "" && IsWord(w) && (s == "" || IsUpper(s[0]))
    ensures var last := if |w| == 1 then ToUpper(w[0]) else w[|w| - 1];
            Scan(prev, word, Capitalize(w) + s) ==
            if IsUpper(prev) && |w| == 1 then Scan(last, word + w, s) else [word] + Scan(last, w, s)
  {
    var t := Capitalize(w) + s;
    var c := ToUpper(w[0]);
    assert t[0] == c && t[1..] == w[1..] + s && ToLower(c) == w[0];
    if |w| == 1 {
      assert w == [w[0]];
      assert t[1..] == s;
    } else {
      assert t[1] == w[1];
      ScanLowers(c, [w[0]], w[1..], s);
      assert [w[0]] + w[1..] == w;
    }
  }

  lemma CamelTailStart(ws: seq<string>)
    requires AreWords(ws)
    ensures CamelTail(ws) == "" || IsUpper(CamelTail(ws)[0])
  {
  }

  lemma {:induction false} ScanCamelTail(prev: char, word: string, ws: seq<string>)
    requires (IsLower(prev) || IsUpper(prev)) && word != "" && AreWords(ws)
    ensures Scan(prev, word, CamelTail(ws)) == Glued(IsUpper(prev), word, ws)
    decreases |ws|
  {
    if ws != [] {
      var w := ws[0];
      var last := if |w| == 1 then ToUpper(w[0]) else w[|w| - 1];
      CamelTailStart(ws[1..]);
      ScanCapital(prev, word, w, CamelTail(ws[1..]));
      ScanCamelTail(last, if IsUpper(prev) && |w| == 1 then word + w else w, ws[1..]);
    }
  }

  /** The exact words of a camelCase name. */
  lemma SplitOfCamelCase(ws: seq<string>)
    requires AreWords(ws) && ws != []
    ensures SplitName(CamelCase(ws)) == Glued(false, ws[0], ws[1..])
  {
    SplitIsScan(CamelCase(ws));
    ScanLowers(' ', "", ws[0], CamelTail(ws[1..]));
    assert "" + ws[0] == ws[0];
    ScanCamelTail(ws[0][|ws[0]| - 1], ws[0], ws[1..]);
  }

  lemma {:induction false} GluedIsShorter(afterSingle: bool, word: string, ws: seq<string>)
    ensures NoTwoSingles(afterSingle, ws) ==> Glued(afterSingle, word, ws) == [word] + ws
    ensures !NoTwoSingles(afterSingle, ws) ==> |Glued(afterSingle, word, ws)| <= |ws|
    ensures |Glued(afterSingle, word, ws)| <= |ws| + 1
    decreases |ws|
  {
    if ws != [] {
      if afterSingle && |ws[0]| == 1 {
        GluedIsShorter(true, word + ws[0], ws[1..]);
      } else {
        GluedIsShorter(|ws[0]| == 1, ws[0], ws[1..]);
        assert [word] + ([ws[0]] + ws[1..]) == [word] + ws;
      }
    }
  }

  /** camelCase is split back into its words exactly when, after the first word, no two one-letter words meet. */
  lemma CamelCaseRoundTrip(ws: seq<string>)
    requires AreWords(ws) && ws != []
    ensures SplitName(CamelCase(ws)) == ws <==> NoTwoSingles(false, ws[1..])
  {
    SplitOfCamelCase(ws);
    GluedIsShorter(false, ws[0], ws[1..]);
    assert [ws[0]] + ws[1..] == ws;
  }

  lemma {:induction false} ScanJoined(prev: char, ws: seq<string>, separator: char)
    requires AreWords(ws) && !IsLetter(separator)
    ensures Scan(prev, "", Joined(ws, separator)) == ws
    decreases |ws|
  {
    if |ws| == 1 {
      ScanLowers(prev, "", ws[0], "");
      assert ws[0] + "" == ws[0] && "" + ws[0] == ws[0];
    } else if |ws| > 1 {
      var rest := Joined(ws[1..], separator);
      ScanLowers(prev, "", ws[0], [separator] + rest);
      assert ws[0] + [separator] + rest == ws[0] + ([separator] + rest);
      assert "" + ws[0] == ws[0] && ([separator] + rest)[1..] == rest;
      ScanJoined(separator, ws[1..], separator);
      assert Flush(ws[0]) + ws[1..] == ws;
    }
  }

  /** snake_case and kebab-case are always split back into their words. */
  lemma JoinedRoundTrip(ws: seq<string>, separator: char)
    requires AreWords(ws) && !IsLetter(separator)
    ensures SplitName(Joined(ws, separator)) == ws
  {
    SplitIsScan(Joined(ws, separator));
    ScanJoined(' ', ws, separator);
  }

  lemma {:induction false} LongWordsSurvive(afterSingle: bool, word: string, ws: seq<string>, i: nat)
    requires i < |ws| && |ws[i]| >= 2
    ensures ws[i] in Glued(afterSingle, word, ws)
    decreases |ws|
  {
    if i == 0 {
      GluedKeepsFirst(ws[0], ws[1..]);
    } else if afterSingle && |ws[0]| == 1 {
      LongWordsSurvive(true, word + ws[0], ws[1..], i - 1);
    } else {
      LongWordsSurvive(|ws[0]| == 1, ws[0], ws[1..], i - 1);
    }
  }

  lemma GluedKeepsFirst(word: string, ws: seq<string>)
    ensures word in Glued(false, word, ws)
  {
    assert Glued(false, word, ws)[0] == word;
  }

  // ----- Which names are redacted -----

  lemma {:induction false} LowerCaseConcat(a: string, b: string)
    ensures LowerCase(a + b) == LowerCase(a) + LowerCase(b)
  {
    if a == "" {
      assert a + b == b;
    } else {
      assert (a + b)[1..] == a[1..] + b;
      LowerCaseConcat(a[1..], b);
    }
  }

  lemma {:induction false} LowerCaseOfLower(w: string)
    requires forall i :: 0 <= i < |w| ==> !IsUpper(w[i])
    ensures LowerCase(w) == w
  {
    if w != "" {
      LowerCaseOfLower(w[1..]);
    }
  }

  lemma LowerCaseOfCapital(w: string)
    requires IsWord(w)
    ensures LowerCase(Capitalize(w)) == w
  {
    LowerCaseOfLower(w[1..]);
    assert Capitalize(w)[1..] == w[1..];
  }

  lemma {:induction false} LowerCaseOfCamelTail(ws: seq<string>)
    requires AreWords(ws)
    ensures LowerCase(CamelTail(ws)) == Flatten(ws)
  {
    if ws != [] {
      LowerCaseOfCapital(ws[0]);
      LowerCaseConcat(Capitalize(ws[0]), CamelTail(ws[1..]));
      LowerCaseOfCamelTail(ws[1..]);
    }
  }

  lemma {:induction false} LowerCaseOfJoined(ws: seq<string>, separator: char)
    requires AreWords(ws) && !IsLetter(separator)
    ensures LowerCase(Joined(ws, separator)) == Joined(ws, separator)
  {
    if ws != [] {
      LowerCaseOfLower(ws[0]);
    }
    if |ws| > 1 {
      LowerCaseOfLower(ws[0] + [separator]);
      LowerCaseConcat(ws[0] + [separator], Joined(ws[1..], separator));
      LowerCaseOfJoined(ws[1..], separator);
    }
  }

  /** A camelCase name is redacted exactly when its words run together are a key, or one of the words it is split into
      is. */
  lemma CamelCaseIsRedactedExactly(ws: seq<string>, keys: set<string>)
    requires AreWords(ws) && ws != []
    ensures IsRedactKey(CamelCase(ws), keys) <==>
            Flatten(ws) in keys || exists w :: w in Glued(false, ws[0], ws[1..]) && w in keys
  {
    SplitOfCamelCase(ws);
    LowerCaseOfLower(ws[0]);
    LowerCaseConcat(ws[0], CamelTail(ws[1..]));
    LowerCaseOfCamelTail(ws[1..]);
  }

  /** A snake_case or kebab-case name is redacted exactly when it is itself a key, or one of its words is: the words run
      together do not count. */
  lemma JoinedIsRedactedExactly(ws: seq<string>, separator: char, keys: set<string>)
    requires AreWords(ws) && !IsLetter(separator)
    ensures IsRedactKey(Joined(ws, separator), keys) <==>
            Joined(ws, separator) in keys || exists w :: w in ws && w in keys
  {
    JoinedRoundTrip(ws, separator);
    LowerCaseOfJoined(ws, separator);
  }

  // ----- Names that begin with an uppercase letter -----

  function UpperCase(w: string): string
    requires IsWord(w)
    ensures |UpperCase(w)| == |w|
  {
    seq(|w|, i requires 0 <= i < |w| => ToUpper(w[i]))
  }

  /** SCREAMING_SNAKE_CASE. */
  function UpperJoined(ws: seq<string>, separator: char): string
    requires AreWords(ws)
  {
    if ws == [] then "" else if |ws| == 1 then UpperCase(ws[0])
    else UpperCase(ws[0]) + [separator] + UpperJoined(ws[1..], separator)
  }

  /** A run of uppercase letters that nothing lowercase follows is one word. */
  lemma {:induction false} ScanUppers(prev: char, word: string, u: string, s: string)
    requires u != "" && (forall i :: 0 <= i < |u| ==> IsUpper(u[i])) && (s == "" || !IsLetter(s[0]))
    requires LowerOrDigit(prev) ==> word == ""
    ensures Scan(prev, word, u + s) == Scan(u[|u| - 1], word + LowerCase(u), s)
    decreases |u|
  {
    var t := u + s;
    assert t[1..] == u[1..] + s;
    var c := ToLower(u[0]);
    assert Scan(prev, word, t) == Scan(u[0], word + [c], t[1..]) by {
      assert |t| >= 2 ==> t[1] == (if |u| > 1 then u[1] else s[0]);
      assert "" + [c] == [c];
      if Boundary(prev, t) {
        assert Flush("") + Scan(u[0], [c], t[1..]) == Scan(u[0], [c], t[1..]);
      }
    }
    if |u| == 1 {
      assert t[1..] == s && LowerCase(u) == [c];
    } else {
      ScanUppers(u[0], word + [c], u[1..], s);
      ConcatAssoc(word, [c], LowerCase(u[1..]));
    }
  }

  lemma {:induction false} LowerCaseOfUpper(w: string)
    requires IsWord(w)
    ensures LowerCase(UpperCase(w)) == w
    ensures forall i :: 0 <= i < |w| ==> IsUpper(UpperCase(w)[i])
  {
    if |w| > 1 {
      LowerCaseOfUpper(w[1..]);
      assert UpperCase(w)[1..] == UpperCase(w[1..]);
    } else {
      assert UpperCase(w)[1..] == "";
    }
  }

  lemma {:induction false} ScanUpperJoined(prev: char, ws: seq<string>, separator: char)
    requires AreWords(ws) && !IsLetter(separator)
    ensures Scan(prev, "", UpperJoined(ws, separator)) == ws
    decreases |ws|
  {
    if ws != [] {
      LowerCaseOfUpper(ws[0]);
      var u := UpperCase(ws[0]);
      assert "" + ws[0] == ws[0];
      if |ws| == 1 {
        ScanUppers(prev, "", u, "");
        assert u + "" == u;
      } else {
        var rest := UpperJoined(ws[1..], separator);
        ScanUppers(prev, "", u, [separator] + rest);
        assert u + [separator] + rest == u + ([separator] + rest);
        assert ([separator] + rest)[1..] == rest;
        ScanUpperJoined(separator, ws[1..], separator);
        assert Flush(ws[0]) + ws[1..] == ws;
      }
    }
  }

  /** SCREAMING_SNAKE_CASE is always split back into its words. */
  lemma UpperJoinedRoundTrip(ws: seq<string>, separator: char)
    requires AreWords(ws) && !IsLetter(separator)
    ensures SplitName(UpperJoined(ws, separator)) == ws
  {
    SplitIsScan(UpperJoined(ws, separator));
    ScanUpperJoined(' ', ws, separator);
  }

  lemma ScanFirstCapital(w: string, s: string)
    requires IsWord(w)
    ensures var last := if |w| == 1 then ToUpper(w[0]) else w[|w| - 1];
            Scan(' ', "", Capitalize(w) + s) == Scan(last, w, s)
  {
    var t, c := Capitalize(w) + s, ToUpper(w[0]);
    assert t[0] == c && t[1..] == w[1..] + s && ToLower(c) == w[0] && "" + [w[0]] == [w[0]];
    if |w| == 1 {
      assert w[1..] + s == s && w == [w[0]];
    } else {
      ScanLowers(c, [w[0]], w[1..], s);
      assert [w[0]] + w[1..] == w;
    }
  }

  /** The exact words of a PascalCase name: a one-letter first word counts as one to stick to. */
  lemma SplitOfPascalCase(ws: seq<string>)
    requires AreWords(ws) && ws != []
    ensures SplitName(CamelTail(ws)) == Glued(|ws[0]| == 1, ws[0], ws[1..])
  {
    hide Scan, Glued, SplitName, Capitalize;
    var w := ws[0];
    var last := if |w| == 1 then ToUpper(w[0]) else w[|w| - 1];
    SplitIsScan(CamelTail(ws));
    ScanFirstCapital(w, CamelTail(ws[1..]));
    ScanCamelTail(last, w, ws[1..]);
  }

  lemma {:induction false} LowerCaseOfUpperJoined(ws: seq<string>, separator: char)
    requires AreWords(ws) && !IsLetter(separator)
    ensures LowerCase(UpperJoined(ws, separator)) == Joined(ws, separator)
  {
    if ws != [] {
      LowerCaseOfUpper(ws[0]);
    }
    if |ws| > 1 {
      LowerCaseOfLower([separator]);
      LowerCaseConcat(UpperCase(ws[0]), [separator]);
      LowerCaseConcat(UpperCase(ws[0]) + [separator], UpperJoined(ws[1..], separator));
      LowerCaseOfUpperJoined(ws[1..], separator);
    }
  }

  /** PascalCase and SCREAMING_SNAKE_CASE names are redacted by the same rules. */
  lemma UppercaseNamesAreRedactedExactly(ws: seq<string>, separator: char, keys: set<string>)
    requires AreWords(ws) && ws != [] && !IsLetter(separator)
    ensures IsRedactKey(CamelTail(ws), keys) <==>
            Flatten(ws) in keys || exists w :: w in Glued(|ws[0]| == 1, ws[0], ws[1..]) && w in keys
    ensures IsRedactKey(UpperJoined(ws, separator), keys) <==>
            Joined(ws, separator) in keys || exists w :: w in ws && w in keys
  {
    SplitOfPascalCase(ws);
    LowerCaseOfCamelTail(ws);
    UpperJoinedRoundTrip(ws, separator);
    LowerCaseOfUpperJoined(ws, separator);
  }

  /** Any name at all: redacted exactly if its lower-cased text is a key or a word of the scan is. */
  lemma AnyNameIsRedactedExactly(name: string, keys: set<string>)
    ensures IsRedactKey(name, keys) <==> LowerCase(name) in keys || exists w :: w in Scan(' ', "", name) && w in keys
  {
    SplitIsScan(name);
  }

  /** A key word of two letters or more is caught in every compound name that contains it, in all five styles. */
  lemma KeyWordIsCaught(ws: seq<string>, i: nat, keys: set<string>, separator: char)
    requires AreWords(ws) && i < |ws| && ws[i] in keys && |ws[i]| >= 2 && !IsLetter(separator)
    ensures IsRedactKey(CamelCase(ws), keys) && IsRedactKey(Joined(ws, separator), keys)
    ensures IsRedactKey(CamelTail(ws), keys) && IsRedactKey(UpperJoined(ws, separator), keys)
  {
    hide IsRedactKey, Glued, Scan, Joined, CamelCase, CamelTail, UpperJoined, Flatten, IsWord;
    CamelCaseIsRedactedExactly(ws, keys);
    JoinedIsRedactedExactly(ws, separator, keys);
    UppercaseNamesAreRedactedExactly(ws, separator, keys);
    LongWordInGlued(false, ws, i);
    LongWordInGlued(|ws[0]| == 1, ws, i);
    assert ws[i] in ws;
  }

  lemma LongWordInGlued(afterSingle: bool, ws: seq<string>, i: nat)
    requires i < |ws| && |ws[i]| >= 2 && (i == 0 ==> !afterSingle)
    ensures ws[i] in Glued(afterSingle, ws[0], ws[1..])
  {
    if i == 0 {
      GluedKeepsFirst(ws[0], ws[1..]);
    } else {
      LongWordsSurvive(afterSingle, ws[0], ws[1..], i - 1);
    }
  }

  const DEFAULT_REDACT_KEYS: set<string> := {
    "suri", "secret", "seed", "mnemonic", "password", "token", "credential", "credentials", "authorization",
    "apikey", "privatekey", "secretkey", "minisecret" }

  lemma TwoWords(a: string, b: string, keys: set<string>)
    requires IsWord(a) && IsWord(b)
    ensures IsRedactKey(a + Capitalize(b), keys) <==> a + b in keys || a in keys || b in keys
    ensures IsRedactKey(a + "_" + b, keys) <==> a + "_" + b in keys || a in keys || b in keys
  {
    var ws := [a, b];
    CamelCaseIsRedactedExactly(ws, keys);
    JoinedIsRedactedExactly(ws, '_', keys);
    assert ws[1..] == [b] && [b][1..] == [];
    assert CamelTail([b]) == Capitalize(b) + "" == Capitalize(b);
    assert Flatten([b]) == b;
    assert Glued(false, a, [b]) == [a] + [b] == ws;
    hide IsRedactKey, IsWord, Capitalize;
    assert Joined(ws, '_') == a + ['_'] + b == a + "_" + b;
  }

  lemma ThreeWords(a: string, b: string, c: string, keys: set<string>)
    requires IsWord(a) && IsWord(b) && IsWord(c) && |b| >= 2
    ensures IsRedactKey(a + (Capitalize(b) + Capitalize(c)), keys) <==>
            a + (b + c) in keys || a in keys || b in keys || c in keys
  {
    var ws := [a, b, c];
    CamelCaseIsRedactedExactly(ws, keys);
    assert ws[1..] == [b, c] && [b, c][1..] == [c] && [c][1..] == [];
    assert CamelTail([c]) == Capitalize(c) + "" == Capitalize(c);
    assert Flatten([c]) == c;
    assert Glued(false, b, [c]) == [b] + [c] == [b, c];
    assert Glued(false, a, [b, c]) == [a] + [b, c] == ws;
    hide IsRedactKey, IsWord, Capitalize;
  }

  lemma NotDefaultKeys()
    ensures "api" !in DEFAULT_REDACT_KEYS && "key" !in DEFAULT_REDACT_KEYS && "private" !in DEFAULT_REDACT_KEYS
    ensures "wallet" !in DEFAULT_REDACT_KEYS && "api_key" !in DEFAULT_REDACT_KEYS
    ensures "private_key" !in DEFAULT_REDACT_KEYS && "walletprivatekey" !in DEFAULT_REDACT_KEYS
    ensures "apikey" in DEFAULT_REDACT_KEYS && "privatekey" in DEFAULT_REDACT_KEYS
  {
    assert |"private"| == |"api_key"| == 7 && "wallet"[0] == 'w' && "private_key"[7] == '_';
  }

  /** The joined keys of the default list catch `apiKey` and `privateKey`, but no separated and no longer name. */
  lemma JoinedKeysMissCompounds()
    ensures IsRedactKey("apiKey", DEFAULT_REDACT_KEYS) && IsRedactKey("privateKey", DEFAULT_REDACT_KEYS)
    ensures !IsRedactKey("api_key", DEFAULT_REDACT_KEYS) && !IsRedactKey("private_key", DEFAULT_REDACT_KEYS)
    ensures !IsRedactKey("walletPrivateKey", DEFAULT_REDACT_KEYS)
  {
    hide IsRedactKey;
    TwoWords("api", "key", DEFAULT_REDACT_KEYS);
    TwoWords("private", "key", DEFAULT_REDACT_KEYS);
    ThreeWords("wallet", "private", "key", DEFAULT_REDACT_KEYS);
    assert Capitalize("key") == "Key" && Capitalize("private") == "Private";
    assert "api" + "Key" == "apiKey" && "private" + "Key" == "privateKey" && "api" + "key" == "apikey";
    assert "private" + "key" == "privatekey" && "api" + "_" + "key" == "api_key";
    assert "private" + "_" + "key" == "private_key" && "wallet" + ("Private" + "Key") == "walletPrivateKey";
    assert "wallet" + ("private" + "key") == "walletprivatekey";
    NotDefaultKeys();
  }
}
