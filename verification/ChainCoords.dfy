/** Chain-coordinate row ids (packages/indexer/squid-common/src/chainCoord.ts). */
module ChainCoords {
  import opened Prelude
  import opened Digits

  /** `blockNumber` is a bigint; the two indices are JavaScript numbers. */
  datatype ChainCoord = ChainCoord(blockNumber: int, extrinsicIndex: int, eventIndex: int)

  const MAX_SAFE: int := 0x1f_ffff_ffff_ffff

  predicate SafeIndex(n: int) { -MAX_SAFE <= n <= MAX_SAFE }

  predicate SafeCoord(c: ChainCoord) { SafeIndex(c.extrinsicIndex) && SafeIndex(c.eventIndex) }

  predicate NonNegative(c: ChainCoord) { c.blockNumber >= 0 && c.extrinsicIndex >= 0 && c.eventIndex >= 0 }

  /** A bigint, or a number that is a safe integer, inside a template string. */
  function PrintInt(n: int): string { if n < 0 then "-" + Print(-n) else Print(n) }

  function MakeId(c: ChainCoord, suffix: Option<string>): string {
    var prefix := PrintInt(c.blockNumber) + "-" + PrintInt(c.extrinsicIndex) + "-" + PrintInt(c.eventIndex);
    if suffix.None? then prefix else prefix + "-" + suffix.value
  }

  /** `s.split("-")`. */
  function SplitDash(s: string): (parts: seq<string>)
    ensures |parts| >= 1
  {
    if s == "" then [""]
    else
      var rest := SplitDash(s[1..]);
      if s[0] == '-' then [""] + rest else [[s[0]] + rest[0]] + rest[1..]
  }

  predicate DecimalInt(s: string) { s != "" && AllDigits(s) }

  /** The id without its required `-suffix`, if it ends in it. */
  function Strip(id: string, suffix: Option<string>): Option<string> {
    if suffix.None? then Some(id)
    else
      var tail := "-" + suffix.value;
      if |tail| <= |id| && id[|id| - |tail|..] == tail then Some(id[..|id| - |tail|]) else None
  }

  /** `number` is `Number(s)` on decimal digits: exact up to the largest safe integer, rounded beyond. */
  function ParseId(id: string, suffix: Option<string>, number: nat -> nat): Option<ChainCoord> {
    match Strip(id, suffix)
    case None => None
    case Some(stripped) =>
      var parts := SplitDash(stripped);
      if |parts| != 3 then None
      else if !(DecimalInt(parts[0]) && DecimalInt(parts[1]) && DecimalInt(parts[2])) then None
      else Some(ChainCoord(Value(parts[0]), number(Value(parts[1])), number(Value(parts[2]))))
  }

  predicate ExactOnSafe(number: nat -> nat) { forall n: nat :: n <= MAX_SAFE ==> number(n) == n }

  // ----- Splitting -----

  function JoinDash(parts: seq<string>): string
    requires parts != []
  {
    if |parts| == 1 then parts[0] else parts[0] + ("-" + JoinDash(parts[1..]))
  }

  lemma JoinGrows(c: char, rest: seq<string>)
    requires rest != []
    ensures JoinDash([[c] + rest[0]] + rest[1..]) == [c] + JoinDash(rest)
  {
    var parts := [[c] + rest[0]] + rest[1..];
    assert parts[1..] == rest[1..];
    if |rest| > 1 {
      ConcatAssoc([c], rest[0], "-" + JoinDash(rest[1..]));
    }
  }

  lemma JoinGrowsByDash(rest: seq<string>)
    requires rest != []
    ensures JoinDash([""] + rest) == "-" + JoinDash(rest)
  {
    assert ([""] + rest)[1..] == rest;
    var t := "-" + JoinDash(rest);
    assert "" + t == t;
  }

  lemma {:induction false} JoinOfSplit(s: string)
    ensures JoinDash(SplitDash(s)) == s
  {
    if s != "" {
      JoinOfSplit(s[1..]);
      JoinGrows(s[0], SplitDash(s[1..]));
      JoinGrowsByDash(SplitDash(s[1..]));
      hide JoinDash;
      assert s == [s[0]] + s[1..];
    }
  }

  lemma {:induction false} SplitNoDash(s: string)
    requires '-' !in s
    ensures SplitDash(s) == [s]
  {
    if s != "" {
      SplitNoDash(s[1..]);
      assert s[0] in s && s == [s[0]] + s[1..];
    }
  }

  lemma SplitCons(c: char, t: string)
    ensures SplitDash([c] + t) ==
            if c == '-' then [""] + SplitDash(t) else [[c] + SplitDash(t)[0]] + SplitDash(t)[1..]
  {
    assert ([c] + t)[1..] == t;
  }

  lemma {:induction false} SplitConcat(a: string, b: string)
    ensures SplitDash(a + "-" + b) == SplitDash(a) + SplitDash(b)
  {
    if a == "" {
      SplitCons('-', b);
      assert a + "-" + b == "-" + b;
    } else {
      SplitConcat(a[1..], b);
      SplitCons(a[0], a[1..]);
      SplitCons(a[0], a[1..] + "-" + b);
      hide SplitDash;
      assert a == [a[0]] + a[1..] && a + "-" + b == [a[0]] + (a[1..] + "-" + b);
      FirstOfConcat(SplitDash(a[1..]), SplitDash(b), a[0]);
    }
  }

  lemma FirstOfConcat(rest: seq<string>, tail: seq<string>, c: char)
    requires rest != []
    ensures [""] + (rest + tail) == ([""] + rest) + tail
    ensures [[c] + (rest + tail)[0]] + (rest + tail)[1..] == ([[c] + rest[0]] + rest[1..]) + tail
  {
  }

  lemma PrintHasNoDash(n: nat)
    ensures '-' !in Print(n) && DecimalInt(Print(n)) && Value(Print(n)) == n
  {
    PrintValue(n);
  }

  /** The three components of the prefix, a minus sign counting as one more cut. */
  lemma SplitPrintInt(n: int)
    ensures SplitDash(PrintInt(n)) == if n < 0 then ["", Print(-n)] else [Print(n)]
  {
    PrintHasNoDash(if n < 0 then -n else n);
    SplitNoDash(Print(if n < 0 then -n else n));
    if n < 0 {
      SplitConcat("", Print(-n));
      assert "" + "-" + Print(-n) == "-" + Print(-n);
      assert SplitDash("") == [""];
    }
  }

  function Prefix(c: ChainCoord): string {
    PrintInt(c.blockNumber) + "-" + PrintInt(c.extrinsicIndex) + "-" + PrintInt(c.eventIndex)
  }

  lemma SplitPrefix(c: ChainCoord)
    ensures SplitDash(Prefix(c)) ==
            SplitDash(PrintInt(c.blockNumber)) + SplitDash(PrintInt(c.extrinsicIndex)) + SplitDash(PrintInt(c.eventIndex))
  {
    SplitConcat(PrintInt(c.blockNumber) + "-" + PrintInt(c.extrinsicIndex), PrintInt(c.eventIndex));
    SplitConcat(PrintInt(c.blockNumber), PrintInt(c.extrinsicIndex));
  }

  lemma PrefixParts(c: ChainCoord)
    ensures NonNegative(c) ==>
              SplitDash(Prefix(c)) == [Print(c.blockNumber), Print(c.extrinsicIndex), Print(c.eventIndex)]
    ensures !NonNegative(c) ==> |SplitDash(Prefix(c))| > 3
  {
    SplitPrefix(c);
    SplitPrintInt(c.blockNumber);
    SplitPrintInt(c.extrinsicIndex);
    SplitPrintInt(c.eventIndex);
    hide SplitDash, PrintInt, Print, Prefix;
  }

  /** What a suffix adds to the parts of an id. */
  function Tail(suffix: Option<string>): seq<string> { if suffix.None? then [] else SplitDash(suffix.value) }

  lemma SplitOfId(c: ChainCoord, suffix: Option<string>)
    ensures SplitDash(MakeId(c, suffix)) ==
            SplitDash(Prefix(c)) + Tail(suffix)
  {
    if suffix.Some? {
      SplitConcat(Prefix(c), suffix.value);
    }
  }

  lemma StripOwnSuffix(c: ChainCoord, suffix: Option<string>)
    ensures Strip(MakeId(c, suffix), suffix) == Some(Prefix(c))
  {
    if suffix.Some? {
      var id, tail := MakeId(c, suffix), "-" + suffix.value;
      assert id == Prefix(c) + tail;
      assert id[|id| - |tail|..] == tail && id[..|id| - |tail|] == Prefix(c);
    }
  }

  // ----- Main results -----

  /** An id parses back under its own suffix exactly when no component is negative. */
  lemma ParseOfMake(c: ChainCoord, suffix: Option<string>, number: nat -> nat)
    requires SafeCoord(c) && ExactOnSafe(number)
    ensures ParseId(MakeId(c, suffix), suffix, number) == Some(c) <==> NonNegative(c)
  {
    StripOwnSuffix(c, suffix);
    PrefixParts(c);
    hide MakeId, SplitDash, Print, Value, Prefix, Strip;
    if NonNegative(c) {
      PrintHasNoDash(c.blockNumber);
      PrintHasNoDash(c.extrinsicIndex);
      PrintHasNoDash(c.eventIndex);
    }
  }

  lemma TailInjective(s1: Option<string>, s2: Option<string>)
    requires Tail(s1) == Tail(s2)
    ensures s1 == s2
  {
    if s1.Some? {
      JoinOfSplit(s1.value);
    }
    if s2.Some? {
      JoinOfSplit(s2.value);
    }
  }

  /** Under any other suffix it is refused: none, empty, digits and dashes included. */
  lemma OtherFamilyRefuses(c: ChainCoord, made: Option<string>, asked: Option<string>, number: nat -> nat)
    requires made != asked
    ensures ParseId(MakeId(c, made), asked, number) == None
  {
    hide *;
    var id := MakeId(c, made);
    if ParseId(id, asked, number).Some? {
      var parts := AcceptedParts(id, asked, number);
      SplitOfText(parts, asked);
      SplitOfId(c, made);
      PrefixParts(c);
      assert SplitDash(Prefix(c)) + Tail(made) == parts + Tail(asked);
      assert parts == (parts + Tail(asked))[..3] == (SplitDash(Prefix(c)) + Tail(made))[..3];
      if NonNegative(c) {
        assert Tail(asked) == (parts + Tail(asked))[3..] == (SplitDash(Prefix(c)) + Tail(made))[3..] == Tail(made);
        TailInjective(asked, made);
      } else {
        MinusLeavesAGap(c);
        assert "" in parts;
        NoEmptyPart(parts);
      }
      assert false;
    }
  }

  lemma NoEmptyPart(parts: seq<string>)
    requires |parts| == 3 && DecimalInt(parts[0]) && DecimalInt(parts[1]) && DecimalInt(parts[2])
    ensures "" !in parts
  {
  }

  lemma SplitOfText(parts: seq<string>, suffix: Option<string>)
    requires |parts| == 3 && DecimalInt(parts[0]) && DecimalInt(parts[1]) && DecimalInt(parts[2])
    ensures SplitDash(IdText(parts[0], parts[1], parts[2], suffix)) == parts + Tail(suffix)
  {
    var a, b, c := parts[0], parts[1], parts[2];
    SplitConcat(a + "-" + b, c);
    SplitConcat(a, b);
    SplitNoDash(a);
    SplitNoDash(b);
    SplitNoDash(c);
    if suffix.Some? {
      SplitConcat(a + "-" + b + "-" + c, suffix.value);
    }
    hide SplitDash;
    assert parts == [a] + [b] + [c];
  }

  /** A minus sign is a cut with nothing before it, among the first three parts. */
  lemma MinusLeavesAGap(c: ChainCoord)
    requires !NonNegative(c)
    ensures |SplitDash(Prefix(c))| > 3 && "" in SplitDash(Prefix(c))[..3]
  {
    PrefixParts(c);
    SplitPrefix(c);
    SplitPrintInt(c.blockNumber);
    SplitPrintInt(c.extrinsicIndex);
    SplitPrintInt(c.eventIndex);
    hide SplitDash, PrintInt, Print, Prefix;
    var parts := SplitDash(Prefix(c));
    var at := if c.blockNumber < 0 then 0 else if c.extrinsicIndex < 0 then 1 else 2;
    assert parts[..3][at] == "";
  }

  /** Coordinate and suffix can be read off the id, minus signs included. */
  lemma MakeIsInjective(c1: ChainCoord, s1: Option<string>, c2: ChainCoord, s2: Option<string>)
    requires MakeId(c1, s1) == MakeId(c2, s2)
    ensures c1 == c2 && s1 == s2
  {
    PartsOfId(c1, s1);
    PartsOfId(c2, s2);
    hide SplitDash, MakeId, Print, Prefix, PrintInt;
    var t1, t2 := Tail(s1), Tail(s2);
    var v1, v2 := SplitDash(PrintInt(c1.eventIndex)) + t1, SplitDash(PrintInt(c2.eventIndex)) + t2;
    var e1, e2 := SplitDash(PrintInt(c1.extrinsicIndex)) + v1, SplitDash(PrintInt(c2.extrinsicIndex)) + v2;
    FirstIntOf(c1.blockNumber, e1, c2.blockNumber, e2);
    FirstIntOf(c1.extrinsicIndex, v1, c2.extrinsicIndex, v2);
    FirstIntOf(c1.eventIndex, t1, c2.eventIndex, t2);
    TailInjective(s1, s2);
  }

  lemma PartsOfId(c: ChainCoord, suffix: Option<string>)
    ensures SplitDash(MakeId(c, suffix)) ==
            SplitDash(PrintInt(c.blockNumber)) + (SplitDash(PrintInt(c.extrinsicIndex)) +
            (SplitDash(PrintInt(c.eventIndex)) + Tail(suffix)))
  {
    SplitOfId(c, suffix);
    SplitPrefix(c);
    hide SplitDash, MakeId, Print, Prefix, PrintInt;
  }

  /** An integer at the front of a list of parts is determined by the list: a minus sign shows as an empty part. */
  lemma FirstIntOf(m: int, after1: seq<string>, n: int, after2: seq<string>)
    requires SplitDash(PrintInt(m)) + after1 == SplitDash(PrintInt(n)) + after2
    ensures m == n && after1 == after2
  {
    SplitPrintInt(m);
    SplitPrintInt(n);
    var a, b := if m < 0 then -m else m, if n < 0 then -n else n;
    PrintHasNoDash(a);
    PrintHasNoDash(b);
    hide SplitDash, PrintInt, Print;
    var k := if m < 0 then 2 else 1;
    var all := SplitDash(PrintInt(m)) + after1;
    assert (all[0] == "") == (m < 0) == (n < 0);
    assert all[k - 1] == Print(a) == Print(b);
    PrintInjective(a, b);
    assert all[k..] == after1 == after2;
  }

  /** `{a}-{b}-{c}` with the suffix of the family. */
  function IdText(a: string, b: string, c: string, suffix: Option<string>): string {
    var prefix := a + "-" + b + "-" + c;
    if suffix.None? then prefix else prefix + "-" + suffix.value
  }

  /** Exactly the ids of the documented shape are accepted, with the values of their digits. */
  lemma AcceptedExactly(id: string, suffix: Option<string>, number: nat -> nat)
    ensures ParseId(id, suffix, number).Some? <==>
            exists a, b, c :: DecimalInt(a) && DecimalInt(b) && DecimalInt(c) && id == IdText(a, b, c, suffix)
    ensures forall a, b, c :: DecimalInt(a) && DecimalInt(b) && DecimalInt(c) && id == IdText(a, b, c, suffix) ==>
              ParseId(id, suffix, number) == Some(ChainCoord(Value(a), number(Value(b)), number(Value(c))))
  {
    if ParseId(id, suffix, number).Some? {
      var parts := AcceptedParts(id, suffix, number);
    }
    forall a, b, c | DecimalInt(a) && DecimalInt(b) && DecimalInt(c) && id == IdText(a, b, c, suffix)
      ensures ParseId(id, suffix, number) == Some(ChainCoord(Value(a), number(Value(b)), number(Value(c))))
    {
      ParseOfText(a, b, c, suffix, number);
    }
  }

  lemma ParseOfText(a: string, b: string, c: string, suffix: Option<string>, number: nat -> nat)
    requires DecimalInt(a) && DecimalInt(b) && DecimalInt(c)
    ensures ParseId(IdText(a, b, c, suffix), suffix, number) ==
            Some(ChainCoord(Value(a), number(Value(b)), number(Value(c))))
  {
    var prefix := a + "-" + b + "-" + c;
    SplitConcat(a + "-" + b, c);
    SplitConcat(a, b);
    SplitNoDash(a);
    SplitNoDash(b);
    SplitNoDash(c);
    var id := IdText(a, b, c, suffix);
    hide SplitDash, Value;
    if suffix.Some? {
      var tail := "-" + suffix.value;
      assert id == prefix + tail;
      assert id[|id| - |tail|..] == tail && id[..|id| - |tail|] == prefix;
    }
    assert Strip(id, suffix) == Some(prefix);
    assert SplitDash(prefix) == [a, b, c];
  }

  lemma AcceptedParts(id: string, suffix: Option<string>, number: nat -> nat) returns (parts: seq<string>)
    requires ParseId(id, suffix, number).Some?
    ensures |parts| == 3 && DecimalInt(parts[0]) && DecimalInt(parts[1]) && DecimalInt(parts[2])
    ensures id == IdText(parts[0], parts[1], parts[2], suffix)
  {
    var stripped := Strip(id, suffix).value;
    parts := SplitDash(stripped);
    JoinOfSplit(stripped);
    assert suffix.Some? ==> id == stripped + "-" + suffix.value;
    JoinOfThree(parts);
    hide SplitDash, Value, JoinDash, Strip;
  }

  lemma JoinOfThree(parts: seq<string>)
    requires |parts| == 3
    ensures JoinDash(parts) == parts[0] + "-" + parts[1] + "-" + parts[2]
  {
    assert parts[1..][1..] == [parts[2]];
    assert JoinDash(parts[1..]) == parts[1] + ("-" + parts[2]);
    ConcatAssoc(parts[1], "-", parts[2]);
    ConcatAssoc(parts[0] + "-", parts[1] + "-", parts[2]);
    ConcatAssoc(parts[0] + "-", parts[1], "-");
    ConcatAssoc(parts[0], "-", parts[1] + "-" + parts[2]);
  }

  /** Making the id again from what was parsed strips leading zeros and changes nothing else. */
  lemma MakeOfParse(a: string, b: string, c: string, suffix: Option<string>, number: nat -> nat)
    requires DecimalInt(a) && DecimalInt(b) && DecimalInt(c) && ExactOnSafe(number)
    requires Value(b) <= MAX_SAFE && Value(c) <= MAX_SAFE
    ensures var parsed := ParseId(IdText(a, b, c, suffix), suffix, number);
            parsed.Some? &&
            MakeId(parsed.value, suffix) == IdText(StripLeading(a), StripLeading(b), StripLeading(c), suffix)
  {
    ParseOfText(a, b, c, suffix, number);
    PrintOfValue(a);
    PrintOfValue(b);
    PrintOfValue(c);
    hide ParseId, Print, Value, StripLeading;
  }
}
