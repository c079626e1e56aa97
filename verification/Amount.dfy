/** Token amounts: human decimal strings against integer base units (packages/web/ui/src/amount.ts). */
module Amount {
  import opened Prelude
  import opened Digits

  /** A JavaScript number as `decimals` sees it: `Number.isInteger` holds or it does not. */
  datatype Decimals = Whole(n: int) | NotWhole

  datatype ParseError =
    | Empty
    | NotANumber
    | NotPositive
    | InvalidDecimals
    | TooManyFractionalDigits
    | ExceedsMax

  /** What a caller gets for `max` by default. */
  const MAX_U128: int := 0xffff_ffff_ffff_ffff_ffff_ffff_ffff_ffff

  function TrimStart(s: string): string {
    if s != "" && IsSpace(s[0]) then TrimStart(s[1..]) else s
  }

  function TrimEnd(s: string): string {
    if s != "" && IsSpace(s[|s| - 1]) then TrimEnd(s[..|s| - 1]) else s
  }

  function Trim(s: string): string { TrimEnd(TrimStart(s)) }

  /** Length of the longest run of digits at the start of `s`. */
  function DigitRun(s: string): (n: nat)
    ensures n <= |s| && AllDigits(s[..n])
    ensures n < |s| ==> !IsDigit(s[n])
  {
    if s != "" && IsDigit(s[0]) then
      var n := 1 + DigitRun(s[1..]);
      assert forall i :: 0 < i < n ==> s[i] == s[1..][i - 1];
      n
    else 0
  }

  datatype Decimal = Decimal(whole: string, frac: string)

  /** The two capture groups of `/^(\d+)(?:\.(\d+))?$/`; an absent second group is "". */
  function MatchDecimal(s: string): (m: Option<Decimal>)
    ensures m.Some? ==> AllDigits(m.value.whole) && m.value.whole != "" && AllDigits(m.value.frac)
  {
    var n := DigitRun(s);
    if n == 0 then None
    else if n == |s| then Some(Decimal(s, ""))
    else if s[n] == '.' && n + 1 < |s| && DigitRun(s[n + 1..]) == |s| - n - 1 then
      Some(Decimal(s[..n], s[n + 1..]))
    else None
  }

  function PadEnd(s: string, n: nat): string { if |s| < n then s + Zeros(n - |s|) else s }

  function PadStart(s: string, n: nat): string { if |s| < n then Zeros(n - |s|) + s else s }

  /** `BigInt(wholePart) * base + fraction`. */
  function BaseUnits(d: Decimal, decimals: nat): int
    requires AllDigits(d.whole) && AllDigits(d.frac)
  {
    var fraction := if d.frac == "" then 0 else Value(PadEnd(d.frac, decimals));
    Value(d.whole) * Pow10(decimals) + fraction
  }

  function ParseTokenAmount(input: string, decimals: Decimals, max: int): Result<int, ParseError> {
    if decimals.NotWhole? || decimals.n < 0 || decimals.n > 255 then Err(InvalidDecimals)
    else
      var trimmed := Trim(input);
      if trimmed == "" then Err(Empty)
      else
        match MatchDecimal(trimmed)
        case None => Err(NotANumber)
        case Some(d) =>
          if |d.frac| > decimals.n then Err(TooManyFractionalDigits)
          else
            var value := BaseUnits(d, decimals.n);
            if value <= 0 then Err(NotPositive)
            else if value > max then Err(ExceedsMax)
            else Ok(value)
  }

  // ----- Thousands separators: the regex /\B(?=(\d{3})+(?!\d))/g -----

  predicate IsWordChar(c: char) {
    IsDigit(c) || 'a' <= c <= 'z' || 'A' <= c <= 'Z' || c == '_'
  }

  /** `\B` at position `i`: both neighbours are word characters, or neither is. */
  predicate NotWordBoundary(s: string, i: nat)
    requires i <= |s|
  {
    (i > 0 && IsWordChar(s[i - 1])) == (i < |s| && IsWordChar(s[i]))
  }

  /** The lookahead `(\d{3})+(?!\d)` at position `i`. */
  predicate GroupsAhead(s: string, i: nat)
    requires i <= |s|
    decreases |s| - i
  {
    i + 3 <= |s| && AllDigits(s[i..i + 3]) &&
    (i + 3 == |s| || !IsDigit(s[i + 3]) || GroupsAhead(s, i + 3))
  }

  /** `s.replace(...)` from position `i` on. */
  function InsertSeparators(s: string, i: nat): string
    requires i <= |s|
    decreases |s| - i
  {
    (if NotWordBoundary(s, i) && GroupsAhead(s, i) then "," else "") +
    (if i == |s| then "" else [s[i]] + InsertSeparators(s, i + 1))
  }

  function AddThousandsSeparators(digits: string): string { InsertSeparators(digits, 0) }

  /** The textbook grouping: cut three digits off the right while more than three remain. */
  function Grouped(s: string): string {
    if |s| <= 3 then s else Grouped(s[..|s| - 3]) + "," + s[|s| - 3..]
  }

  function FormatTokenAmount(value: int, decimals: nat, symbol: Option<string>): string {
    var negative := value < 0;
    var abs := if negative then -value else value;
    var base := Pow10(decimals);
    var whole := Quot(abs, base);
    var fraction := Rem(abs, base);
    var groupedWhole := AddThousandsSeparators(Print(whole));
    var fractionStr := if decimals > 0 then StripTrailing(PadStart(Print(fraction), decimals)) else "";
    var sign := if negative then "-" else "";
    var number := if fractionStr != "" then sign + groupedWhole + "." + fractionStr else sign + groupedWhole;
    if symbol.Some? && symbol.value != "" then number + " " + symbol.value else number
  }

  /** `s.replaceAll(",", "")`: what a user of the formatted text does before parsing it again. */
  function RemoveCommas(s: string): string {
    if s == "" then "" else (if s[0] == ',' then "" else [s[0]]) + RemoveCommas(s[1..])
  }

  /** The accepted spelling without redundant zeros. */
  function CanonicalText(d: Decimal): string {
    var f := StripTrailing(d.frac);
    StripLeading(d.whole) + (if f == "" then "" else "." + f)
  }

  // ----- Separators -----

  lemma {:induction false} GroupsAheadOfDigits(s: string, i: nat)
    requires AllDigits(s) && i <= |s|
    ensures GroupsAhead(s, i) <==> |s| - i >= 3 && (|s| - i) % 3 == 0
    decreases |s| - i
  {
    if i + 3 < |s| {
      GroupsAheadOfDigits(s, i + 3);
    }
  }

  /** Dropping the last group does not change where the others are cut. */
  lemma SameCut(s: string, i: nat)
    requires AllDigits(s) && |s| > 3 && i < |s| - 3
    ensures (NotWordBoundary(s, i) && GroupsAhead(s, i)) ==
            (NotWordBoundary(s[..|s| - 3], i) && GroupsAhead(s[..|s| - 3], i))
  {
    GroupsAheadOfDigits(s, i);
    GroupsAheadOfDigits(s[..|s| - 3], i);
    hide GroupsAhead;
  }

  lemma {:induction false} InsertSplitsLastGroup(s: string, i: nat)
    requires AllDigits(s) && |s| > 3 && i <= |s| - 3
    ensures InsertSeparators(s, i) == InsertSeparators(s[..|s| - 3], i) + "," + s[|s| - 3..]
    decreases |s| - i
  {
    var n := |s| - 3;
    var p := s[..n];
    if i == n {
      GroupsAheadOfDigits(s, n);
      GroupsAheadOfDigits(p, n);
      InsertInLastGroup(s, n + 1);
      assert s[n..] == [s[n]] + s[n + 1..];
    } else {
      SameCut(s, i);
      InsertSplitsLastGroup(s, i + 1);
    }
    hide GroupsAhead, NotWordBoundary, AllDigits;
  }

  lemma {:induction false} InsertInLastGroup(s: string, i: nat)
    requires AllDigits(s) && |s| - 2 <= i <= |s|
    ensures InsertSeparators(s, i) == s[i..]
    decreases |s| - i
  {
    GroupsAheadOfDigits(s, i);
    if i < |s| {
      InsertInLastGroup(s, i + 1);
      assert s[i..] == [s[i]] + s[i + 1..];
    }
  }

  lemma {:induction false} InsertNothing(s: string, i: nat)
    requires AllDigits(s) && |s| <= 3 && i <= |s|
    ensures InsertSeparators(s, i) == s[i..]
    decreases |s| - i
  {
    GroupsAheadOfDigits(s, i);
    if i < |s| {
      InsertNothing(s, i + 1);
      assert s[i..] == [s[i]] + s[i + 1..];
    }
  }

  /** The regular expression groups digits by three from the right. */
  lemma {:induction false} SeparatorsGroupByThree(s: string)
    requires AllDigits(s)
    ensures AddThousandsSeparators(s) == Grouped(s)
  {
    if |s| <= 3 {
      InsertNothing(s, 0);
    } else {
      InsertSplitsLastGroup(s, 0);
      SeparatorsGroupByThree(s[..|s| - 3]);
    }
  }

  lemma {:induction false} RemoveCommasConcat(a: string, b: string)
    ensures RemoveCommas(a + b) == RemoveCommas(a) + RemoveCommas(b)
  {
    if a == "" {
      assert a + b == b;
    } else {
      assert (a + b)[1..] == a[1..] + b;
      RemoveCommasConcat(a[1..], b);
    }
  }

  lemma {:induction false} RemoveCommasNone(s: string)
    requires ',' !in s
    ensures RemoveCommas(s) == s
  {
    if s != "" {
      RemoveCommasNone(s[1..]);
    }
  }

  lemma {:induction false} GroupedIsOnlyCommas(s: string)
    requires AllDigits(s)
    ensures RemoveCommas(Grouped(s)) == s
  {
    if |s| <= 3 {
      RemoveCommasNone(s);
    } else {
      var front, last := s[..|s| - 3], s[|s| - 3..];
      GroupedIsOnlyCommas(front);
      RemoveCommasNone(last);
      RemoveCommasConcat(Grouped(front) + ",", last);
      RemoveCommasConcat(Grouped(front), ",");
      assert RemoveCommas(",") == "";
      assert front + "" + last == s;
    }
  }

  lemma SeparatorsAreOnlyCommas(s: string)
    requires AllDigits(s)
    ensures RemoveCommas(AddThousandsSeparators(s)) == s
  {
    SeparatorsGroupByThree(s);
    GroupedIsOnlyCommas(s);
  }

  // ----- Padding and stripping zeros -----

  lemma {:induction false} StripTrailingPads(s: string)
    ensures |StripTrailing(s)| <= |s|
    ensures PadEnd(StripTrailing(s), |s|) == s
  {
    if s != "" && s[|s| - 1] == '0' {
      var r := s[..|s| - 1];
      StripTrailingPads(r);
      var t := StripTrailing(r);
      assert s == r + "0";
      assert Zeros(|s| - |t|) == Zeros(|r| - |t|) + "0";
      assert t + Zeros(|s| - |t|) == t + Zeros(|r| - |t|) + "0";
    }
  }

  lemma {:induction false} StripTrailingOfPadEnd(s: string, n: nat)
    requires |s| <= n
    ensures StripTrailing(PadEnd(s, n)) == StripTrailing(s)
    decreases n
  {
    if |s| < n {
      StripTrailingOfPadEnd(s, n - 1);
      var p := PadEnd(s, n);
      assert p == s + Zeros(n - 1 - |s|) + "0";
      assert p[..|p| - 1] == s + Zeros(n - 1 - |s|) == PadEnd(s, n - 1);
    }
  }

  lemma {:induction false} StripTrailingDigits(s: string)
    requires AllDigits(s)
    ensures AllDigits(StripTrailing(s))
  {
    if s != "" && s[|s| - 1] == '0' {
      StripTrailingDigits(s[..|s| - 1]);
    }
  }

  lemma PadStartValue(n: nat, k: nat)
    requires k >= 1 && n < Pow10(k)
    ensures var p := PadStart(Print(n), k); AllDigits(p) && |p| == k && Value(p) == n
  {
    PrintLength(n, k);
    PrintValue(n);
    LeadingZeros(k - |Print(n)|, Print(n));
  }

  lemma PadEndDigits(f: string, k: nat)
    requires AllDigits(f) && |f| <= k
    ensures AllDigits(PadEnd(f, k)) && |PadEnd(f, k)| == k && Value(PadEnd(f, k)) < Pow10(k)
  {
    ValueBound(PadEnd(f, k));
  }

  // ----- What the formatted text is -----

  /** The fraction digits printed for a remainder. */
  function FractionText(fraction: nat, decimals: nat): string {
    if decimals > 0 then StripTrailing(PadStart(Print(fraction), decimals)) else ""
  }

  function PlainText(whole: nat, fraction: nat, decimals: nat): string {
    var f := FractionText(fraction, decimals);
    Print(whole) + (if f == "" then "" else "." + f)
  }

  lemma FractionTextIsDigits(fraction: nat, decimals: nat)
    requires fraction < Pow10(decimals)
    ensures var f := FractionText(fraction, decimals); AllDigits(f) && |f| <= decimals
    ensures var f := FractionText(fraction, decimals);
            AllDigits(PadEnd(f, decimals)) && Value(PadEnd(f, decimals)) == fraction
    ensures FractionText(fraction, decimals) == "" ==> fraction == 0
  {
    if decimals > 0 {
      PadStartValue(fraction, decimals);
      var p := PadStart(Print(fraction), decimals);
      StripTrailingDigits(p);
      StripTrailingPads(p);
      hide PadStart, Print, StripTrailing, Pow10, Value;
      if StripTrailing(p) == "" {
        assert p == "" + Zeros(decimals) == Zeros(decimals);
        ValueZeros(decimals);
      }
    } else {
      ValueZeros(0);
    }
  }

  /** The text before the symbol, with the division done and the digits grouped. */
  lemma FormatShape(v: int, decimals: nat)
    ensures var abs := if v < 0 then -v else v;
            var f := FractionText(Rem(abs, Pow10(decimals)), decimals);
            var head := (if v < 0 then "-" else "") + AddThousandsSeparators(Print(Quot(abs, Pow10(decimals))));
            FormatTokenAmount(v, decimals, None) == if f == "" then head else head + "." + f
  {
    hide AddThousandsSeparators, Print, Quot, Rem, Pow10, StripTrailing, PadStart;
  }

  lemma FormatWithoutCommas(v: int, decimals: nat)
    ensures var abs := if v < 0 then -v else v;
            RemoveCommas(FormatTokenAmount(v, decimals, None)) ==
            (if v < 0 then "-" else "") +
            PlainText(Quot(abs, Pow10(decimals)), Rem(abs, Pow10(decimals)), decimals)
  {
    var abs := if v < 0 then -v else v;
    var sign := if v < 0 then "-" else "";
    var whole, fraction := Quot(abs, Pow10(decimals)), Rem(abs, Pow10(decimals));
    FormatShape(v, decimals);
    PrintValue(whole);
    FractionTextIsDigits(fraction, decimals);
    hide AddThousandsSeparators, Print, Quot, Rem, Pow10, FractionText, FormatTokenAmount, RemoveCommas, Value;
    CommasInParts(sign, Print(whole), FractionText(fraction, decimals));
  }

  lemma CommasInParts(sign: string, w: string, f: string)
    requires ',' !in sign && AllDigits(w) && AllDigits(f)
    ensures RemoveCommas(sign + AddThousandsSeparators(w)) == sign + w
    ensures RemoveCommas(sign + AddThousandsSeparators(w) + "." + f) == sign + (w + ("." + f))
  {
    SeparatorsAreOnlyCommas(w);
    assert ',' !in f;
    hide *;
    var g := AddThousandsSeparators(w);
    RemoveCommasPrefix(sign, g);
    RemoveCommasSuffix(sign + g, ".");
    RemoveCommasSuffix(sign + g + ".", f);
    Reassociate(sign, w, ".", f);
  }

  lemma Reassociate(a: string, b: string, c: string, d: string)
    ensures a + b + c + d == a + (b + (c + d))
  {
  }

  lemma RemoveCommasSuffix(s: string, t: string)
    requires ',' !in t
    ensures RemoveCommas(s + t) == RemoveCommas(s) + t
  {
    RemoveCommasConcat(s, t);
    RemoveCommasNone(t);
  }

  lemma RemoveCommasPrefix(s: string, t: string)
    requires ',' !in s
    ensures RemoveCommas(s + t) == s + RemoveCommas(t)
  {
    RemoveCommasConcat(s, t);
    RemoveCommasNone(s);
  }

  // ----- Recognising -----

  lemma {:induction false} DigitRunIs(a: string, b: string)
    requires AllDigits(a) && (b == "" || !IsDigit(b[0]))
    ensures DigitRun(a + b) == |a|
  {
    if a == "" {
      assert a + b == b;
    } else {
      assert (a + b)[1..] == a[1..] + b;
      DigitRunIs(a[1..], b);
    }
  }

  lemma MatchOf(w: string, f: string)
    requires AllDigits(w) && w != "" && AllDigits(f)
    ensures MatchDecimal(w + (if f == "" then "" else "." + f)) == Some(Decimal(w, f))
  {
    var b := if f == "" then "" else "." + f;
    DigitRunIs(w, b);
    DigitRunIs(f, "");
    assert f + "" == f && w + "" == w;
    if f != "" {
      var s := w + b;
      assert s[|w| + 1..] == f && s[..|w|] == w;
    }
  }

  lemma TrimNothing(s: string)
    requires s != "" && !IsSpace(s[0]) && !IsSpace(s[|s| - 1])
    ensures Trim(s) == s
  {
  }

  lemma PlainTextIsParsed(whole: nat, fraction: nat, decimals: nat)
    requires fraction < Pow10(decimals)
    ensures var d := Decimal(Print(whole), FractionText(fraction, decimals));
            MatchDecimal(PlainText(whole, fraction, decimals)) == Some(d) && |d.frac| <= decimals &&
            BaseUnits(d, decimals) == whole * Pow10(decimals) + fraction
    ensures Trim(PlainText(whole, fraction, decimals)) == PlainText(whole, fraction, decimals) != ""
  {
    var w, f := Print(whole), FractionText(fraction, decimals);
    PrintValue(whole);
    FractionTextIsDigits(fraction, decimals);
    MatchOf(w, f);
    PlainTextEnds(w, f);
  }

  lemma PlainTextEnds(w: string, f: string)
    requires AllDigits(w) && w != "" && AllDigits(f)
    ensures var s := w + (if f == "" then "" else "." + f); s != "" && !IsSpace(s[0]) && !IsSpace(s[|s| - 1]) && Trim(s) == s
  {
    var s := w + (if f == "" then "" else "." + f);
    assert s[0] == w[0];
    assert s[|s| - 1] == if f == "" then w[|w| - 1] else f[|f| - 1];
    TrimNothing(s);
  }

  lemma ParseOfPlainText(whole: nat, fraction: nat, decimals: nat, v: int, max: int)
    requires decimals <= 255 && fraction < Pow10(decimals)
    requires v == whole * Pow10(decimals) + fraction && 0 < v <= max
    ensures ParseTokenAmount(PlainText(whole, fraction, decimals), Whole(decimals), max) == Ok(v)
  {
    PlainTextIsParsed(whole, fraction, decimals);
  }

  // ----- The texts that are read as a decimal -----

  predicate AllSpace(s: string) { forall i :: 0 <= i < |s| ==> IsSpace(s[i]) }

  /** Digits, with a point and more digits behind them or not. */
  function DecimalText(d: Decimal): string { d.whole + (if d.frac == "" then "" else "." + d.frac) }

  /** The text is the decimal, between white space. */
  ghost predicate Reads(input: string, d: Decimal) {
    && AllDigits(d.whole) && d.whole != "" && AllDigits(d.frac)
    && exists a, b :: AllSpace(a) && AllSpace(b) && input == a + (DecimalText(d) + b)
  }

  lemma {:induction false} TrimStartCuts(s: string) returns (a: string)
    ensures AllSpace(a) && s == a + TrimStart(s)
  {
    a := "";
    if s != "" && IsSpace(s[0]) {
      var rest := TrimStartCuts(s[1..]);
      a := [s[0]] + rest;
      assert s == [s[0]] + s[1..];
    }
  }

  lemma {:induction false} TrimEndCuts(s: string) returns (b: string)
    ensures AllSpace(b) && s == TrimEnd(s) + b
  {
    b := "";
    if s != "" && IsSpace(s[|s| - 1]) {
      var front := TrimEndCuts(s[..|s| - 1]);
      b := front + [s[|s| - 1]];
      assert s == s[..|s| - 1] + [s[|s| - 1]];
    }
  }

  lemma {:induction false} TrimStartDrops(a: string, s: string)
    requires AllSpace(a)
    ensures TrimStart(a + s) == TrimStart(s)
  {
    if a == "" {
      assert a + s == s;
    } else {
      assert (a + s)[1..] == a[1..] + s;
      TrimStartDrops(a[1..], s);
    }
  }

  lemma {:induction false} TrimEndDrops(s: string, b: string)
    requires AllSpace(b)
    ensures TrimEnd(s + b) == TrimEnd(s)
  {
    if b == "" {
      assert s + b == s;
    } else {
      assert (s + b)[..|s + b| - 1] == s + b[..|b| - 1];
      TrimEndDrops(s, b[..|b| - 1]);
    }
  }

  lemma MatchSpells(s: string)
    ensures MatchDecimal(s).Some? ==> s == DecimalText(MatchDecimal(s).value)
  {
  }

  /** The parser's match, after trimming, is exactly the decimal the text reads as. */
  lemma ReadsExactly(input: string, d: Decimal)
    ensures Reads(input, d) <==> MatchDecimal(Trim(input)) == Some(d)
  {
    if Reads(input, d) {
      var a, b :| AllSpace(a) && AllSpace(b) && input == a + (DecimalText(d) + b);
      var t := DecimalText(d);
      PlainTextEnds(d.whole, d.frac);
      MatchOf(d.whole, d.frac);
      TrimStartDrops(a, t + b);
      TrimEndDrops(t, b);
      assert (t + b)[0] == t[0] && TrimStart(t + b) == t + b;
      assert TrimEnd(t) == t;
    }
    if MatchDecimal(Trim(input)) == Some(d) {
      var a := TrimStartCuts(input);
      var b := TrimEndCuts(TrimStart(input));
      MatchSpells(Trim(input));
      assert input == a + (DecimalText(d) + b);
    }
  }

  // ----- Main results -----

  /** Formatting and parsing again (commas removed) gives the amount back. */
  lemma ParseOfFormat(v: int, decimals: nat, max: int)
    requires decimals <= 255 && 0 < v <= max
    ensures ParseTokenAmount(RemoveCommas(FormatTokenAmount(v, decimals, None)), Whole(decimals), max) == Ok(v)
  {
    FormatWithoutCommas(v, decimals);
    var whole, fraction := Quot(v, Pow10(decimals)), Rem(v, Pow10(decimals));
    QuotRem(v, Pow10(decimals));
    ParseOfPlainText(whole, fraction, decimals, v, max);
    assert "" + PlainText(whole, fraction, decimals) == PlainText(whole, fraction, decimals);
  }

  /** The exact rational value of the text, scaled by 10^decimals: no padding, no splitting. */
  function ScaledValue(d: Decimal, decimals: nat): int
    requires AllDigits(d.whole) && AllDigits(d.frac) && |d.frac| <= decimals
  {
    assert AllDigits(d.whole + d.frac);
    Value(d.whole + d.frac) * Pow10(decimals - |d.frac|)
  }

  /** The text reads as an amount of at most `decimals` fractional digits. */
  ghost predicate ReadsWithin(input: string, d: Decimal, decimals: nat) { Reads(input, d) && |d.frac| <= decimals }

  predicate ValidDecimals(decimals: Decimals) { decimals.Whole? && 0 <= decimals.n <= 255 }

  /** Exactly which texts are accepted, and with which value. */
  lemma AcceptedExactly(input: string, decimals: Decimals, max: int, v: int)
    ensures ParseTokenAmount(input, decimals, max) == Ok(v) <==>
            && ValidDecimals(decimals)
            && exists d :: ReadsWithin(input, d, decimals.n) && v == ScaledValue(d, decimals.n) && 0 < v <= max
  {
    var m := ReadOrNot(input);
    assert Trim(input) == "" ==> MatchDecimal(Trim(input)).None?;
    hide BaseUnits, Pow10, Value, MatchDecimal, Trim, ScaledValue, Reads;
    if ValidDecimals(decimals) && m.Some? && |m.value.frac| <= decimals.n {
      BaseUnitsIsScaled(m.value, decimals.n);
      assert ReadsWithin(input, m.value, decimals.n);
    }
  }

  /** What the text reads as, if anything; the parser finds it. */
  lemma ReadOrNot(input: string) returns (m: Option<Decimal>)
    ensures m == MatchDecimal(Trim(input))
    ensures forall d :: Reads(input, d) <==> m == Some(d)
  {
    m := MatchDecimal(Trim(input));
    forall d
      ensures Reads(input, d) <==> m == Some(d)
    {
      ReadsExactly(input, d);
    }
  }

  lemma {:induction false} TrimsToNothing(s: string)
    ensures Trim(s) == "" <==> forall i :: 0 <= i < |s| ==> IsSpace(s[i])
  {
    if s == "" {
    } else if IsSpace(s[0]) {
      TrimsToNothing(s[1..]);
      assert s == [s[0]] + s[1..];
    } else {
      TrimEndKeeps(s);
    }
  }

  lemma {:induction false} TrimEndKeeps(s: string)
    requires s != "" && !IsSpace(s[0])
    ensures TrimEnd(s) != ""
  {
    if IsSpace(s[|s| - 1]) {
      TrimEndKeeps(s[..|s| - 1]);
    }
  }

  lemma {:induction false} ValueIsZero(s: string)
    requires AllDigits(s)
    ensures Value(s) == 0 <==> forall i :: 0 <= i < |s| ==> s[i] == '0'
  {
    if s != "" {
      var front, last := s[..|s| - 1], s[|s| - 1];
      ValueIsZero(front);
      assert s == front + [last];
    }
  }

  /** Which error is reported, for which texts. */
  lemma RejectedExactly(input: string, decimals: Decimals, max: int)
    ensures var r := ParseTokenAmount(input, decimals, max);
            && (r == Err(InvalidDecimals) <==> !ValidDecimals(decimals))
            && (ValidDecimals(decimals) ==>
                  && (r == Err(Empty) <==> AllSpace(input))
                  && (r == Err(NotANumber) <==> !AllSpace(input) && !exists d :: Reads(input, d))
                  && (r == Err(TooManyFractionalDigits) <==> exists d :: Reads(input, d) && |d.frac| > decimals.n)
                  && (r == Err(NotPositive) <==> exists d :: ReadsWithin(input, d, decimals.n) && IsZero(d))
                  && (r == Err(ExceedsMax) <==>
                        exists d :: ReadsWithin(input, d, decimals.n) && ScaledValue(d, decimals.n) > max && !IsZero(d)))
  {
    TrimsToNothing(input);
    var m := ReadOrNot(input);
    assert Trim(input) == "" ==> MatchDecimal(Trim(input)).None?;
    hide Trim, MatchDecimal, BaseUnits, ScaledValue, Reads;
    if ValidDecimals(decimals) && m.Some? {
      var d := m.value;
      assert Reads(input, d);
      if |d.frac| <= decimals.n {
        BaseUnitsIsScaled(d, decimals.n);
        ScaledIsZero(d, decimals.n);
        assert ReadsWithin(input, d, decimals.n);
      }
    }
  }

  /** Every digit is a zero. */
  predicate IsZero(d: Decimal) { forall i :: 0 <= i < |d.whole + d.frac| ==> (d.whole + d.frac)[i] == '0' }

  lemma ScaledIsZero(d: Decimal, decimals: nat)
    requires AllDigits(d.whole) && AllDigits(d.frac) && |d.frac| <= decimals
    ensures ScaledValue(d, decimals) >= 0 && (ScaledValue(d, decimals) == 0 <==> IsZero(d))
  {
    ValueIsZero(d.whole + d.frac);
    hide Value, Pow10;
    if Value(d.whole + d.frac) >= 1 {
      AtLeast(Value(d.whole + d.frac), Pow10(decimals - |d.frac|));
    }
  }

  lemma BaseUnitsIsScaled(d: Decimal, decimals: nat)
    requires AllDigits(d.whole) && AllDigits(d.frac) && |d.frac| <= decimals
    ensures BaseUnits(d, decimals) == ScaledValue(d, decimals)
  {
    var k := decimals - |d.frac|;
    ValueConcat(d.whole, d.frac);
    TrailingZeros(d.frac, k);
    Pow10Add(|d.frac|, k);
    assert d.frac + Zeros(0) == d.frac;
    assert PadEnd(d.frac, decimals) == d.frac + Zeros(k);
    assert d.frac == "" ==> Value(d.frac) == 0;
    hide Pow10, Value, Zeros;
    ScaledSum(Value(d.whole + d.frac), Value(d.whole), Pow10(|d.frac|), Pow10(k), Pow10(decimals), Value(d.frac));
  }

  lemma ScaledSum(x: nat, a: nat, p: nat, q: nat, r: nat, b: nat)
    requires x == a * p + b && r == p * q
    ensures x * q == a * r + b * q
  {
  }

  lemma {:induction false} Pow10Add(a: nat, b: nat)
    ensures Pow10(a + b) == Pow10(a) * Pow10(b)
  {
    if a != 0 {
      Pow10Add(a - 1, b);
      assert Pow10(a + b) == 10 * Pow10(a - 1 + b);
    }
  }

  /** Parsing and formatting again gives the text without white space and redundant zeros. */
  lemma FormatOfParse(input: string, decimals: nat, max: int, v: int, d: Decimal)
    requires ParseTokenAmount(input, Whole(decimals), max) == Ok(v) && Reads(input, d)
    ensures RemoveCommas(FormatTokenAmount(v, decimals, None)) == CanonicalText(d)
  {
    ReadsExactly(input, d);
    hide Pow10, Value, FormatTokenAmount, Print, StripTrailing, StripLeading, MatchDecimal, Trim, Quot, Rem, FractionText,
      RemoveCommas, Reads;
    FormatWithoutCommas(v, decimals);
    var fraction := PaddedFraction(d.frac, decimals);
    QuotRemUnique(Value(d.whole), Pow10(decimals), fraction);
    PrintOfValue(d.whole);
    var t := PlainText(Value(d.whole), fraction, decimals);
    assert "" + t == t;
  }

  /** The padded fraction digits as a number, and the digits printed for that number. */
  lemma PaddedFraction(f: string, decimals: nat) returns (fraction: nat)
    requires AllDigits(f) && |f| <= decimals
    ensures fraction < Pow10(decimals)
    ensures AllDigits(PadEnd(f, decimals)) && fraction == (if f == "" then 0 else Value(PadEnd(f, decimals)))
    ensures FractionText(fraction, decimals) == StripTrailing(f)
  {
    PadEndDigits(f, decimals);
    var pad := PadEnd(f, decimals);
    fraction := Value(pad);
    if f == "" {
      ValueZeros(decimals);
      assert pad == Zeros(decimals);
    }
    StripTrailingOfPadEnd(f, decimals);
    if decimals > 0 {
      PadStartValue(fraction, decimals);
      ValueInjective(PadStart(Print(fraction), decimals), pad);
    }
  }

  lemma {:induction false} StripTrailingIsFinal(s: string)
    ensures StripTrailing(s) == "" || StripTrailing(s)[|StripTrailing(s)| - 1] != '0'
  {
    if s != "" && s[|s| - 1] == '0' {
      StripTrailingIsFinal(s[..|s| - 1]);
    }
  }

  /** A decimal written without redundant zeros. */
  predicate IsCanonical(d: Decimal) {
    && AllDigits(d.whole) && d.whole != "" && AllDigits(d.frac)
    && (|d.whole| > 1 ==> d.whole[0] != '0')
    && (d.frac == "" || d.frac[|d.frac| - 1] != '0')
  }

  /** The one decimal whose value, scaled by 10^decimals, is `n`. */
  lemma DecimalOf(n: nat, decimals: nat) returns (d: Decimal)
    ensures IsCanonical(d) && |d.frac| <= decimals && ScaledValue(d, decimals) == n
    ensures d.whole == Print(Quot(n, Pow10(decimals))) && d.frac == FractionText(Rem(n, Pow10(decimals)), decimals)
  {
    var w, r := Quot(n, Pow10(decimals)), Rem(n, Pow10(decimals));
    d := Decimal(Print(w), FractionText(r, decimals));
    QuotRem(n, Pow10(decimals));
    PrintValue(w);
    PrintCanonical(w);
    FractionTextIsDigits(r, decimals);
    if decimals > 0 {
      StripTrailingIsFinal(PadStart(Print(r), decimals));
    }
    PlainTextIsParsed(w, r, decimals);
    hide Print, Quot, Rem, Pow10, StripTrailing, PadStart, Value, PlainText, Trim, MatchDecimal, StripLeading, ScaledValue, BaseUnits;
    BaseUnitsIsScaled(d, decimals);
  }

  /** The printed text, part by part: a minus sign exactly for negative amounts; the whole digits grouped by three from the
      right; a point and the fraction digits exactly if there are any; a space and the symbol exactly if there is one. The
      digits are those of the decimal whose exact value, scaled by 10^decimals, is the amount, without redundant zeros. */
  lemma FormatExactly(v: int, decimals: nat, symbol: Option<string>) returns (d: Decimal)
    ensures IsCanonical(d) && |d.frac| <= decimals && ScaledValue(d, decimals) == if v < 0 then -v else v
    ensures FormatTokenAmount(v, decimals, symbol) ==
            (if v < 0 then "-" else "") + Grouped(d.whole) + (if d.frac == "" then "" else "." + d.frac) +
            (if symbol.None? || symbol.value == "" then "" else " " + symbol.value)
  {
    hide *;
    d := DecimalOf(if v < 0 then -v else v, decimals);
    FormatShape(v, decimals);
    SymbolIsAppended(v, decimals, symbol);
    CanonicalIsDigits(d);
    SeparatorsGroupByThree(d.whole);
    var head := (if v < 0 then "-" else "") + Grouped(d.whole);
    PartsOfText(head, d.frac, if symbol.None? || symbol.value == "" then "" else " " + symbol.value);
  }

  lemma CanonicalIsDigits(d: Decimal)
    requires IsCanonical(d)
    ensures AllDigits(d.whole)
  {
  }

  lemma PartsOfText(head: string, f: string, tail: string)
    ensures (if f == "" then head else head + "." + f) + tail == head + (if f == "" then "" else "." + f) + tail
    ensures tail == "" ==> head + (if f == "" then "" else "." + f) + tail == if f == "" then head else head + "." + f
  {
    assert head + "." + f == head + ("." + f);
    assert head + "" == head;
  }

  lemma SymbolIsAppended(v: int, decimals: nat, symbol: Option<string>)
    ensures FormatTokenAmount(v, decimals, symbol) ==
            if symbol.None? || symbol.value == "" then FormatTokenAmount(v, decimals, None)
            else FormatTokenAmount(v, decimals, None) + (" " + symbol.value)
  {
    hide AddThousandsSeparators, Print, Quot, Rem, Pow10, StripTrailing, PadStart;
  }

  /** For fixed decimals and symbol the text determines the amount: all integers, negative ones included. */
  lemma FormatInjective(v: int, w: int, decimals: nat, symbol: Option<string>)
    requires FormatTokenAmount(v, decimals, symbol) == FormatTokenAmount(w, decimals, symbol)
    ensures v == w
  {
    SameNumber(v, w, decimals, symbol);
    FormatWithoutCommas(v, decimals);
    FormatWithoutCommas(w, decimals);
    var va, wa := if v < 0 then -v else v, if w < 0 then -w else w;
    var b := Pow10(decimals);
    QuotRem(va, b);
    QuotRem(wa, b);
    PlainTextIsParsed(Quot(va, b), Rem(va, b), decimals);
    PlainTextIsParsed(Quot(wa, b), Rem(wa, b), decimals);
    SignApart(v < 0, w < 0, PlainText(Quot(va, b), Rem(va, b), decimals), PlainText(Quot(wa, b), Rem(wa, b), decimals));
  }

  lemma SameNumber(v: int, w: int, decimals: nat, symbol: Option<string>)
    requires FormatTokenAmount(v, decimals, symbol) == FormatTokenAmount(w, decimals, symbol)
    ensures FormatTokenAmount(v, decimals, None) == FormatTokenAmount(w, decimals, None)
  {
    var a, b := FormatTokenAmount(v, decimals, None), FormatTokenAmount(w, decimals, None);
    if symbol.Some? && symbol.value != "" {
      var tail := " " + symbol.value;
      assert FormatTokenAmount(v, decimals, symbol) == a + tail;
      assert FormatTokenAmount(w, decimals, symbol) == b + tail;
      assert |a| == |b|;
      assert a == (a + tail)[..|a|] && b == (b + tail)[..|b|];
    }
  }

  lemma SignApart(neg1: bool, neg2: bool, s: string, t: string)
    requires (if neg1 then "-" else "") + s == (if neg2 then "-" else "") + t
    requires MatchDecimal(s).Some? && MatchDecimal(t).Some?
    ensures neg1 == neg2 && s == t
  {
    var l, r := (if neg1 then "-" else "") + s, (if neg2 then "-" else "") + t;
    assert IsDigit(s[..DigitRun(s)][0]) && IsDigit(t[..DigitRun(t)][0]);
    assert neg1 <==> l[0] == '-';
    assert neg2 <==> r[0] == '-';
    assert s == l[|l| - |s|..] && t == r[|r| - |t|..];
  }
}
