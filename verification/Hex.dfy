/** Hexadecimal text (packages/chain/scale/src/index.ts:65-79). */
module Hex {
  import opened Prelude
  import opened Scale

  const HEX_DIGITS: string := "0123456789abcdef"

  function HexChar(d: nat): char
    requires d < 16
  {
    HEX_DIGITS[d]
  }

  function HexDigit(c: char): Option<nat> {
    if '0' <= c <= '9' then Some(c as int - '0' as int)
    else if 'a' <= c <= 'f' then Some(c as int - 'a' as int + 10)
    else if 'A' <= c <= 'F' then Some(c as int - 'A' as int + 10)
    else None
  }

  /** `n.toString(16)`. */
  function ToString16(n: nat): (s: string)
    ensures |s| >= 1
  {
    if n < 16 then [HexChar(n)] else ToString16(n / 16) + [HexChar(n % 16)]
  }

  /** `s.padStart(2, "0")`. */
  function PadStart2(s: string): string { if |s| < 2 then seq(2 - |s|, _ => '0') + s else s }

  function HexOf(bytes: seq<byte>): string {
    if bytes == [] then "" else HexOf(bytes[..|bytes| - 1]) + PadStart2(ToString16(bytes[|bytes| - 1]))
  }

  method ToHex(bytes: seq<byte>) returns (hex: string)
    ensures hex == "0x" + HexOf(bytes)
  {
    var s := "";
    for i := 0 to |bytes|
      invariant s == HexOf(bytes[..i])
    {
      assert bytes[..i + 1][..i] == bytes[..i];
      s := s + PadStart2(ToString16(bytes[i]));
    }
    assert bytes[..|bytes|] == bytes;
    hex := "0x" + s;
  }

  function SkipSpace(s: string): string {
    if s != "" && IsSpace(s[0]) then SkipSpace(s[1..]) else s
  }

  function HexPrefix(s: string, value: nat): nat {
    if s != "" && HexDigit(s[0]).Some? then HexPrefix(s[1..], 16 * value + HexDigit(s[0]).value) else value
  }

  /** `Number.parseInt(s, 16)`; None is NaN. */
  function ParseInt16(s: string): Option<int> {
    var t := SkipSpace(s);
    var negative := t != "" && t[0] == '-';
    var u := if t != "" && t[0] in {'-', '+'} then t[1..] else t;
    var w := if |u| >= 2 && u[0] == '0' && u[1] in {'x', 'X'} then u[2..] else u;
    if w == "" || HexDigit(w[0]).None? then None
    else
      var v: int := HexPrefix(w, 0);
      Some(if negative then -v else v)
  }

  /** What the byte array keeps of a parsed number: NaN becomes 0. */
  function StoredByte(n: Option<int>): byte { if n.None? then 0 else ToUint8(n.value) }

  function HexBody(hex: string): string { if "0x" <= hex then hex[2..] else hex }

  function BytesOf(h: string): seq<byte> {
    seq(|h| / 2, i requires 0 <= i < |h| / 2 => StoredByte(ParseInt16(h[i * 2..i * 2 + 2])))
  }

  method FromHex(hex: string) returns (r: Result<seq<byte>, ScaleError>)
    ensures r == if |HexBody(hex)| % 2 != 0 then Err(OddLength) else Ok(BytesOf(HexBody(hex)))
  {
    var h := if "0x" <= hex then hex[2..] else hex;
    if |h| % 2 != 0 {
      return Err(OddLength);
    }
    var out := new byte[|h| / 2](_ => 0);
    for i := 0 to out.Length
      invariant forall k :: 0 <= k < i ==> out[k] == StoredByte(ParseInt16(h[k * 2..k * 2 + 2]))
    {
      out[i] := StoredByte(ParseInt16(h[i * 2..i * 2 + 2]));
    }
    assert out[..] == BytesOf(h);
    r := Ok(out[..]);
  }

  predicate AllHex(s: string) { forall i :: 0 <= i < |s| ==> HexDigit(s[i]).Some? }

  function LowerHex(c: char): char {
    if 'A' <= c <= 'Z' then (c as int + 32) as char else c
  }

  function Lower(s: string): string { seq(|s|, i requires 0 <= i < |s| => LowerHex(s[i])) }

  lemma HexCharIs(d: nat)
    requires d < 16
    ensures HexDigit(HexChar(d)) == Some(d) && LowerHex(HexChar(d)) == HexChar(d)
  {
  }

  lemma HexDigitIs(c: char)
    requires HexDigit(c).Some?
    ensures HexDigit(c).value < 16 && LowerHex(c) == HexChar(HexDigit(c).value)
  {
  }

  lemma ByteText(b: byte)
    ensures PadStart2(ToString16(b)) == [HexChar(b / 16), HexChar(b % 16)]
  {
    if b < 16 {
      assert PadStart2(ToString16(b)) == ['0'] + [HexChar(b)];
    } else {
      assert ToString16(b / 16) == [HexChar(b / 16)];
    }
  }

  /** A hex digit is none of the characters `parseInt` treats specially. */
  lemma HexDigitIsPlain(c: char)
    requires HexDigit(c).Some?
    ensures !IsSpace(c) && c !in {'-', '+'} && c !in {'x', 'X'}
  {
  }

  lemma HexPrefixPair(s: string)
    requires |s| == 2 && AllHex(s)
    ensures HexPrefix(s, 0) == 16 * HexDigit(s[0]).value + HexDigit(s[1]).value
  {
    hide HexDigit;
    var x := HexDigit(s[0]).value;
    assert s[1..][1..] == "";
    assert HexPrefix(s, 0) == HexPrefix(s[1..], x) == HexPrefix("", 16 * x + HexDigit(s[1]).value);
  }

  /** Two hex digits are read as one byte. */
  lemma ParsePair(s: string)
    requires |s| == 2 && AllHex(s)
    ensures StoredByte(ParseInt16(s)) == 16 * HexDigit(s[0]).value + HexDigit(s[1]).value
  {
    HexDigitIs(s[0]);
    HexDigitIs(s[1]);
    HexDigitIsPlain(s[0]);
    HexDigitIsPlain(s[1]);
    HexPrefixPair(s);
    hide HexDigit, HexPrefix, IsSpace, HexChar, LowerHex;
    assert SkipSpace(s) == s;
    assert ParseInt16(s) == Some(16 * HexDigit(s[0]).value + HexDigit(s[1]).value);
  }

  lemma {:induction false} HexOfLength(bytes: seq<byte>)
    ensures |HexOf(bytes)| == 2 * |bytes|
  {
    if bytes != [] {
      HexOfLength(bytes[..|bytes| - 1]);
      ByteText(bytes[|bytes| - 1]);
    }
  }

  /** The two characters of byte `i`. */
  lemma {:induction false} HexOfAt(bytes: seq<byte>, i: nat)
    requires i < |bytes|
    ensures |HexOf(bytes)| == 2 * |bytes|
    ensures HexOf(bytes)[2 * i] == HexChar(bytes[i] / 16) && HexOf(bytes)[2 * i + 1] == HexChar(bytes[i] % 16)
  {
    var front, last := bytes[..|bytes| - 1], bytes[|bytes| - 1];
    HexOfLength(bytes);
    HexOfLength(front);
    ByteText(last);
    hide HexChar, ToString16, PadStart2;
    if i < |front| {
      HexOfAt(front, i);
    }
  }

  /** One leading `0x` is dropped, and nothing else: the digits are the text behind it, or the whole text without it. */
  lemma HexBodyExactly(hex: string, h: string)
    ensures HexBody(hex) == h <==> hex == "0x" + h || (hex == h && !("0x" <= hex))
  {
    if "0x" <= hex {
      assert hex == "0x" + hex[2..];
    }
    assert ("0x" + h)[2..] == h;
  }

  /** `fromHex` undoes `toHex` for every byte array. */
  lemma FromHexOfToHex(bytes: seq<byte>)
    ensures HexBody("0x" + HexOf(bytes)) == HexOf(bytes) && |HexOf(bytes)| % 2 == 0
    ensures BytesOf(HexOf(bytes)) == bytes
  {
    HexOfLength(bytes);
    hide HexOf;
    var h := HexOf(bytes);
    forall i | 0 <= i < |bytes|
      ensures StoredByte(ParseInt16(h[i * 2..i * 2 + 2])) == bytes[i]
    {
      HexOfAt(bytes, i);
      PairBack(bytes[i], h[i * 2..i * 2 + 2]);
    }
    hide StoredByte, ParseInt16;
  }

  lemma PairBack(b: byte, s: string)
    requires s == [HexChar(b / 16), HexChar(b % 16)]
    ensures StoredByte(ParseInt16(s)) == b
  {
    HexCharIs(b / 16);
    HexCharIs(b % 16);
    ParsePair(s);
    hide *;
  }

  lemma TextIsHex(d: nat, c: char)
    requires d < 16
    ensures HexChar(d) == LowerHex(c) ==> HexDigit(c).Some?
  {
    HexCharIs(d);
    hide HexChar;
  }

  /** The two characters of a pair of hex digits read and printed again. */
  lemma PairText(p: string)
    requires |p| == 2 && AllHex(p)
    ensures var b := StoredByte(ParseInt16(p));
            HexChar(b / 16) == LowerHex(p[0]) && HexChar(b % 16) == LowerHex(p[1])
  {
    ParsePair(p);
    HexDigitIs(p[0]);
    HexDigitIs(p[1]);
    hide HexChar, HexDigit, ParseInt16, StoredByte, LowerHex, AllHex;
    Nibbles(HexDigit(p[0]).value, HexDigit(p[1]).value);
  }

  lemma Nibbles(x: nat, y: nat)
    requires y < 16
    ensures (16 * x + y) / 16 == x && (16 * x + y) % 16 == y
  {
  }

  /** One pair read and printed: it comes back lower-cased when it is hex, and only hex can come back. */
  lemma PairThereAndBack(p: string, b: byte)
    requires |p| == 2 && b == StoredByte(ParseInt16(p))
    ensures AllHex(p) ==> HexChar(b / 16) == LowerHex(p[0]) && HexChar(b % 16) == LowerHex(p[1])
    ensures HexChar(b / 16) == LowerHex(p[0]) ==> HexDigit(p[0]).Some?
    ensures HexChar(b % 16) == LowerHex(p[1]) ==> HexDigit(p[1]).Some?
  {
    hide *;
    TextIsHex(b / 16, p[0]);
    TextIsHex(b % 16, p[1]);
    if AllHex(p) {
      PairText(p);
    }
  }

  lemma CharBack(h: string, i: nat, t: string)
    requires |h| % 2 == 0 && 2 * i + 1 < |h| == |t| && t == HexOf(BytesOf(h))
    ensures AllHex(h) ==> t[2 * i] == LowerHex(h[2 * i]) && t[2 * i + 1] == LowerHex(h[2 * i + 1])
    ensures t[2 * i] == LowerHex(h[2 * i]) ==> HexDigit(h[2 * i]).Some?
    ensures t[2 * i + 1] == LowerHex(h[2 * i + 1]) ==> HexDigit(h[2 * i + 1]).Some?
  {
    hide HexOf, ParseInt16, StoredByte, HexChar, HexDigit, LowerHex;
    var b, p := BytesOf(h), h[i * 2..i * 2 + 2];
    assert |b| == |h| / 2 && b[i] == StoredByte(ParseInt16(p));
    hide BytesOf;
    HexOfAt(b, i);
    PairThereAndBack(p, b[i]);
  }

  /** The other way round, the lower-cased text comes back exactly when every character is a hex digit. */
  lemma ToHexOfFromHex(h: string)
    requires |h| % 2 == 0
    ensures HexOf(BytesOf(h)) == Lower(h) <==> AllHex(h)
  {
    hide HexOf, HexDigit, LowerHex;
    var t := HexOf(BytesOf(h));
    HexOfLength(BytesOf(h));
    assert |t| == |h|;
    forall j | 0 <= j < |h|
      ensures AllHex(h) ==> t[j] == LowerHex(h[j])
      ensures t[j] == LowerHex(h[j]) ==> HexDigit(h[j]).Some?
    {
      assert j == 2 * (j / 2) || j == 2 * (j / 2) + 1;
      CharBack(h, j / 2, t);
    }
    hide BytesOf;
    if AllHex(h) {
      assert t == Lower(h);
    }
    if t == Lower(h) {
      forall j | 0 <= j < |h|
        ensures HexDigit(h[j]).Some?
      {
        assert Lower(h)[j] == LowerHex(h[j]);
      }
    }
  }

  // ----- What `fromHex` makes of any two characters -----

  /** The byte any two characters are read as; no pair is refused. Two hex digits give their value; one behind white space
      or a sign, or before anything else, counts alone, a negative one modulo 256; everything else gives zero. */
  lemma PairExactly(p: string)
    requires |p| == 2
    ensures StoredByte(ParseInt16(p)) as int ==
            var first, second := HexDigit(p[0]), HexDigit(p[1]);
            if first.Some? && second.Some? then 16 * first.value + second.value
            else if first.Some? then first.value
            else if (IsSpace(p[0]) || p[0] == '+') && second.Some? then second.value
            else if p[0] == '-' && second.Some? then (256 - second.value) % 256
            else 0
  {
    if HexDigit(p[0]).Some? {
      DigitFirst(p);
    } else {
      DigitSecond(p);
    }
    hide *;
  }

  lemma DigitFirst(p: string)
    requires |p| == 2 && HexDigit(p[0]).Some?
    ensures StoredByte(ParseInt16(p)) as int ==
            if HexDigit(p[1]).Some? then 16 * HexDigit(p[0]).value + HexDigit(p[1]).value else HexDigit(p[0]).value
  {
    HexRun(p);
    HexDigitIsPlain(p[0]);
    HexDigitIs(p[0]);
    if HexDigit(p[1]).Some? {
      ParsePair(p);
    }
    hide HexDigit, HexPrefix, HexChar, LowerHex, IsSpace;
    assert SkipSpace(p) == p;
    if p[0] == '0' && p[1] in {'x', 'X'} {
      ZeroIsZero();
    }
  }

  lemma ZeroIsZero()
    ensures HexDigit('0') == Some(0) && HexDigit('x').None? && HexDigit('X').None?
  {
  }

  lemma DigitSecond(p: string)
    requires |p| == 2 && HexDigit(p[0]).None?
    ensures StoredByte(ParseInt16(p)) as int ==
            var second := HexDigit(p[1]);
            if (IsSpace(p[0]) || p[0] == '+') && second.Some? then second.value
            else if p[0] == '-' && second.Some? then (256 - second.value) % 256
            else 0
  {
    var c, rest := p[0], p[1..];
    assert rest == [p[1]] && rest[1..] == "";
    HexRun(rest);
    ZeroIsZero();
    if HexDigit(p[1]).Some? {
      HexDigitIsPlain(p[1]);
      HexDigitIs(p[1]);
    }
    hide HexDigit, HexPrefix, HexChar, LowerHex, IsSpace;
    assert SkipSpace(p) == if IsSpace(c) then SkipSpace(rest) else p;
    assert SkipSpace(rest) == if IsSpace(p[1]) then "" else rest;
  }

  /** The digits at the start of at most two characters. */
  lemma HexRun(s: string)
    requires 1 <= |s| <= 2
    ensures HexDigit(s[0]).Some? && (|s| == 1 || HexDigit(s[1]).None?) ==> HexPrefix(s, 0) == HexDigit(s[0]).value
  {
    if HexDigit(s[0]).Some? {
      assert HexPrefix(s, 0) == HexPrefix(s[1..], HexDigit(s[0]).value);
    }
  }
}
