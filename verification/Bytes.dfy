/** The rest of packages/chain/scale/src/index.ts: fixed-width integers, concatenation, byte strings;
    and the heartbeat payload built from them (packages/chain/node-manager/src/index.ts). */
module Bytes {
  import opened Prelude
  import opened Scale

  // ----- u64le -----

  method U64Le(value: int) returns (out: seq<byte>)
    ensures out == LowBytes(value % TWO_64, 8)
  {
    hide LowBytes, And;
    var buffer := new byte[8](_ => 0);
    var x: nat := value % TWO_64;
    ghost var encoded := LowBytes(x, 8);
    for i := 0 to 8
      invariant buffer[..i] + LowBytes(x, 8 - i) == encoded
    {
      MaskLowByte(x);
      LowBytesStep(x, 8 - i);
      ghost var before := buffer[..i];
      buffer[i] := And(x, 0xff);
      assert buffer[..i + 1] == before + [x % 256];
      x := x / 256;
    }
    out := buffer[..];
    LowBytesDone(x);
    assert buffer[..8] == out;
  }

  lemma LowBytesStep(x: nat, n: nat)
    requires n > 0
    ensures LowBytes(x, n) == [x % 256] + LowBytes(x / 256, n - 1)
  {
  }

  lemma LowBytesDone(x: nat)
    ensures LowBytes(x, 0) == []
  {
  }

  /** Two integers, negative ones included, have one encoding exactly when they agree modulo 2^64. */
  lemma U64LeIsCongruence(x: int, y: int)
    ensures LowBytes(x % TWO_64, 8) == LowBytes(y % TWO_64, 8) <==> (x - y) % TWO_64 == 0
  {
    U64LeDecodes(x);
    U64LeDecodes(y);
    hide LowBytes, FromLittleEndian;
    var q, r := x / TWO_64, y / TWO_64;
    assert x - y == (q - r) * TWO_64 + (x % TWO_64 - y % TWO_64);
  }

  lemma U64LeDecodes(x: int)
    ensures FromLittleEndian(LowBytes(x % TWO_64, 8)) == x % TWO_64
  {
    assert Pow256(4) == TWO_32;
    assert Pow256(8) == TWO_64;
    FromLowBytes(x % TWO_64, 8);
  }

  // ----- concatBytes, scaleBytes -----

  method ConcatBytes(parts: seq<seq<byte>>) returns (r: seq<byte>)
    ensures r == Flatten(parts)
  {
    var total := 0;
    for i := 0 to |parts|
      invariant total == |Flatten(parts[..i])|
    {
      assert parts[..i + 1] == parts[..i] + [parts[i]];
      FlattenSnoc(parts[..i], parts[i]);
      total := total + |parts[i]|;
    }
    assert parts[..|parts|] == parts;
    var out := new byte[total](_ => 0);
    var offset := 0;
    for i := 0 to |parts|
      invariant offset == |Flatten(parts[..i])| <= total
      invariant out[..offset] == Flatten(parts[..i])
    {
      var p := parts[i];
      assert parts[..i + 1] == parts[..i] + [p];
      FlattenSnoc(parts[..i], p);
      FlattenPrefix(parts, i + 1);
      ghost var before := out[..offset];
      forall k | 0 <= k < |p| {
        out[offset + k] := p[k];
      }
      assert out[..offset] == before;
      assert out[..offset + |p|] == before + p;
      offset := offset + |p|;
    }
    assert out[..] == out[..total];
    r := out[..];
  }

  lemma {:induction false} FlattenPrefix<T>(parts: seq<seq<T>>, n: nat)
    requires n <= |parts|
    ensures |Flatten(parts[..n])| <= |Flatten(parts)|
  {
    if n > 0 {
      assert parts[..n][1..] == parts[1..][..n - 1];
      FlattenPrefix(parts[1..], n - 1);
    }
  }

  function ScaleBytesOf(bytes: seq<byte>): seq<byte> { Compact(|bytes|) + bytes }

  method ScaleBytes(bytes: seq<byte>) returns (r: seq<byte>)
    ensures r == ScaleBytesOf(bytes)
  {
    var prefix := CompactBytes(|bytes|);
    r := ConcatBytes([prefix.value, bytes]);
    TwoParts(prefix.value, bytes);
  }

  lemma TwoParts(a: seq<byte>, b: seq<byte>)
    ensures Flatten([a, b]) == a + b
  {
    assert [a, b][1..] == [b];
    assert Flatten([b]) == b + Flatten<byte>([]);
  }

  /** The decoder of `Vec<u8>`: a compact length, then that many bytes. */
  function DecodeBytes(b: seq<byte>): Option<(seq<byte>, seq<byte>)> {
    match DecodeCompact(b)
    case None => None
    case Some((n, tail)) => if |tail| < n then None else Some((tail[..n], tail[n..]))
  }

  lemma DecodeOfScaleBytes(bytes: seq<byte>, rest: seq<byte>)
    requires |bytes| < COMPACT_LIMIT
    ensures DecodeBytes(ScaleBytesOf(bytes) + rest) == Some((bytes, rest))
  {
    ConcatAssoc(Compact(|bytes|), bytes, rest);
    DecodeOfCompact(|bytes|, bytes + rest);
    hide DecodeCompact, Compact, COMPACT_LIMIT;
    assert (bytes + rest)[..|bytes|] == bytes && (bytes + rest)[|bytes|..] == rest;
  }

  // ----- The heartbeat payload -----

  /** UTF-8 of a text whose characters are all below U+0080. */
  function Ascii(s: string): seq<byte>
    requires forall i :: 0 <= i < |s| ==> s[i] < '\U{80}'
  {
    seq(|s|, i requires 0 <= i < |s| => s[i] as int)
  }

  const HEARTBEAT_CONTEXT: seq<byte> := Ascii("NodeManager_heartbeat")

  method HeartbeatSigningPayload(count: int, period: int) returns (r: seq<byte>)
    ensures r == Payload(count, period)
  {
    var context := ScaleBytes(HEARTBEAT_CONTEXT);
    var c := U64Le(count);
    var p := U64Le(period);
    r := ConcatBytes([context, c, p]);
    assert [context, c, p] == [context] + [c, p] && [context, c, p][1..] == [c, p];
    TwoParts(c, p);
  }

  /** The payload the pallet specifies: SCALE of (context, count, period). */
  function Payload(count: int, period: int): seq<byte> {
    ScaleBytesOf(HEARTBEAT_CONTEXT) + (LowBytes(count % TWO_64, 8) + LowBytes(period % TWO_64, 8))
  }

  /** The pallet's side: the three fields in order, and nothing left. */
  function DecodePayload(b: seq<byte>): Option<(seq<byte>, nat, nat)> {
    match DecodeBytes(b)
    case None => None
    case Some((context, t)) =>
      if |t| != 16 then None else Some((context, FromLittleEndian(t[..8]), FromLittleEndian(t[8..])))
  }

  lemma PayloadDecodes(count: int, period: int)
    ensures DecodePayload(Payload(count, period)) == Some((HEARTBEAT_CONTEXT, count % TWO_64, period % TWO_64))
  {
    var c, p := LowBytes(count % TWO_64, 8), LowBytes(period % TWO_64, 8);
    assert 21 < Pow2(5) == 32;
    Pow2Monotonic(5, 536);
    U64LeDecodes(count);
    U64LeDecodes(period);
    DecodeOfScaleBytes(HEARTBEAT_CONTEXT, c + p);
    hide DecodeBytes, LowBytes, FromLittleEndian, ScaleBytesOf, COMPACT_LIMIT, HEARTBEAT_CONTEXT, TWO_64;
    assert (c + p)[..8] == c && (c + p)[8..] == p;
  }

  /** One signature covers one (count, period): on u64 pairs the payload is injective. */
  lemma PayloadInjective(count1: int, period1: int, count2: int, period2: int)
    ensures Payload(count1, period1) == Payload(count2, period2) <==>
            count1 % TWO_64 == count2 % TWO_64 && period1 % TWO_64 == period2 % TWO_64
  {
    PayloadDecodes(count1, period1);
    PayloadDecodes(count2, period2);
    hide DecodePayload, ScaleBytesOf, LowBytes, TWO_64;
  }
}
