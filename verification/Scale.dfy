/** The SCALE helpers (packages/chain/scale/src/index.ts) and their decoders. */
module Scale {
  import opened Prelude

  type byte = x: int | 0 <= x < 256

  datatype ScaleError = NegativeValue | OddLength

  const TWO_32: int := 0x1_0000_0000
  const TWO_64: int := 0x1_0000_0000_0000_0000

  // ----- JavaScript bit operations -----

  function And(a: nat, b: nat): nat {
    if a == 0 || b == 0 then 0 else 2 * And(a / 2, b / 2) + (a % 2) * (b % 2)
  }

  function Or(a: nat, b: nat): nat {
    if a == 0 then b
    else if b == 0 then a
    else 2 * Or(a / 2, b / 2) + if a % 2 == 1 || b % 2 == 1 then 1 else 0
  }

  function ToUint32(x: int): nat { x % TWO_32 }

  function ToInt32(x: int): int {
    if x % TWO_32 < 0x8000_0000 then x % TWO_32 else x % TWO_32 - TWO_32
  }

  /** Number `a << k`, `a >> k`, `a | b`, `a & b`: all on signed 32-bit integers. */
  function Shl(a: int, k: nat): int { ToInt32(ToUint32(a) * Pow2(k)) }

  function Shr(a: int, k: nat): int { ToInt32(a) / Pow2(k) }

  function BitOr(a: int, b: int): int { ToInt32(Or(ToUint32(a), ToUint32(b))) }

  function BitAnd(a: int, b: int): int { ToInt32(And(ToUint32(a), ToUint32(b))) }

  /** The conversion a `Uint8Array` applies to a number stored in it. */
  function ToUint8(x: int): byte { x % 256 }

  // ----- Little-endian bytes -----

  /** Shortest little-endian bytes of a natural number. */
  function LittleEndian(v: nat): seq<byte> {
    if v == 0 then [] else [v % 256] + LittleEndian(v / 256)
  }

  /** The `n` low little-endian bytes of a natural number. */
  function LowBytes(v: nat, n: nat): (b: seq<byte>)
    ensures |b| == n
  {
    if n == 0 then [] else [v % 256] + LowBytes(v / 256, n - 1)
  }

  function FromLittleEndian(b: seq<byte>): nat {
    if b == [] then 0 else b[0] + 256 * FromLittleEndian(b[1..])
  }

  function Pow256(n: nat): (p: nat)
    ensures p >= 1
  {
    if n == 0 then 1 else 256 * Pow256(n - 1)
  }

  // ----- compact -----

  /** The compact encoding by arithmetic, mode by mode. */
  function Compact(v: nat): (b: seq<byte>) {
    if v < 64 then [4 * v]
    else if v < 0x4000 then LowBytes(4 * v + 1, 2)
    else if v < 0x4000_0000 then LowBytes(4 * v + 2, 4)
    else [ToUint8(4 * (|LittleEndian(v)| - 4) + 3)] + LittleEndian(v)
  }

  /** The decoder of the SCALE specification (Polkadot Protocol Specification, appendix A.2.2). */
  function DecodeCompact(b: seq<byte>): Option<(nat, seq<byte>)> {
    if b == [] then None
    else
      var mode := b[0] % 4;
      var size := if mode == 0 then 1 else if mode == 1 then 2 else if mode == 2 then 4 else 5 + b[0] / 4;
      if |b| < size then None
      else if mode == 3 then Some((FromLittleEndian(b[1..size]), b[size..]))
      else Some((FromLittleEndian(b[..size]) / 4, b[size..]))
  }

  /** `compact`: the shifts and masks of the four modes and the loop of the last one. */
  method CompactBytes(value: int) returns (r: Result<seq<byte>, ScaleError>)
    ensures r == if value < 0 then Err(NegativeValue) else Ok(Compact(value))
  {
    hide Shl, Shr, BitOr, BitAnd, And, Or, Pow2, Quot, LowBytes, ToUint8;
    var v := value;
    if v < 0 {
      return Err(NegativeValue);
    }
    if v < 64 {
      SmallShift(v);
      return Ok([ToUint8(Shl(v, 2))]);
    }
    if v < 0x4000 {
      TagByte(v, 1);
      UpperByte(v, 6);
      TwoBytes(v, 1);
      r := Ok([ToUint8(BitAnd(BitOr(Shl(v, 2), 1), 0xff)), ToUint8(BitAnd(Shr(v, 6), 0xff))]);
      Stored(4 * v + 1);
      Stored(Quot(v, Pow2(6)));
      return;
    }
    if v < 0x4000_0000 {
      TagByte(v, 2);
      UpperByte(v, 6);
      UpperByte(v, 14);
      UpperByte(v, 22);
      FourBytes(v, 2);
      r := Ok([ToUint8(BitAnd(BitOr(Shl(v, 2), 2), 0xff)), ToUint8(BitAnd(Shr(v, 6), 0xff)),
               ToUint8(BitAnd(Shr(v, 14), 0xff)), ToUint8(BitAnd(Shr(v, 22), 0xff))]);
      Stored(4 * v + 2);
      Stored(Quot(v, Pow2(6)));
      Stored(Quot(v, Pow2(14)));
      Stored(Quot(v, Pow2(22)));
      return;
    }
    var bytes: seq<byte> := [];
    var x: nat := v;
    while x > 0
      invariant LittleEndian(v) == bytes + LittleEndian(x)
    {
      MaskLowByte(x);
      bytes := bytes + [And(x, 0xff)];
      x := x / 256;
    }
    assert LittleEndian(v) == bytes;
    BigModeLength(v);
    TagByte(|bytes| - 4, 3);
    Stored(4 * (|bytes| - 4) + 3);
    r := Ok([ToUint8(BitAnd(BitOr(Shl(|bytes| - 4, 2), 3), 0xff))] + bytes);
  }

  /** `((m << 2) | tag) & 0xff`, also where the shift leaves the 32 bits. */
  lemma TagByte(m: nat, tag: nat)
    requires 1 <= tag <= 3
    ensures BitAnd(BitOr(Shl(m, 2), tag), 0xff) == ToUint8(4 * m + tag)
  {
    var y := 4 * (m % 0x4000_0000);
    ShiftedTwo(m);
    OrLowBits(y, tag);
    MaskLowByte(y + tag);
    SameLowByte(m, tag);
    ToUint32Small(y + tag);
    ToUint32Small(ToUint8(y + tag));
    ToUint32Small(tag);
    ToUint32Small(0xff);
    hide *;
    TagByteSteps(m, tag, y);
  }

  lemma TagByteSteps(m: nat, tag: nat, y: nat)
    requires ToUint32(Shl(m, 2)) == y && Or(y, tag) == y + tag && And(y + tag, 0xff) == ToUint8(y + tag)
    requires ToUint32(ToInt32(y + tag)) == y + tag && ToUint32(tag) == tag && ToUint32(0xff) == 0xff
    requires ToInt32(ToUint8(y + tag)) == ToUint8(y + tag)
    ensures BitAnd(BitOr(Shl(m, 2), tag), 0xff) == ToUint8(y + tag)
  {
    hide ToUint32, ToInt32, Shl, Or, And, ToUint8;
  }

  lemma ToUint32Small(y: nat)
    requires y < TWO_32
    ensures ToUint32(ToInt32(y)) == y && ToUint32(y) == y
    ensures y < 256 ==> ToInt32(y) == y
  {
  }

  /** A byte stays what it is when it is stored. */
  lemma Stored(x: int)
    ensures ToUint8(ToUint8(x)) == ToUint8(x)
  {
  }

  lemma SmallShift(m: nat)
    requires m < 64
    ensures ToUint8(Shl(m, 2)) == 4 * m
  {
    assert Pow2(2) == 4;
  }

  lemma ShiftedTwo(m: nat)
    ensures ToUint32(Shl(m, 2)) == 4 * (m % 0x4000_0000)
  {
    assert Pow2(2) == 4;
    var q, z := m / 0x4000_0000, m % 0x4000_0000;
    assert m % TWO_32 == (q % 4) * 0x4000_0000 + z by {
      assert m == q / 4 * TWO_32 + ((q % 4) * 0x4000_0000 + z);
    }
    assert ToUint32(m) * 4 == (q % 4) * TWO_32 + 4 * z;
    ToUint32Small(4 * z);
    assert ToInt32(ToUint32(m) * 4) == ToInt32(4 * z);
  }

  lemma SameLowByte(m: nat, tag: nat)
    ensures ToUint8(4 * (m % 0x4000_0000) + tag) == ToUint8(4 * m + tag)
  {
    var q := m / 0x4000_0000;
    assert m == q * 0x4000_0000 + m % 0x4000_0000;
    assert 4 * m + tag == 4 * (m % 0x4000_0000) + tag + 256 * (q * 0x100_0000);
  }

  lemma OrLowBits(y: nat, tag: nat)
    requires y % 4 == 0 && tag <= 3
    ensures Or(y, tag) == y + tag
  {
    assert Or(y / 4, 0) == y / 4;
    assert Or(y / 2, tag / 2) == y / 2 + tag / 2;
  }

  /** `(n >> k) & 0xff`. */
  lemma UpperByte(n: nat, k: nat)
    requires n < 0x4000_0000
    ensures BitAnd(Shr(n, k), 0xff) == ToUint8(Quot(n, Pow2(k)))
  {
    var q := Quot(n, Pow2(k));
    ToUint32Small(n);
    assert Shr(n, k) == q by { hide And, Pow2, ToUint32; }
    QuotAtMost(n, Pow2(k));
    MaskLowByte(q);
    hide *;
    MaskOfSmall(q);
  }

  lemma MaskOfSmall(q: nat)
    requires q < TWO_32 && And(q, 0xff) == ToUint8(q)
    ensures BitAnd(q, 0xff) == ToUint8(q)
  {
    hide And, ToUint8;
    ToUint32Small(q);
    ToUint32Small(ToUint8(q));
    ToUint32Small(0xff);
    hide ToUint32, ToInt32;
  }

  lemma QuotAtMost(n: nat, b: nat)
    requires b > 0
    ensures Quot(n, b) <= n
  {
    QuotRem(n, b);
    MulMonotonic(1, b, Quot(n, b));
  }

  /** The bytes the modes shift out are the bytes of the tagged value. */
  lemma TwoBytes(n: nat, tag: nat)
    requires tag <= 3
    ensures LowBytes(4 * n + tag, 2) == [ToUint8(4 * n + tag), ToUint8(Quot(n, Pow2(6)))]
  {
    var x := 4 * n + tag;
    assert Pow2(6) == 64;
    assert x / 256 == n / 64;
    assert LowBytes(x / 256, 1) == [x / 256 % 256];
  }

  lemma FourBytes(n: nat, tag: nat)
    requires tag <= 3
    ensures LowBytes(4 * n + tag, 4) ==
            [ToUint8(4 * n + tag), ToUint8(Quot(n, Pow2(6))), ToUint8(Quot(n, Pow2(14))), ToUint8(Quot(n, Pow2(22)))]
  {
    PowersUsed();
    var a := n / 64;
    var b := a / 256;
    var c := b / 256;
    assert (4 * n + tag) / 256 == a;
    DivideTwice(n);
    hide Quot, Pow2;
    assert LowBytes(c, 1) == [c % 256] + LowBytes(c / 256, 0);
    assert LowBytes(b, 2) == [b % 256] + LowBytes(c, 1);
    assert LowBytes(a, 3) == [a % 256] + LowBytes(b, 2);
    assert Quot(n, 64) == a && Quot(n, 0x4000) == b && Quot(n, 0x40_0000) == c;
  }

  lemma PowersUsed()
    ensures Pow2(6) == 64 && Pow2(14) == 0x4000 && Pow2(22) == 0x40_0000
  {
    assert Pow2(6) == 64 && Pow2(8) == 256;
    Pow2Add(8, 6);
    Pow2Add(8, 14);
  }

  lemma DivideTwice(n: nat)
    ensures Quot(n, 64) == n / 64 && Quot(n, 0x4000) == n / 64 / 256 && Quot(n, 0x40_0000) == n / 64 / 256 / 256
  {
    assert n / 0x4000 == n / 64 / 256;
    assert n / 0x40_0000 == n / 0x4000 / 256;
  }

  /** A mask of `k` ones is the remainder by 2^k. */
  lemma {:induction false} MaskIsRemainder(x: nat, k: nat)
    ensures And(x, Pow2(k) - 1) == Rem(x, Pow2(k))
  {
    if k == 0 {
      assert Rem(x, 1) == 0;
    } else {
      var p := Pow2(k - 1);
      MaskIsRemainder(x / 2, k - 1);
      QuotRem(x / 2, p);
      var q, r := Quot(x / 2, p), Rem(x / 2, p);
      Doubled(q, p);
      assert x == q * Pow2(k) + (2 * r + x % 2);
      QuotRemUnique(q, Pow2(k), 2 * r + x % 2);
      assert (Pow2(k) - 1) / 2 == p - 1 && (Pow2(k) - 1) % 2 == 1;
      hide Quot, Rem, Pow2;
      if x == 0 {
        AndZero(0, p - 1);
      } else if p == 1 {
        AndZero(x / 2, 0);
      }
    }
  }

  lemma Doubled(q: nat, p: nat)
    ensures q * (2 * p) == 2 * (q * p)
  {
  }

  lemma AndZero(x: nat, y: nat)
    ensures x == 0 || y == 0 ==> And(x, y) == 0
  {
  }

  lemma MaskLowByte(x: nat)
    ensures And(x, 0xff) == x % 256 == ToUint8(x)
  {
    MaskIsRemainder(x, 8);
    assert Pow2(8) == 256;
  }

  // ----- Little-endian numbers -----

  lemma {:induction false} FromLittleEndianInverse(v: nat)
    ensures FromLittleEndian(LittleEndian(v)) == v
    ensures LittleEndian(v) != [] ==> LittleEndian(v)[|LittleEndian(v)| - 1] != 0
  {
    if v != 0 {
      FromLittleEndianInverse(v / 256);
    }
  }

  /** The number of bytes says between which powers of 256 the value lies. */
  lemma {:induction false} LittleEndianLength(v: nat, k: nat)
    ensures |LittleEndian(v)| <= k <==> v < Pow256(k)
  {
    if v != 0 && k != 0 {
      LittleEndianLength(v / 256, k - 1);
    }
  }

  lemma BigModeLength(v: nat)
    requires v >= 0x4000_0000
    ensures |LittleEndian(v)| >= 4
  {
    LittleEndianLength(v, 3);
    assert Pow256(3) == 0x100_0000;
  }

  lemma {:induction false} FromLittleEndianBound(b: seq<byte>)
    ensures FromLittleEndian(b) < Pow256(|b|)
  {
    if b != [] {
      FromLittleEndianBound(b[1..]);
    }
  }

  lemma {:induction false} FromLowBytes(v: nat, n: nat)
    requires v < Pow256(n)
    ensures FromLittleEndian(LowBytes(v, n)) == v
  {
    if n != 0 {
      FromLowBytes(v / 256, n - 1);
    }
  }

  /** Bytes are determined by their number and their value. */
  lemma {:induction false} LowBytesOfValue(b: seq<byte>)
    ensures LowBytes(FromLittleEndian(b), |b|) == b
  {
    if b != [] {
      LowBytesOfValue(b[1..]);
      var x := FromLittleEndian(b[1..]);
      assert (b[0] + 256 * x) / 256 == x && (b[0] + 256 * x) % 256 == b[0];
      assert b == [b[0]] + b[1..];
    }
  }

  lemma {:induction false} LittleEndianIsLowBytes(v: nat)
    ensures LittleEndian(v) == LowBytes(v, |LittleEndian(v)|)
  {
    FromLittleEndianInverse(v);
    LowBytesOfValue(LittleEndian(v));
  }

  lemma {:induction false} Pow256IsPow2(k: nat)
    ensures Pow256(k) == Pow2(8 * k)
  {
    if k != 0 {
      Pow256IsPow2(k - 1);
      Pow2Add(8, 8 * (k - 1));
      assert Pow2(8) == 256;
    }
  }

  // ----- compact against its decoder -----

  /** The bound of the format: one byte more and the length no longer fits the first byte. */
  const COMPACT_LIMIT: int := Pow2(536)

  lemma CompactLimit(v: nat)
    ensures v < COMPACT_LIMIT <==> |LittleEndian(v)| <= 67
  {
    LittleEndianLength(v, 67);
    Pow256IsPow2(67);
  }

  lemma CompactSmall(v: nat, rest: seq<byte>)
    requires v < 0x4000_0000
    ensures DecodeCompact(Compact(v) + rest) == Some((v, rest))
  {
    assert Pow256(1) == 256 && Pow256(2) == 0x1_0000 && Pow256(4) == 0x1_0000_0000;
    var tag := if v < 64 then 0 else if v < 0x4000 then 1 else 2;
    var size := if v < 64 then 1 else if v < 0x4000 then 2 else 4;
    FromLowBytes(4 * v + tag, size);
    assert LowBytes(4 * v, 1) == [4 * v % 256];
    assert Compact(v) == LowBytes(4 * v + tag, size);
    FirstByte(Compact(v));
    hide LowBytes, FromLittleEndian, Pow256, Compact;
    var c := Compact(v) + rest;
    assert c[0] == Compact(v)[0];
    assert c[0] % 4 == tag;
    assert c[..size] == Compact(v) && c[size..] == rest;
  }

  /** In big-integer mode the decoder takes the announced number of bytes off what follows. */
  lemma DecodeBig(first: byte, n: nat, t: seq<byte>)
    requires first == 4 * n + 3 && n + 4 <= |t|
    ensures DecodeCompact([first] + t) == Some((FromLittleEndian(t[..n + 4]), t[n + 4..]))
  {
    hide FromLittleEndian;
    var b := [first] + t;
    assert first / 4 == n && first % 4 == 3;
    assert b[1..5 + n] == t[..n + 4] && b[5 + n..] == t[n + 4..];
  }

  /** So it takes all of `l`, and leaves exactly `rest`, when the announced number is the real one. */
  lemma DecodeAnnounced(first: byte, n: nat, l: seq<byte>, rest: seq<byte>)
    requires first == 4 * n + 3 && n <= |l| - 4 && (|l| <= 67 ==> n == |l| - 4)
    ensures DecodeCompact([first] + (l + rest)) == Some((FromLittleEndian(l), rest)) <==> |l| <= 67
  {
    hide *;
    DecodeBig(first, n, l + rest);
    if |l| <= 67 {
      assert (l + rest)[..n + 4] == l && (l + rest)[n + 4..] == rest;
    } else {
      assert |(l + rest)[n + 4..]| == |l| + |rest| - n - 4;
    }
  }

  lemma CompactBig(v: nat, rest: seq<byte>)
    requires v >= 0x4000_0000
    ensures DecodeCompact(Compact(v) + rest) == Some((v, rest)) <==> |LittleEndian(v)| <= 67
  {
    hide *;
    BigModeLength(v);
    FromLittleEndianInverse(v);
    BigModeForm(v);
    var n := ModeByte(|LittleEndian(v)| - 4);
    DecodeAnnouncedIn(Compact(v), n, LittleEndian(v), rest);
  }

  lemma BigModeForm(v: nat)
    requires v >= 0x4000_0000
    ensures Compact(v) == [ToUint8(4 * (|LittleEndian(v)| - 4) + 3)] + LittleEndian(v)
  {
    hide ToUint8, LittleEndian, LowBytes;
  }

  lemma DecodeAnnouncedIn(c: seq<byte>, n: nat, l: seq<byte>, rest: seq<byte>)
    requires c != [] && c == [c[0]] + l && c[0] == 4 * n + 3
    requires n <= |l| - 4 && (|l| <= 67 ==> n == |l| - 4)
    ensures DecodeCompact(c + rest) == Some((FromLittleEndian(l), rest)) <==> |l| <= 67
  {
    hide *;
    ConcatAssoc([c[0]], l, rest);
    DecodeAnnounced(c[0], n, l, rest);
  }

  /** The length the first byte announces: the real one up to 63 beyond four, a smaller one from there on. */
  lemma ModeByte(n: nat) returns (m: nat)
    ensures m < 64 && m <= n && ToUint8(4 * n + 3) == 4 * m + 3
    ensures n < 64 ==> m == n
  {
    var q := n / 64;
    m := n % 64;
    assert 4 * n + 3 == 256 * q + (4 * m + 3);
  }

  /** Decoding undoes `compact`, whatever follows, exactly below 2^536. */
  lemma DecodeOfCompact(v: nat, rest: seq<byte>)
    ensures DecodeCompact(Compact(v) + rest) == Some((v, rest)) <==> v < COMPACT_LIMIT
  {
    CompactLimit(v);
    if v < 0x4000_0000 {
      CompactSmall(v, rest);
      LittleEndianLength(v, 4);
      assert Pow256(4) == 0x1_0000_0000;
    } else {
      CompactBig(v, rest);
    }
  }

  /** No encoding is the start of another one: a decoder never has to guess where a value ends. */
  lemma CompactPrefixFree(v: nat, w: nat, r: seq<byte>, t: seq<byte>)
    requires v < COMPACT_LIMIT && w < COMPACT_LIMIT && Compact(v) + r == Compact(w) + t
    ensures v == w && r == t
  {
    DecodeOfCompact(v, r);
    DecodeOfCompact(w, t);
  }

  /** Whole encodings differ for all naturals, also beyond the decodable range. */
  lemma CompactInjective(v: nat, w: nat)
    requires Compact(v) == Compact(w)
    ensures v == w
  {
    CompactMode(v);
    CompactMode(w);
    if v < 0x4000_0000 && w < 0x4000_0000 {
      CompactSmall(v, []);
      CompactSmall(w, []);
    } else {
      FromLittleEndianInverse(v);
      FromLittleEndianInverse(w);
      assert Compact(v)[1..] == LittleEndian(v) && Compact(w)[1..] == LittleEndian(w);
    }
  }

  /** The two low bits of the first byte name the mode; the mode fixes the length below big-integer mode. */
  lemma CompactMode(v: nat)
    ensures var b := Compact(v);
            b != [] && b[0] % 4 == (if v < 64 then 0 else if v < 0x4000 then 1 else if v < 0x4000_0000 then 2 else 3)
    ensures var b := Compact(v);
            |b| == (if v < 64 then 1 else if v < 0x4000 then 2 else if v < 0x4000_0000 then 4
                    else 1 + |LittleEndian(v)|) && (v >= 0x4000_0000 ==> |b| >= 5)
  {
    if v >= 0x4000_0000 {
      BigModeLength(v);
    }
  }

  /** `compact` picks the smallest encoding, and no other encoding of the value is as short. */
  lemma CompactIsShortest(v: nat, b: seq<byte>)
    requires DecodeCompact(b) == Some((v, []))
    ensures v < COMPACT_LIMIT
    ensures |Compact(v)| <= |b|
    ensures |Compact(v)| == |b| ==> Compact(v) == b
  {
    if b[0] % 4 == 3 {
      ShortestBig(v, b);
    } else {
      ShortestSmall(v, b);
    }
  }

  lemma ShortestBig(v: nat, b: seq<byte>)
    requires DecodeCompact(b) == Some((v, [])) && b[0] % 4 == 3
    ensures v < COMPACT_LIMIT
    ensures |Compact(v)| <= |b|
    ensures |Compact(v)| == |b| ==> Compact(v) == b
  {
    var l := b[1..];
    assert b == [b[0]] + l && b[1..5 + b[0] / 4] == l;
    FromLittleEndianBound(l);
    LowBytesOfValue(l);
    LittleEndianLength(v, |l|);
    LittleEndianIsLowBytes(v);
    CompactMode(v);
    CompactLimit(v);
    hide LittleEndian, LowBytes, FromLittleEndian, COMPACT_LIMIT, Pow256;
    if |Compact(v)| == |b| {
      assert |LittleEndian(v)| == |l|;
      assert b[0] == 4 * (b[0] / 4) + 3;
    }
  }

  lemma ShortestSmall(v: nat, b: seq<byte>)
    requires DecodeCompact(b) == Some((v, [])) && b[0] % 4 != 3
    ensures v < COMPACT_LIMIT
    ensures |Compact(v)| <= |b|
    ensures |Compact(v)| == |b| ==> Compact(v) == b
  {
    assert b[..|b|] == b;
    var x, tag := 4 * v + b[0] % 4, b[0] % 4;
    FirstByte(b);
    assert FromLittleEndian(b) == x;
    FromLittleEndianBound(b);
    LowBytesOfValue(b);
    assert Pow256(1) == 256 && Pow256(2) == 0x1_0000 && Pow256(4) == 0x1_0000_0000;
    LittleEndianLength(v, 4);
    CompactLimit(v);
    CompactMode(v);
    assert |b| == 1 ==> LowBytes(x, 1) == [x];
    hide LittleEndian, LowBytes, FromLittleEndian, COMPACT_LIMIT, Pow256;
  }

  lemma FirstByte(b: seq<byte>)
    requires b != []
    ensures FromLittleEndian(b) == 4 * (FromLittleEndian(b) / 4) + b[0] % 4
  {
  }
}
