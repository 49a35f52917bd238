/** Integers and byte strings as bytes: util/coding.h and util/coding.cc. */
module Coding {
  import opened Options

  type Byte = b: nat | b < 256
  type Bytes = seq<Byte>

  /** A decoded value and where the next one starts. */
  datatype Read<+T> = Read(value: T, next: nat)

  const WORD32: nat := 0x1_0000_0000
  const WORD64: nat := 0x1_0000_0000_0000_0000

  // ---- fixed-width integers --------------------------------------------------------------

  /** The lowest width bytes of v, least significant first. */
  function Fixed(v: nat, width: nat): (r: Bytes)
    ensures |r| == width
  {
    if width == 0 then [] else [v % 256] + Fixed(v / 256, width - 1)
  }

  function Unfixed(bytes: Bytes): nat {
    if |bytes| == 0 then 0 else bytes[0] + 256 * Unfixed(bytes[1..])
  }

  function Power256(width: nat): (p: nat)
    ensures p > 0
  {
    if width == 0 then 1 else 256 * Power256(width - 1)
  }

  lemma {:induction false} FixedRoundTrip(v: nat, width: nat)
    requires v < Power256(width)
    ensures Unfixed(Fixed(v, width)) == v
  {
    if width > 0 {
      FixedRoundTrip(v / 256, width - 1);
      assert Fixed(v, width)[1..] == Fixed(v / 256, width - 1);
    }
  }

  lemma LowByte(b: Byte, rest: nat)
    ensures (b + 256 * rest) % 256 == b && (b + 256 * rest) / 256 == rest
  {
  }

  lemma {:induction false} UnfixedIsBounded(bytes: Bytes)
    ensures Unfixed(bytes) < Power256(|bytes|)
    ensures Fixed(Unfixed(bytes), |bytes|) == bytes
  {
    if |bytes| > 0 {
      UnfixedIsBounded(bytes[1..]);
      LowByte(bytes[0], Unfixed(bytes[1..]));
      assert bytes == [bytes[0]] + bytes[1..];
    }
  }

  lemma Widths()
    ensures Power256(4) == WORD32 && Power256(8) == WORD64
  {
    assert Power256(1) == 0x100 && Power256(2) == 0x1_0000 && Power256(3) == 0x100_0000;
    assert Power256(5) == 256 * Power256(4) && Power256(6) == 256 * Power256(5) && Power256(7) == 256 * Power256(6);
  }

  /** EncodeFixed32: byte by byte, as shifts of the whole value. */
  method EncodeFixed32(value: nat) returns (r: Bytes)
    requires value < WORD32
    ensures r == Fixed(value, 4)
  {
    r := [value % 256, (value / 0x100) % 256, (value / 0x1_0000) % 256, (value / 0x100_0000) % 256];
    Shifts(value);
  }

  lemma Shifts(v: nat)
    ensures Fixed(v, 4) == [v % 256, (v / 0x100) % 256, (v / 0x1_0000) % 256, (v / 0x100_0000) % 256]
  {
    assert v / 256 / 256 == v / 0x1_0000 && v / 256 / 256 / 256 == v / 0x100_0000;
    assert Fixed(v / 256 / 256 / 256, 1) == [v / 256 / 256 / 256 % 256] + Fixed(v / 256 / 256 / 256 / 256, 0);
    assert Fixed(v / 256 / 256, 2) == [v / 256 / 256 % 256] + Fixed(v / 256 / 256 / 256, 1);
    assert Fixed(v / 256, 3) == [v / 256 % 256] + Fixed(v / 256 / 256, 2);
  }

  /** DecodeFixed32, with the shifts as multiplications. */
  method DecodeFixed32(p: Bytes) returns (v: nat)
    requires |p| >= 4
    ensures v == Unfixed(p[..4]) < WORD32
  {
    v := p[0] as nat + 0x100 * (p[1] as nat) + 0x1_0000 * (p[2] as nat) + 0x100_0000 * (p[3] as nat);
    var q := p[..4];
    assert q[1..][1..] == q[2..] && q[2..][1..] == q[3..] && q[3..][1..] == q[4..];
    assert Unfixed(q[3..]) == q[3] + 256 * Unfixed(q[4..]);
    assert Unfixed(q[2..]) == q[2] + 256 * Unfixed(q[3..]);
    assert Unfixed(q[1..]) == q[1] + 256 * Unfixed(q[2..]);
  }

  lemma FourBytes(b: Bytes)
    requires |b| == 4
    ensures Unfixed(b) ==
      b[0] as nat + 0x100 * (b[1] as nat) + 0x1_0000 * (b[2] as nat) + 0x100_0000 * (b[3] as nat) < WORD32
  {
    assert b[1..][1..] == b[2..] && b[2..][1..] == b[3..] && b[3..][1..] == b[4..];
    assert Unfixed(b[3..]) == b[3] + 256 * Unfixed(b[4..]);
    assert Unfixed(b[2..]) == b[2] + 256 * Unfixed(b[3..]);
    assert Unfixed(b[1..]) == b[1] + 256 * Unfixed(b[2..]);
  }

  lemma EightBytes(b: Bytes)
    requires |b| == 8
    ensures Unfixed(b) ==
      b[0] as nat + 0x100 * (b[1] as nat) + 0x1_0000 * (b[2] as nat) + 0x100_0000 * (b[3] as nat) +
      0x1_0000_0000 * (b[4] as nat) + 0x100_0000_0000 * (b[5] as nat) + 0x1_0000_0000_0000 * (b[6] as nat) +
        0x100_0000_0000_0000 * (b[7] as nat) < WORD64
  {
    FourBytes(b[4..]);
    assert b[1..][1..] == b[2..] && b[2..][1..] == b[3..] && b[3..][1..] == b[4..];
    assert Unfixed(b[3..]) == b[3] + 256 * Unfixed(b[4..]);
    assert Unfixed(b[2..]) == b[2] + 256 * Unfixed(b[3..]);
    assert Unfixed(b[1..]) == b[1] + 256 * Unfixed(b[2..]);
  }

  method DecodeFixed64(p: Bytes) returns (v: nat)
    requires |p| >= 8
    ensures v == Unfixed(p[..8]) < WORD64
  {
    hide Unfixed;
    var lo := DecodeFixed32(p[..4]);
    var hi := DecodeFixed32(p[4..]);
    var q := p[..8];
    assert p[..4][..4] == q[..4] && p[4..][..4] == q[4..];
    FourBytes(q[..4]);
    FourBytes(q[4..]);
    EightBytes(q);
    v := lo + 0x1_0000_0000 * hi;
  }

  // ---- varints -------------------------------------------------------------------------------

  /** Seven bits a byte, the high bit set on all but the last. */
  function Varint(v: nat): (r: Bytes)
    ensures |r| > 0
  {
    if v < 128 then [v] else [v % 128 + 128] + Varint(v / 128)
  }

  /** EncodeVarint32: one branch for every length. */
  method EncodeVarint32(v: nat) returns (r: Bytes)
    requires v < WORD32
    ensures r == Varint(v)
  {
    Ladder(v);
    if v < 0x80 {
      r := [v];
    } else if v < 0x4000 {
      r := [v % 128 + 128, v / 0x80];
    } else if v < 0x20_0000 {
      r := [v % 128 + 128, (v / 0x80) % 128 + 128, v / 0x4000];
    } else if v < 0x1000_0000 {
      r := [v % 128 + 128, (v / 0x80) % 128 + 128, (v / 0x4000) % 128 + 128, v / 0x20_0000];
    } else {
      r := [v % 128 + 128, (v / 0x80) % 128 + 128, (v / 0x4000) % 128 + 128, (v / 0x20_0000) % 128 + 128,
            v / 0x1000_0000];
    }
  }

  lemma Ladder(v: nat)
    requires v < WORD32
    ensures v >= 0x80 ==> Varint(v) == [v % 128 + 128] + Varint(v / 0x80)
    ensures v >= 0x4000 ==> Varint(v / 0x80) == [(v / 0x80) % 128 + 128] + Varint(v / 0x4000)
    ensures v >= 0x20_0000 ==> Varint(v / 0x4000) == [(v / 0x4000) % 128 + 128] + Varint(v / 0x20_0000)
    ensures v >= 0x1000_0000 ==> Varint(v / 0x20_0000) == [(v / 0x20_0000) % 128 + 128] + Varint(v / 0x1000_0000)
    ensures v / 0x1000_0000 < 128
  {
    assert v / 0x80 / 128 == v / 0x4000 && v / 0x4000 / 128 == v / 0x20_0000 && v / 0x20_0000 / 128 == v / 0x1000_0000;
  }

  /** EncodeVarint64: the loop. */
  method EncodeVarint64(value: nat) returns (r: Bytes)
    ensures r == Varint(value)
  {
    var v := value;
    r := [];
    while v >= 128
      invariant r + Varint(v) == Varint(value)
    {
      assert Varint(v) == [v % 128 + 128] + Varint(v / 128);
      r, v := r + [v % 128 + 128], v / 128;
    }
    r := r + [v];
  }

  /** What at most count bytes from p on stand for. */
  function ReadVarint(data: Bytes, p: nat, limit: nat, count: nat): (r: Option<Read<nat>>)
    requires limit <= |data|
    ensures r.Some? ==> p < r.value.next <= limit
    decreases count
  {
    if p >= limit || count == 0 then None
    else if data[p] < 128 then Some(Read(data[p], p + 1))
    else Lift(data[p] - 128, 128, ReadVarint(data, p + 1, limit, count - 1))
  }

  function Lift(low: nat, scale: nat, r: Option<Read<nat>>): Option<Read<nat>> {
    match r
    case None => None
    case Some(Read(v, next)) => Some(Read(low + scale * v, next))
  }

  lemma LiftTwice(low: nat, scale: nat, digit: nat, r: Option<Read<nat>>)
    ensures Lift(low, scale, Lift(digit, 128, r)) == Lift(low + scale * digit, scale * 128, r)
  {
    if r.Some? {
      var v := r.value.value;
      assert scale * (digit + 128 * v) == scale * digit + scale * (128 * v) == scale * digit + (scale * 128) * v;
    }
  }

  /** What GetVarint32 and GetVarint64 answer: at most 5 or 10 bytes, and the value loses what does not fit. */
  function GetVarint(data: Bytes, p: nat, limit: nat, bits64: bool): (r: Option<Read<nat>>)
    requires limit <= |data|
    ensures r.Some? ==> p < r.value.next <= limit && r.value.value < (if bits64 then WORD64 else WORD32)
  {
    match ReadVarint(data, p, limit, if bits64 then 10 else 5)
    case None => None
    case Some(Read(v, next)) => Some(Read(Truncated(v, bits64), next))
  }

  function Truncated(v: nat, bits64: bool): nat {
    v % (if bits64 then WORD64 else WORD32)
  }

  /** A byte shifted to its place; the places do not overlap, so "or" adds. */
  function InPlace(scale: nat, b: nat): nat {
    scale * b
  }

  /** GetVarint32Ptr with its fallback, and GetVarint64Ptr: the loops over shift. */
  method GetVarintPtr(data: Bytes, start: nat, limit: nat, bits64: bool) returns (r: Option<Read<nat>>)
    requires limit <= |data|
    ensures r == GetVarint(data, start, limit, bits64)
  {
    hide ReadVarint, Lift, InPlace, GetVarint, Truncated;
    if !bits64 && start < limit && data[start] < 128 {
      OneByte(data, start, limit, 5);
      GetIs(data, start, limit, bits64);
      return Some(Read(data[start], start + 1));
    }
    GetIs(data, start, limit, bits64);
    var p: nat, result: nat, scale: nat, shift := start, 0, 1, 0;
    var last, count := if bits64 then 63 else 28, if bits64 then 10 else 5;
    LiftNothing(ReadVarint(data, start, limit, count));
    while shift <= last && p < limit
      invariant start <= p && shift == 7 * (p - start) <= last + 7
      invariant ReadVarint(data, start, limit, count) ==
        Lift(result, scale, ReadVarint(data, p, limit, count - (p - start)))
    {
      var byte := data[p];
      Unroll(data, p, limit, count - (p - start), result, scale);
      p := p + 1;
      if byte >= 128 {
        result := result + InPlace(scale, byte - 128);
      } else {
        result := result + InPlace(scale, byte);
        return Some(Read(Truncated(result, bits64), p));
      }
      scale, shift := scale * 128, shift + 7;
    }
    NothingLeft(data, p, limit, count - (p - start), result, scale);
    r := None;
  }

  lemma GetIs(data: Bytes, p: nat, limit: nat, bits64: bool)
    requires limit <= |data|
    ensures var r := ReadVarint(data, p, limit, if bits64 then 10 else 5);
      GetVarint(data, p, limit, bits64) == if r.None? then None
        else Some(Read(Truncated(r.value.value, bits64), r.value.next))
    ensures forall b: Byte :: Truncated(b, bits64) == b
  {
  }

  lemma OneByte(data: Bytes, p: nat, limit: nat, count: nat)
    requires p < limit <= |data| && data[p] < 128 && count > 0
    ensures ReadVarint(data, p, limit, count) == Some(Read(data[p], p + 1))
  {
  }

  lemma LiftNothing(r: Option<Read<nat>>)
    ensures Lift(0, 1, r) == r
  {
  }

  lemma Unroll(data: Bytes, p: nat, limit: nat, count: nat, low: nat, scale: nat)
    requires p < limit <= |data| && count > 0
    ensures data[p] < 128 ==>
      Lift(low, scale, ReadVarint(data, p, limit, count)) == Some(Read(low + InPlace(scale, data[p]), p + 1))
    ensures data[p] >= 128 ==> (Lift(low, scale, ReadVarint(data, p, limit, count)) ==
                                Lift(low + InPlace(scale, data[p] - 128), scale * 128,
                                     ReadVarint(data, p + 1, limit, count - 1)))
  {
    if data[p] >= 128 {
      LiftTwice(low, scale, data[p] - 128, ReadVarint(data, p + 1, limit, count - 1));
    }
  }

  lemma NothingLeft(data: Bytes, p: nat, limit: nat, count: nat, low: nat, scale: nat)
    requires limit <= |data| && (p >= limit || count == 0)
    ensures Lift(low, scale, ReadVarint(data, p, limit, count)) == None
  {
  }

  /** The data has these bytes at p. */
  ghost predicate At(data: Bytes, p: nat, bytes: Bytes) {
    p + |bytes| <= |data| && data[p..p + |bytes|] == bytes
  }

  lemma AtParts(data: Bytes, p: nat, a: Bytes, b: Bytes)
    requires At(data, p, a + b)
    ensures At(data, p, a) && At(data, p + |a|, b)
  {
    var whole := data[p..p + |a + b|];
    assert whole[..|a|] == a && whole[|a|..] == b;
    assert data[p..p + |a|] == whole[..|a|] && data[p + |a|..p + |a| + |b|] == whole[|a|..];
  }

  lemma {:induction false} VarintReads(data: Bytes, p: nat, limit: nat, count: nat, v: nat)
    requires At(data, p, Varint(v)) && p + |Varint(v)| <= limit <= |data| && |Varint(v)| <= count
    ensures ReadVarint(data, p, limit, count) == Some(Read(v, p + |Varint(v)|))
    decreases v
  {
    assert data[p] == Varint(v)[0];
    if v >= 128 {
      assert Varint(v) == [v % 128 + 128] + Varint(v / 128);
      AtParts(data, p, [v % 128 + 128], Varint(v / 128));
      VarintReads(data, p + 1, limit, count - 1, v / 128);
    }
  }

  function Power128(n: nat): (p: nat)
    ensures p > 0
  {
    if n == 0 then 1 else 128 * Power128(n - 1)
  }

  lemma {:induction false} VarintLength(v: nat, n: nat)
    requires v < Power128(n) && n > 0
    ensures |Varint(v)| <= n
    decreases n
  {
    if v >= 128 {
      VarintLength(v / 128, n - 1);
    }
  }

  lemma VarintFits(v: nat)
    ensures v < WORD32 ==> |Varint(v)| <= 5
    ensures v < WORD64 ==> |Varint(v)| <= 10
  {
    assert Power128(1) == 128 && Power128(2) == 0x4000 && Power128(3) == 0x20_0000 && Power128(4) == 0x1000_0000;
    assert Power128(5) == 0x8_0000_0000 && Power128(6) == 128 * Power128(5) && Power128(7) == 128 * Power128(6);
    assert Power128(8) == 128 * Power128(7) && Power128(9) == 128 * Power128(8) && Power128(10) == 128 * Power128(9);
    if v < WORD32 {
      VarintLength(v, 5);
    }
    if v < WORD64 {
      VarintLength(v, 10);
    }
  }

  /** What was put is got back, wherever it stands. */
  lemma VarintRoundTrip(data: Bytes, p: nat, limit: nat, v: nat, bits64: bool)
    requires v < (if bits64 then WORD64 else WORD32) && At(data, p, Varint(v)) && p + |Varint(v)| <= limit <= |data|
    ensures GetVarint(data, p, limit, bits64) == Some(Read(v, p + |Varint(v)|))
  {
    hide GetVarint, ReadVarint, Varint, At;
    VarintFits(v);
    VarintReads(data, p, limit, if bits64 then 10 else 5, v);
    GetIs(data, p, limit, bits64);
    NothingIsCut(v, bits64);
  }

  lemma NothingIsCut(v: nat, bits64: bool)
    requires v < if bits64 then WORD64 else WORD32
    ensures Truncated(v, bits64) == v
  {
  }

  // ---- length-prefixed strings ------------------------------------------------------------------------

  function Prefixed(s: Bytes): Bytes {
    Varint(|s|) + s
  }

  function GetPrefixed(data: Bytes, p: nat): (r: Option<Read<Bytes>>)
    ensures r.Some? ==> p < r.value.next <= |data|
  {
    match GetVarint(data, p, |data|, false)
    case None => None
    case Some(Read(len, q)) => if q + len <= |data| then Some(Read(data[q..q + len], q + len)) else None
  }

  lemma PrefixedRoundTrip(data: Bytes, p: nat, s: Bytes)
    requires |s| < WORD32 && At(data, p, Prefixed(s))
    ensures GetPrefixed(data, p) == Some(Read(s, p + |Prefixed(s)|))
  {
    AtParts(data, p, Varint(|s|), s);
    VarintRoundTrip(data, p, |data|, |s|, false);
  }

  method PutLengthPrefixedSlice(s: Bytes) returns (r: Bytes)
    requires |s| < WORD32
    ensures r == Prefixed(s)
  {
    var n := EncodeVarint32(|s|);
    r := n + s;
  }

  method GetLengthPrefixedSlice(data: Bytes, p: nat) returns (r: Option<Read<Bytes>>)
    requires p <= |data|
    ensures r == GetPrefixed(data, p)
  {
    hide GetVarint;
    var n := GetVarintPtr(data, p, |data|, false);
    if n.None? || n.value.next + n.value.value > |data| {
      return None;
    }
    r := Some(Read(data[n.value.next..n.value.next + n.value.value], n.value.next + n.value.value));
  }
}
