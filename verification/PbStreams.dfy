/** The reading half of nanopb's streams: bytes, varints, tags, skipped fields and substreams of pb_decode.c.
    The ghost parameters name what the stream is supposed to hold next. */
module PbStreams {
  import opened Options
  import opened Coding
  import opened PbFields
  import opened PbWire

  /** How far a varint has been read: the lower bits are in result, quotient is still to come. */
  ghost predicate Midway(v: nat, result: nat, scale: nat, quotient: nat, count: nat) {
    v == result + scale * quotient && scale == Power128(count) && count + |Varint(quotient)| == |Varint(v)|
  }

  lemma MidwayStarts(v: nat)
    ensures Midway(v, 0, 1, v, 0)
  {
  }

  /** What the next byte is, and what is left behind it. */
  lemma NextSeven(v: nat, result: nat, scale: nat, quotient: nat, count: nat)
    requires Midway(v, result, scale, quotient, count)
    ensures quotient < 128 ==> Varint(quotient) == [quotient] && v == result + scale * quotient
    ensures quotient >= 128 ==> Varint(quotient) == [quotient % 128 + 128] + Varint(quotient / 128)
    ensures quotient >= 128 ==> Midway(v, result + scale * (quotient % 128), scale * 128, quotient / 128, count + 1)
    ensures result + scale * (quotient % 128) <= v && scale * (quotient % 128) <= v
    ensures v < WORD32 ==> count <= 4 && (count == 4 ==> quotient < 16)
    ensures v < WORD64 ==> count <= 9
  {
    hide Varint, Power128;
    VarintFits(v);
    Unfold(quotient);
    PowerSteps(count);
    var q, d := quotient / 128, quotient % 128;
    assert scale * quotient == scale * d + (scale * 128) * q by {
      assert quotient == 128 * q + d;
      assert scale * (128 * q + d) == scale * (128 * q) + scale * d;
    }
    Nonnegative(scale * 128, q);
    Nonnegative(scale, d);
  }

  /** The same, said of the bytes that are left. */
  lemma NextByte(v: nat, result: nat, scale: nat, quotient: nat, count: nat, rest: Bytes, tail: Bytes)
    requires Midway(v, result, scale, quotient, count) && rest == Varint(quotient) + tail
    ensures |rest| > 0 && rest[0] % 128 == quotient % 128 && (rest[0] < 128 <==> quotient < 128)
    ensures quotient < 128 ==> rest[1..] == tail && v == result + InPlace(scale, rest[0] % 128)
    ensures quotient >= 128 ==> rest[1..] == Varint(quotient / 128) + tail
    ensures quotient >= 128 ==>
      Midway(v, result + InPlace(scale, rest[0] % 128), scale * 128, quotient / 128, count + 1)
    ensures result + InPlace(scale, rest[0] % 128) <= v
    ensures v < WORD32 ==> count <= 4 && (count == 4 ==> rest[0] < 16)
    ensures v < WORD64 ==> count <= 9
  {
    hide Varint, Midway;
    NextSeven(v, result, scale, quotient, count);
  }

  lemma AtScaleOne(b: nat)
    ensures InPlace(1, b) == b
  {
  }

  lemma Unfold(v: nat)
    ensures Varint(v) == if v < 128 then [v] else [v % 128 + 128] + Varint(v / 128)
  {
  }

  lemma PowerSteps(n: nat)
    ensures Power128(n + 1) == 128 * Power128(n) && Power128(4) == 0x1000_0000
  {
    assert Power128(1) == 128 && Power128(2) == 0x4000 && Power128(3) == 0x20_0000;
  }

  lemma Nonnegative(a: nat, b: nat)
    ensures a * b >= 0
  {
  }

  lemma ZeroFits()
    ensures Truncated(0, true) == 0
  {
  }

  lemma TruncatedSum(a: nat, b: nat)
    ensures Truncated(a + b, true) == (Truncated(a, true) + b) % WORD64
  {
  }

  class IStream {
    const data: Bytes
    var state: nat
    var bytesLeft: nat
    ghost const end: nat

    ghost predicate Valid()
      reads this
    {
      state + bytesLeft == end <= |data|
    }

    ghost function Rest(): Bytes
      requires Valid()
      reads this
    {
      data[state..end]
    }

    constructor (data: Bytes, state: nat, bytesLeft: nat)
      requires state + bytesLeft <= |data|
      ensures Valid() && this.data == data && this.state == state && this.bytesLeft == bytesLeft &&
        end == state + bytesLeft
    {
      this.data, this.state, this.bytesLeft, end := data, state, bytesLeft, state + bytesLeft;
    }

    /** pb_read from a buffer, with or without a destination. */
    method Read(count: nat) returns (r: Option<Bytes>)
      requires Valid()
      modifies this
      ensures Valid() && (r.Some? <==> count <= old(bytesLeft))
      ensures r.Some? ==>
        r.value == old(Rest())[..count] && Rest() == old(Rest())[count..] && bytesLeft == old(bytesLeft) - count
      ensures r.None? ==> bytesLeft == old(bytesLeft)
    {
      if bytesLeft < count {
        return None;
      }
      r := Some(data[state..state + count]);
      state, bytesLeft := state + count, bytesLeft - count;
    }

    method ReadByte() returns (r: Option<Byte>)
      requires Valid()
      modifies this
      ensures Valid() && (r.Some? <==> old(bytesLeft) > 0)
      ensures r.Some? ==> r.value == old(Rest())[0] && Rest() == old(Rest())[1..] && bytesLeft == old(bytesLeft) - 1
      ensures r.None? ==> bytesLeft == old(bytesLeft)
    {
      if bytesLeft == 0 {
        return None;
      }
      r := Some(data[state]);
      state, bytesLeft := state + 1, bytesLeft - 1;
    }

    /** pb_decode_varint32_eof. Bits beyond the lower 32 have to be zeros, or ones that continue the sign. */
    method DecodeVarint32(ghost v: nat, ghost tail: Bytes) returns (r: Option<nat>, eof: bool)
      requires Valid()
      modifies this
      ensures Valid() && bytesLeft <= old(bytesLeft) && (r.Some? ==> bytesLeft < old(bytesLeft) && r.value < WORD32)
      ensures eof <==> old(bytesLeft) == 0
      ensures v < WORD32 && old(Rest()) == Varint(v) + tail ==> r == Some(v) && Rest() == tail
    {
      hide Varint, Midway, InPlace;
      eof := bytesLeft == 0;
      ghost var on := v < WORD32 && Rest() == Varint(v) + tail;
      ghost var quotient := v;
      MidwayStarts(v);
      if on {
        NextByte(v, 0, 1, quotient, 0, Rest(), tail);
      }
      var first := ReadByte();
      if first.None? {
        return None, eof;
      }
      var byte: nat := first.value;
      var result: nat := byte;
      if byte >= 128 {
        var bitpos, scale: nat := 7, 128;
        ghost var count := 1;
        result, quotient := byte - 128, quotient / 128;
        AtScaleOne(byte % 128);
        while true
          invariant Valid() && bytesLeft < old(bytesLeft) && result < WORD32 && bitpos == 7 * count
          invariant on ==> Rest() == Varint(quotient) + tail && Midway(v, result, scale, quotient, count)
          decreases bytesLeft
        {
          if on {
            NextByte(v, result, scale, quotient, count, Rest(), tail);
          }
          var next := ReadByte();
          if next.None? {
            return None, eof;
          }
          byte := next.value;
          if bitpos >= 32 {
            var signExtension := if bitpos < 63 then 0xFF else 0x01;
            if byte % 128 != 0 && (result < 0x8000_0000 || byte != signExtension) {
              return None, eof;
            }
          } else {
            result := (result + InPlace(scale, byte % 128)) % WORD32;
          }
          bitpos := bitpos + 7;
          if byte < 128 {
            break;
          }
          scale, count, quotient := scale * 128, count + 1, quotient / 128;
        }
        if bitpos == 35 && byte / 16 % 8 != 0 {
          return None, eof;
        }
      }
      r := Some(result);
    }

    /** pb_decode_varint: on any bytes, what at most ten of them stand for, cut to 64 bits. */
    method DecodeVarint(ghost v: nat, ghost tail: Bytes) returns (r: Option<nat>)
      requires Valid()
      modifies this
      ensures Valid() && bytesLeft <= old(bytesLeft) && (r.Some? ==> bytesLeft < old(bytesLeft) && r.value < WORD64)
      ensures var g := GetVarint(data, old(state), end, true);
        (r.Some? <==> g.Some?) && (r.Some? ==> g == Some(Coding.Read(r.value, state)))
      ensures v < WORD64 && old(Rest()) == Varint(v) + tail ==> r == Some(v) && Rest() == tail
    {
      hide Varint, InPlace, ReadVarint, Lift, GetVarint, Truncated;
      if v < WORD64 && Rest() == Varint(v) + tail {
        VarintIsNext(v, tail);
      }
      ghost var start, sum: nat := state, 0;
      GetIs(data, start, end, true);
      LiftNothing(ReadVarint(data, start, end, 10));
      ZeroFits();
      var bitpos, scale: nat, result: nat := 0, 1, 0;
      while true
        invariant Valid() && start <= state <= start + 10 && bytesLeft <= old(bytesLeft) &&
          bitpos == 7 * (state - start)
        invariant result == Truncated(sum, true)
        invariant ReadVarint(data, start, end, 10) ==
          Lift(sum, scale, ReadVarint(data, state, end, 10 - (state - start)))
        decreases bytesLeft
      {
        if bitpos >= 64 {
          NothingLeft(data, state, end, 10 - (state - start), sum, scale);
          return None;
        }
        ghost var p := state;
        var next := ReadByte();
        if next.None? {
          NothingLeft(data, p, end, 10 - (p - start), sum, scale);
          return None;
        }
        Unroll(data, p, end, 10 - (p - start), sum, scale);
        TruncatedSum(sum, InPlace(scale, next.value % 128));
        result := (result + InPlace(scale, next.value % 128)) % WORD64;
        sum := sum + InPlace(scale, next.value % 128);
        bitpos := bitpos + 7;
        if next.value < 128 {
          return Some(result);
        }
        scale := scale * 128;
      }
    }

    lemma VarintIsNext(v: nat, tail: Bytes)
      requires Valid() && v < WORD64 && Rest() == Varint(v) + tail
      ensures GetVarint(data, state, end, true) == Some(Coding.Read(v, state + |Varint(v)|)) &&
        data[state + |Varint(v)|..end] == tail
    {
      hide GetVarint, Varint;
      assert data[state..state + |Varint(v)|] == Rest()[..|Varint(v)|] == Varint(v);
      assert data[state + |Varint(v)|..end] == Rest()[|Varint(v)|..];
      VarintRoundTrip(data, state, end, v, true);
    }

    /** pb_decode_svarint. */
    method DecodeSVarint(ghost v: nat, ghost tail: Bytes) returns (r: Option<int>)
      requires Valid()
      modifies this
      ensures Valid() && bytesLeft <= old(bytesLeft) &&
        (r.Some? ==> bytesLeft < old(bytesLeft) && FitsSigned(r.value, 8))
      ensures v < WORD64 && old(Rest()) == Varint(v) + tail ==> r == Some(UnZigZag(v)) && Rest() == tail
    {
      var value := DecodeVarint(v, tail);
      if value.None? {
        return None;
      }
      var half := value.value / 2;
      r := Some(if value.value % 2 == 1 then Signed(WORD64 - 1 - half, 8) else half);
    }

    method DecodeFixed32() returns (r: Option<nat>)
      requires Valid()
      modifies this
      ensures Valid() && (r.Some? <==> old(bytesLeft) >= 4) && bytesLeft <= old(bytesLeft)
      ensures r.Some? ==>
        r.value == Unfixed(old(Rest())[..4]) < WORD32 && Rest() == old(Rest())[4..] && bytesLeft < old(bytesLeft)
    {
      var bytes := Read(4);
      if bytes.None? {
        return None;
      }
      FourBytes(bytes.value);
      r := Some(bytes.value[0] as nat + 0x100 * (bytes.value[1] as nat) + 0x1_0000 * (bytes.value[2] as nat) +
                0x100_0000 * (bytes.value[3] as nat));
    }

    method DecodeFixed64() returns (r: Option<nat>)
      requires Valid()
      modifies this
      ensures Valid() && (r.Some? <==> old(bytesLeft) >= 8) && bytesLeft <= old(bytesLeft)
      ensures r.Some? ==>
        r.value == Unfixed(old(Rest())[..8]) < WORD64 && Rest() == old(Rest())[8..] && bytesLeft < old(bytesLeft)
    {
      hide Unfixed;
      var bytes := Read(8);
      if bytes.None? {
        return None;
      }
      var b := bytes.value;
      EightBytes(b);
      r := Some(b[0] as nat + 0x100 * (b[1] as nat) + 0x1_0000 * (b[2] as nat) + 0x100_0000 * (b[3] as nat) +
                0x1_0000_0000 * (b[4] as nat) + 0x100_0000_0000 * (b[5] as nat) + 0x1_0000_0000_0000 * (b[6] as nat) +
                  0x100_0000_0000_0000 * (b[7] as nat));
    }

    /** A varint of any length. */
    method SkipVarint(ghost b: Bytes, ghost tail: Bytes) returns (ok: bool)
      requires Valid()
      modifies this
      ensures Valid() && bytesLeft <= old(bytesLeft)
      ensures WellForeign(Varint64(b)) && old(Rest()) == b + tail ==> ok && Rest() == tail
      ensures ok <==> exists last :: last in old(Rest()) && last < 128
    {
      ghost var on, k, rest := WellForeign(Varint64(b)) && Rest() == b + tail, 0, Rest();
      while true
        invariant Valid() && bytesLeft <= old(bytesLeft)
        invariant on ==> k < |b| && Rest() == b[k..] + tail
        invariant k <= |rest| && Rest() == rest[k..]
        invariant forall i :: 0 <= i < k ==> rest[i] >= 128
        decreases bytesLeft
      {
        var byte := ReadByte();
        if byte.None? {
          return false;
        }
        if byte.value < 128 {
          assert rest[k] in rest;
          return true;
        }
        k := k + 1;
      }
    }

    method SkipString(ghost b: Bytes, ghost tail: Bytes) returns (ok: bool)
      requires Valid()
      modifies this
      ensures Valid() && bytesLeft <= old(bytesLeft)
      ensures |b| < WORD32 && old(Rest()) == Prefixed(b) + tail ==> ok && Rest() == tail
    {
      hide Varint;
      ghost var on := |b| < WORD32 && Rest() == Prefixed(b) + tail;
      assert on ==> Rest() == Varint(|b|) + (b + tail);
      var length, _ := DecodeVarint32(|b|, b + tail);
      if length.None? {
        return false;
      }
      var skipped := Read(length.value);
      ok := skipped.Some?;
    }

    /** pb_decode_tag: the field number and the wire type. A zero ends the message as the end of the stream does. */
    method DecodeTag(ghost tag: nat, ghost wireType: nat, ghost tail: Bytes) returns (r: Option<(nat, nat)>, eof: bool)
      requires Valid()
      modifies this
      ensures Valid() && bytesLeft <= old(bytesLeft) && (r.Some? ==> bytesLeft < old(bytesLeft))
      ensures 0 < tag < MAX_TAG && wireType < 8 && old(Rest()) == TagBytes(tag, wireType) + tail ==>
        r == Some((tag, wireType)) && Rest() == tail
    {
      hide Varint;
      var temp, atEnd := DecodeVarint32(8 * tag + wireType, tail);
      eof := atEnd;
      if temp.None? {
        return None, eof;
      }
      if temp.value == 0 {
        return None, true;
      }
      r := Some((temp.value / 8, temp.value % 8));
    }

    /** pb_skip_field. */
    method SkipField(wireType: nat, ghost f: Foreign, ghost tail: Bytes) returns (ok: bool)
      requires Valid()
      modifies this
      ensures Valid() && bytesLeft <= old(bytesLeft)
      ensures WellForeign(f) && wireType == ForeignType(f) && old(Rest()) == ForeignBytes(f) + tail ==>
        ok && Rest() == tail
      ensures wireType == 0 && f.Varint64? && WellForeign(f) && old(Rest()) == f.bytes + tail ==> ok && Rest() == tail
      ensures wireType == 0 ==> (ok <==> exists last :: last in old(Rest()) && last < 128)
      ensures wireType == 1 ==> (ok <==> |old(Rest())| >= 8) && (ok ==> Rest() == old(Rest())[8..])
      ensures wireType == 2 && f.Sized? && WellForeign(f) && old(Rest()) == Varint(|f.bytes|) + f.bytes + tail ==>
        ok && Rest() == tail
      ensures wireType == 5 ==> (ok <==> |old(Rest())| >= 4) && (ok ==> Rest() == old(Rest())[4..])
      ensures wireType == 3 || wireType == 4 || wireType > 5 ==> !ok
    {
      if wireType == VARINT {
        ok := SkipVarint(f.bytes, tail);
      } else if wireType == EIGHT {
        var r := Read(8);
        ok := r.Some?;
      } else if wireType == STRING {
        ok := SkipString(f.bytes, tail);
      } else if wireType == FOUR {
        var r := Read(4);
        ok := r.Some?;
      } else {
        ok := false;
      }
    }

    /** This stream has lent its next bytes to the other one; it stands still until that is closed. */
    ghost predicate Lent(substream: IStream)
      reads this, substream
    {
      substream != this && substream.Valid() && substream.data == data && substream.end + bytesLeft == end <= |data|
    }

    /** What follows the lent bytes. */
    ghost function Behind(substream: IStream): Bytes
      requires Lent(substream)
      reads this, substream
    {
      data[substream.end..end]
    }

    method MakeStringSubstream(ghost body: Bytes, ghost tail: Bytes) returns (substream: IStream?)
      requires Valid()
      modifies this
      ensures substream == null ==> Valid() && bytesLeft <= old(bytesLeft)
      ensures substream != null ==>
        fresh(substream) && Lent(substream) && bytesLeft + substream.bytesLeft < old(bytesLeft)
      ensures |body| < WORD32 && old(Rest()) == Prefixed(body) + tail ==>
        substream != null && substream.Rest() == body && Behind(substream) == tail
    {
      hide Varint;
      ghost var on := |body| < WORD32 && Rest() == Prefixed(body) + tail;
      assert on ==> Rest() == Varint(|body|) + (body + tail);
      var size, _ := DecodeVarint32(|body|, body + tail);
      if size.None? || bytesLeft < size.value {
        return null;
      }
      ghost var rest := Rest();
      substream := new IStream(data, state, size.value);
      bytesLeft := bytesLeft - size.value;
      assert substream.Rest() == rest[..size.value] && Behind(substream) == rest[size.value..];
    }

    /** pb_close_string_substream: skips what is left of the lent bytes. */
    method CloseStringSubstream(substream: IStream)
      requires Lent(substream)
      modifies this, substream
      ensures Valid() && Rest() == old(Behind(substream)) && bytesLeft == old(bytesLeft)
    {
      if substream.bytesLeft > 0 {
        var _ := substream.Read(substream.bytesLeft);
      }
      state := substream.state;
    }
  }
}
