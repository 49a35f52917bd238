/** The bytes of one field, in the numbers of the protocol buffers wire format: the tag is eight times the field number
  plus the wire type, which is 0 for a varint, 1 for eight bytes, 2 for a length and as many bytes, 5 for four bytes. */
module PbFormat {
  import opened Options
  import opened Coding
  import opened PbFields
  import opened PbWire
  import opened PbEncode

  /** A message of one field that is always sent. */
  function Alone(tag: nat, kind: Kind): seq<Field> {
    [Field(tag, kind, Required, None)]
  }

  lemma AloneSends(tag: nat, kind: Kind, v: Value)
    ensures Encoding(Alone(tag, kind), [One(v)]) ==
      TagBytes(tag, WireType(kind)) + PayloadBytes(kind, PayloadOf(kind, v))
  {
    hide TagBytes, WireType, PayloadBytes, PayloadOf, Varint;
    var fields, slots := Alone(tag, kind), [One(v)];
    var items := [Single(0, PayloadOf(kind, v))];
    assert Member(fields, 0) == 0 && ItemsOf(fields, slots, 0) == [];
    assert FieldItems(fields[0], 0, slots[0]) == items;
    assert ItemsOf(fields, slots, 1) == items;
    assert items[..0] == [] && ItemsBytes(fields, []) == [];
    assert ItemsBytes(fields, items) == ItemBytes(fields, items[0]);
  }

  /** bool, enum, int32, int64, uint32 and uint64: a varint of 64 bits, in two's complement. */
  lemma VarintField(tag: nat, kind: Kind, n: int)
    requires kind.Bool? || kind.Int? || kind.UInt?
    requires -0x8000_0000_0000_0000 <= n < 0x1_0000_0000_0000_0000
    ensures Encoding(Alone(tag, kind), [One(Num(n))]) ==
      Varint(8 * tag) + Varint(if n < 0 then n + 0x1_0000_0000_0000_0000 else n)
  {
    hide Encoding, Varint;
    AloneSends(tag, kind, Num(n));
  }

  /** sint32 and sint64: 0, -1, 1, -2, 2 and so on are sent as 0, 1, 2, 3, 4. */
  lemma ZigZagField(tag: nat, size: nat, n: int)
    requires -0x8000_0000_0000_0000 <= n < 0x8000_0000_0000_0000
    ensures Encoding(Alone(tag, SInt(size)), [One(Num(n))]) ==
      Varint(8 * tag) + Varint(if n < 0 then -2 * n - 1 else 2 * n)
  {
    hide Encoding, Varint;
    AloneSends(tag, SInt(size), Num(n));
  }

  /** fixed32, sfixed32 and float. */
  lemma WordField(tag: nat, n: nat)
    requires n < 0x1_0000_0000
    ensures Encoding(Alone(tag, Word), [One(Num(n))]) ==
      Varint(8 * tag + 5) + [n % 256, n / 0x100 % 256, n / 0x1_0000 % 256, n / 0x100_0000 % 256]
  {
    hide Encoding, Varint, Fixed;
    AloneSends(tag, Word, Num(n));
    FixedIs(n);
  }

  /** fixed64, sfixed64 and double. */
  lemma LongWordField(tag: nat, n: nat)
    requires n < 0x1_0000_0000_0000_0000
    ensures Encoding(Alone(tag, LongWord), [One(Num(n))]) ==
      Varint(8 * tag + 1) +
      [n % 256, n / 0x100 % 256, n / 0x1_0000 % 256, n / 0x100_0000 % 256, n / 0x1_0000_0000 % 256,
       n / 0x100_0000_0000 % 256, n / 0x1_0000_0000_0000 % 256, n / 0x100_0000_0000_0000 % 256]
  {
    hide Encoding, Varint, Fixed;
    AloneSends(tag, LongWord, Num(n));
    EightBytes(n);
    assert PayloadBytes(LongWord, PayloadOf(LongWord, Num(n))) == Fixed(n, 8);
  }

  lemma EightBytes(n: nat)
    ensures Fixed(n, 8) ==
      [n % 256, n / 0x100 % 256, n / 0x1_0000 % 256, n / 0x100_0000 % 256, n / 0x1_0000_0000 % 256,
       n / 0x100_0000_0000 % 256, n / 0x1_0000_0000_0000 % 256, n / 0x100_0000_0000_0000 % 256]
  {
    hide Fixed;
    FixedIs(n);
    FixedIs(n / 0x1_0000_0000);
    FixedHalves(n);
  }

  /** The bytes of a number, least significant first. */
  lemma FixedIs(n: nat)
    ensures Fixed(n, 4) == [n % 256, n / 0x100 % 256, n / 0x1_0000 % 256, n / 0x100_0000 % 256]
  {
    var a, b, c := n / 256, n / 256 / 256, n / 256 / 256 / 256;
    assert b == n / 0x1_0000 && c == n / 0x100_0000;
    assert Fixed(c, 1) == [c % 256] + Fixed(c / 256, 0);
    assert Fixed(b, 2) == [b % 256] + Fixed(c, 1);
    assert Fixed(a, 3) == [a % 256] + Fixed(b, 2);
    assert Fixed(n, 4) == [n % 256] + Fixed(a, 3);
  }

  lemma FixedHalves(n: nat)
    ensures Fixed(n, 8) == Fixed(n, 4) + Fixed(n / 0x1_0000_0000, 4)
  {
    var a, b, c := n / 256, n / 256 / 256, n / 256 / 256 / 256;
    assert c / 256 == n / 0x1_0000_0000;
    assert Fixed(c, 5) == [c % 256] + Fixed(n / 0x1_0000_0000, 4);
    assert Fixed(b, 6) == [b % 256] + Fixed(c, 5);
    assert Fixed(a, 7) == [a % 256] + Fixed(b, 6);
    assert Fixed(n, 8) == [n % 256] + Fixed(a, 7);
    assert Fixed(c, 1) == [c % 256] + Fixed(c / 256, 0);
    assert Fixed(b, 2) == [b % 256] + Fixed(c, 1);
    assert Fixed(a, 3) == [a % 256] + Fixed(b, 2);
    assert Fixed(n, 4) == [n % 256] + Fixed(a, 3);
  }

  /** bytes, with a bound on their number or with a number of their own. */
  lemma BytesField(tag: nat, kind: Kind, b: Bytes)
    requires kind.Blob? || kind.FixedBlob?
    ensures Encoding(Alone(tag, kind), [One(Raw(b))]) == Varint(8 * tag + 2) + (Varint(|b|) + b)
  {
    hide Encoding, Varint;
    ChunkSends(tag, kind, Raw(b), b);
  }

  lemma ChunkSends(tag: nat, kind: Kind, v: Value, b: Bytes)
    requires (kind.Blob? || kind.FixedBlob? || kind.Text?) && PayloadOf(kind, v) == Chunk(b)
    ensures Encoding(Alone(tag, kind), [One(v)]) == Varint(8 * tag + 2) + (Varint(|b|) + b)
  {
    hide Encoding, Varint, PayloadOf;
    AloneSends(tag, kind, v);
  }

  /** string: what stands in front of the first zero. */
  lemma TextField(tag: nat, size: nat, text: Bytes, rest: Bytes)
    requires 0 !in text && (|rest| > 0 ==> rest[0] == 0)
    ensures Encoding(Alone(tag, Text(size)), [One(Raw(text + rest))]) == Varint(8 * tag + 2) + (Varint(|text|) + text)
  {
    hide Encoding, Varint, CString;
    InFrontOfZero(text, rest);
    ChunkSends(tag, Text(size), Raw(text + rest), text);
  }

  lemma {:induction false} InFrontOfZero(text: Bytes, rest: Bytes)
    requires 0 !in text && (|rest| > 0 ==> rest[0] == 0)
    ensures CString(text + rest) == text
  {
    if |text| == 0 {
      assert text + rest == rest;
    } else {
      assert text[0] in text;
      InFrontOfZero(text[1..], rest);
      assert (text + rest)[1..] == text[1..] + rest;
    }
  }

  /** A submessage: its length, and its own bytes. */
  lemma MessageField(tag: nat, fields: seq<Field>, slots: seq<Slot>)
    ensures var inner := Encoding(fields, slots);
      Encoding(Alone(tag, Message(fields)), [One(Struct(slots))]) == Varint(8 * tag + 2) + (Varint(|inner|) + inner)
  {
    hide Varint, ItemsBytes, ItemsOf;
    AloneSends(tag, Message(fields), Struct(slots));
  }

  /** A repeated field of numbers, if there are any: one record with the length of all of them in bytes. */
  lemma PackedField(tag: nat, kind: Kind, max: nat, vs: seq<Value>)
    requires kind.Packable()
    ensures var body := NumsBytes(kind, WireNums(kind, vs));
      Encoding([Field(tag, kind, Repeated(max), None)], [Many(vs)]) ==
        if vs == [] then [] else Varint(8 * tag + 2) + (Varint(|body|) + body)
  {
    hide Varint, NumsBytes, WireNums;
    var fields, slots := [Field(tag, kind, Repeated(max), None)], [Many(vs)];
    var items := FieldItems(fields[0], 0, slots[0]);
    assert Member(fields, 0) == 0 && ItemsOf(fields, slots, 0) == [];
    assert ItemsOf(fields, slots, 1) == items;
    if vs != [] {
      assert items[..0] == [] && ItemsBytes(fields, []) == [];
      assert ItemsBytes(fields, items) == ItemBytes(fields, items[0]);
    }
  }

  /** A varint has seven bits in each byte, the lowest first, and the eighth bit says that more follow. */
  lemma VarintIs(n: nat)
    ensures n < 128 ==> Varint(n) == [n]
    ensures 128 <= n < 16384 ==> Varint(n) == [n % 128 + 128, n / 128]
    ensures 128 <= n ==> Varint(n) == [n % 128 + 128] + Varint(n / 128)
  {
  }

  /** A message of one fixed64 field with the number 1 and the value 1. */
  lemma OneAsFixed64()
    ensures Encoding(Alone(1, LongWord), [One(Num(1))]) == [9, 1, 0, 0, 0, 0, 0, 0, 0]
  {
    hide Encoding, Varint;
    LongWordField(1, 1);
    VarintIs(9);
  }
}
