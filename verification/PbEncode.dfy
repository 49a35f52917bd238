/** The encoder: pb_encode.c. */
module PbEncode {
  import opened Options
  import opened Coding
  import opened PbFields
  import opened PbWire

  // ---- what is sent ------------------------------------------------------------------------

  /** A text ends in front of its first zero byte. */
  function CString(b: Bytes): Bytes {
    if |b| == 0 || b[0] == 0 then [] else [b[0]] + CString(b[1..])
  }

  /** Nothing is sent for a field without a has_ flag that looks like this. */
  predicate IsZero(kind: Kind, v: Value)
    decreases v
  {
    match v
    case Num(n) => n == 0
    case Raw(b) => if kind.Text? then |b| == 0 || b[0] == 0 else if kind.FixedBlob? then kind.size == 0 else |b| == 0
    case Struct(slots) => AllDefault(FieldsOf(kind), slots)
  }

  predicate IsDefault(f: Field, slot: Slot)
    decreases slot
  {
    match slot
    case One(v) => !f.rule.Required? && IsZero(f.kind, v)
    case Maybe(has, _) => !has
    case Many(vs) => f.rule.Repeated? && |vs| == 0
    case Which(tag, _) => tag == 0
  }

  predicate AllDefault(fields: seq<Field>, slots: seq<Slot>)
    decreases slots
  {
    forall i :: 0 <= i < |fields| && Member(fields, i) < |slots| ==> IsDefault(fields[i], slots[Member(fields, i)])
  }

  function PayloadOf(kind: Kind, v: Value): Payload
    decreases v
  {
    match v
    case Num(n) => Scalar(ToWire(kind, n))
    case Raw(b) => Chunk(if kind.Text? then CString(b) else b)
    case Struct(slots) => Group(ItemsOf(FieldsOf(kind), slots, |FieldsOf(kind)|))
  }

  function Singles(kind: Kind, i: nat, vs: seq<Value>): seq<Item>
    decreases vs
  {
    if |vs| == 0 then [] else Singles(kind, i, vs[..|vs| - 1]) + [Single(i, PayloadOf(kind, vs[|vs| - 1]))]
  }

  function WireNums(kind: Kind, vs: seq<Value>): (ns: seq<nat>)
    ensures |ns| == |vs|
  {
    if |vs| == 0 then []
        else WireNums(kind, vs[..|vs| - 1]) + [ToWire(kind, if vs[|vs| - 1].Num? then vs[|vs| - 1].n else 0)]
  }

  function FieldItems(f: Field, i: nat, slot: Slot): seq<Item>
    decreases slot
  {
    match slot
    case One(v) => if f.rule.Required? || !IsZero(f.kind, v) then [Single(i, PayloadOf(f.kind, v))] else []
    case Maybe(has, v) => if has then [Single(i, PayloadOf(f.kind, v))] else []
    case Many(vs) =>
      if |vs| == 0 then [] else if f.kind.Packable() then [Packed(i, WireNums(f.kind, vs))] else Singles(f.kind, i, vs)
    case Which(tag, v) => if tag == f.tag then [Single(i, PayloadOf(f.kind, v))] else []
  }

  /** The records of the first n fields. */
  function ItemsOf(fields: seq<Field>, slots: seq<Slot>, n: nat): seq<Item>
    requires n <= |fields|
    decreases slots, n
  {
    if n == 0 then []
    else
      ItemsOf(fields, slots, n - 1) +
      (if Member(fields, n - 1) < |slots| then FieldItems(fields[n - 1], n - 1, slots[Member(fields, n - 1)]) else [])
  }

  /** The bytes of a whole message. */
  function Encoding(fields: seq<Field>, slots: seq<Slot>): Bytes {
    ItemsBytes(fields, ItemsOf(fields, slots, |fields|))
  }

  /** No array that is sent is longer than its field, and no byte string longer than its buffer. */
  predicate Encodable(fields: seq<Field>, slots: seq<Slot>)
    decreases slots
  {
    forall i :: 0 <= i < |fields| && Member(fields, i) < |slots| ==> FieldEncodable(fields[i], slots[Member(fields, i)])
  }

  predicate FieldEncodable(f: Field, slot: Slot)
    decreases slot
  {
    match slot
    case One(v) => f.rule.Required? || !IsZero(f.kind, v) ==> ValueEncodable(f.kind, v)
    case Maybe(has, v) => has ==> ValueEncodable(f.kind, v)
    case Many(vs) => |vs| <= Room(f) && forall v :: v in vs ==> ValueEncodable(f.kind, v)
    case Which(tag, v) => tag == f.tag ==> ValueEncodable(f.kind, v)
  }

  predicate ValueEncodable(kind: Kind, v: Value)
    decreases v
  {
    match v
    case Num(_) => true
    case Raw(b) => kind.Blob? ==> |b| <= kind.capacity
    case Struct(slots) => Encodable(FieldsOf(kind), slots)
  }

  // ---- streams ---------------------------------------------------------------------------------

  datatype Error = StreamFull | ArraySizeExceeded | BytesSizeExceeded | SubmsgSizeChanged

  /** What a stream holds when bytes were sent to it; a counting stream stores nothing. */
  function Extended(counting: bool, out: Bytes, bytes: Bytes): Bytes {
    if counting then out else out + bytes
  }

  lemma ExtendedTwice(counting: bool, out: Bytes, a: Bytes, b: Bytes)
    ensures Extended(counting, Extended(counting, out, a), b) == Extended(counting, out, a + b)
  {
    assert (out + a) + b == out + (a + b);
  }

  lemma ExtendedNone(counting: bool, out: Bytes)
    ensures Extended(counting, out, []) == out
  {
  }

  class OStream {
    const counting: bool
    const maxSize: nat
    var out: Bytes
    var bytesWritten: nat
    var error: Option<Error>

    /** The size of a submessage never changes between the two passes. */
    ghost predicate Valid()
      reads this
    {
      (counting || bytesWritten <= maxSize) && error != Some(SubmsgSizeChanged)
    }

    predicate HasRoom(n: nat)
      reads this
    {
      counting || bytesWritten + n <= maxSize
    }

    /** Since the stream held out0 and counted n0, just these bytes were sent. */
    ghost predicate Sent(out0: Bytes, n0: nat, bytes: Bytes)
      reads this
    {
      bytesWritten == n0 + |bytes| && out == Extended(counting, out0, bytes)
    }

    constructor Sizing()
      ensures Valid() && counting && bytesWritten == 0 && out == [] && error == None
    {
      counting, maxSize := true, 0;
      out, bytesWritten, error := [], 0, None;
    }

    /** Behind what was written already, with its own limit. */
    constructor Writing(out: Bytes, maxSize: nat)
      ensures Valid() && !counting && this.maxSize == maxSize && bytesWritten == 0 && this.out == out && error == None
    {
      counting, this.maxSize := false, maxSize;
      this.out, bytesWritten, error := out, 0, None;
    }

    method SetError(e: Error)
      requires Valid() && e != SubmsgSizeChanged
      modifies this`error
      ensures Valid() && error == if old(error).Some? then old(error) else Some(e)
    {
      if error.None? {
        error := Some(e);
      }
    }

    method Write(buf: Bytes) returns (ok: bool)
      requires Valid()
      modifies this
      ensures Valid() && (ok <==> old(HasRoom(|buf|)))
      ensures ok ==> Sent(old(out), old(bytesWritten), buf)
    {
      if |buf| > 0 && !counting {
        if bytesWritten + |buf| > maxSize {
          SetError(StreamFull);
          return false;
        }
        out := out + buf;
      }
      bytesWritten := bytesWritten + |buf|;
      return true;
    }

    /** A write without data, on a stream that only counts. */
    method Skip(count: nat, ghost bytes: Bytes) returns (ok: bool)
      requires Valid() && counting && |bytes| == count
      modifies this
      ensures Valid() && ok && Sent(old(out), old(bytesWritten), bytes)
    {
      bytesWritten := bytesWritten + count;
      return true;
    }

    method EncodeVarint(value: nat) returns (ok: bool)
      requires Valid() && value < WORD64
      modifies this
      ensures Valid() && (ok <==> old(HasRoom(|Varint(value)|)))
      ensures ok ==> Sent(old(out), old(bytesWritten), Varint(value))
    {
      if value <= 0x7F {
        ok := Write([value]);
        return;
      }
      var buffer: Bytes, v: nat := [], value;
      while v > 0
        modifies {}
        invariant Pending(buffer, v, value)
      {
        OneMoreSeven(buffer, v, value);
        buffer := buffer + [v % 128 + 128];
        v := v / 128;
      }
      buffer := buffer[..|buffer| - 1] + [buffer[|buffer| - 1] - 128];
      ok := Write(buffer);
    }

    method EncodeSVarint(value: int) returns (ok: bool)
      requires Valid() && FitsSigned(value, 8)
      modifies this
      ensures Valid() && (ok <==> old(HasRoom(|Varint(ToWire(SInt(8), value))|)))
      ensures ok ==> Sent(old(out), old(bytesWritten), Varint(ToWire(SInt(8), value)))
    {
      var doubled := 2 * (value % WORD64) % WORD64;
      var zigzagged := if value < 0 then WORD64 - 1 - doubled else doubled;
      ZigZagIsShift(value);
      ok := EncodeVarint(zigzagged);
    }

    method EncodeFixed32(val: nat) returns (ok: bool)
      requires Valid() && val < WORD32
      modifies this
      ensures Valid() && (ok <==> old(HasRoom(4)))
      ensures ok ==> Sent(old(out), old(bytesWritten), Fixed(val, 4))
    {
      Shifts(val);
      ok := Write([val % 256, (val / 0x100) % 256, (val / 0x1_0000) % 256, (val / 0x100_0000) % 256]);
    }

    method EncodeFixed64(val: nat) returns (ok: bool)
      requires Valid() && val < WORD64
      modifies this
      ensures Valid() && (ok <==> old(HasRoom(8)))
      ensures ok ==> Sent(old(out), old(bytesWritten), Fixed(val, 8))
    {
      hide Fixed;
      LongShifts(val);
      ok := Write([val % 256, (val / 0x100) % 256, (val / 0x1_0000) % 256, (val / 0x100_0000) % 256,
                   (val / 0x1_0000_0000) % 256, (val / 0x100_0000_0000) % 256, (val / 0x1_0000_0000_0000) % 256,
                     (val / 0x100_0000_0000_0000) % 256]);
    }

    method EncodeTag(wireType: nat, tag: nat) returns (ok: bool)
      requires Valid() && wireType < 8 && tag < MAX_TAG
      modifies this
      ensures Valid() && (ok <==> old(HasRoom(|TagBytes(tag, wireType)|)))
      ensures ok ==> Sent(old(out), old(bytesWritten), TagBytes(tag, wireType))
    {
      ok := EncodeVarint(8 * tag + wireType);
    }

    method EncodeTagForField(f: Field) returns (ok: bool)
      requires Valid() && f.tag < MAX_TAG
      modifies this
      ensures Valid() && (ok <==> old(HasRoom(|TagBytes(f.tag, WireType(f.kind))|)))
      ensures ok ==> Sent(old(out), old(bytesWritten), TagBytes(f.tag, WireType(f.kind)))
    {
      ok := EncodeTag(WireType(f.kind), f.tag);
    }

    method EncodeString(buffer: Bytes) returns (ok: bool)
      requires Valid() && |buffer| < WORD64
      modifies this
      ensures Valid() && (ok <==> old(HasRoom(|Prefixed(buffer)|)))
      ensures ok ==> Sent(old(out), old(bytesWritten), Prefixed(buffer))
    {
      hide Varint;
      ok := EncodeVarint(|buffer|);
      if !ok {
        return;
      }
      ExtendedTwice(counting, old(out), Varint(|buffer|), buffer);
      ok := Write(buffer);
    }

    // ---- elements, arrays, fields, messages ------------------------------------------------------

    /** PB_ENCODERS: one value, without its tag. */
    method EncodeElement(kind: Kind, v: Value) returns (ok: bool)
      requires Valid() && WellKind(kind) && Holds(kind, v) && |PayloadBytes(kind, PayloadOf(kind, v))| < WORD64
      modifies this
      ensures Valid() && (ok <==> ValueEncodable(kind, v) && old(HasRoom(|PayloadBytes(kind, PayloadOf(kind, v))|)))
      ensures ok ==> Sent(old(out), old(bytesWritten), PayloadBytes(kind, PayloadOf(kind, v)))
      decreases kind, 0
    {
      hide Varint, Fixed, HoldsAll, Encodable, ItemsBytes, WellFields;
      PayloadIs(kind, v);
      match kind
      case Bool => ok := EncodeVarint(if v.n != 0 then 1 else 0);
      case Int(_) => ok := EncodeVarint(v.n % WORD64);
      case UInt(_) => ok := EncodeVarint(v.n % WORD64);
      case SInt(_) => ok := EncodeSVarint(v.n);
      case Word => ok := EncodeFixed32(v.n);
      case LongWord => ok := EncodeFixed64(v.n);
      case Blob(capacity) =>
        if |v.bytes| > capacity {
          SetError(BytesSizeExceeded);
          return false;
        }
        ok := EncodeString(v.bytes);
      case Text(_) =>
        var size := StringLength(v.bytes);
        ok := EncodeString(v.bytes[..size]);
      case FixedBlob(_) => ok := EncodeString(v.bytes);
      case Message(fields) => ok := EncodeSubmessage(fields, v.slots);
    }

    /** Twice: first to count, then to write; the bytes written are as many as were counted. */
    method EncodeSubmessage(fields: seq<Field>, slots: seq<Slot>) returns (ok: bool)
      requires Valid() && WellFields(fields) && HoldsAll(fields, slots) && |Encoding(fields, slots)| < WORD64
      modifies this
      ensures Valid() && (ok <==> Encodable(fields, slots) && old(HasRoom(|Prefixed(Encoding(fields, slots))|)))
      ensures ok ==> Sent(old(out), old(bytesWritten), Prefixed(Encoding(fields, slots)))
      decreases fields, 1
    {
      hide Varint, HoldsAll, Encodable, Encoding, WellFields;
      ghost var body := Encoding(fields, slots);
      var substream := new OStream.Sizing();
      var counted := substream.Encode(fields, slots);
      if !counted {
        error := substream.error;
        return false;
      }
      var size := substream.bytesWritten;
      ok := EncodeVarint(size);
      if !ok {
        return;
      }
      ExtendedTwice(counting, old(out), Varint(size), body);
      if counting {
        ok := Skip(size, body);
        return;
      }
      if bytesWritten + size > maxSize {
        SetError(StreamFull);
        return false;
      }
      substream := new OStream.Writing(out, size);
      var status := substream.Encode(fields, slots);
      bytesWritten := bytesWritten + substream.bytesWritten;
      out := substream.out;
      error := if substream.bytesWritten != size then Some(SubmsgSizeChanged) else substream.error;
      ok := status && substream.bytesWritten == size;
    }

    method PackedSize(kind: Kind, vs: seq<Value>) returns (size: nat)
      requires WellKind(kind) && kind.Packable() && (forall v :: v in vs ==> Holds(kind, v))
      ensures size == |NumsBytes(kind, WireNums(kind, vs))|
      decreases kind, 1
    {
      hide Varint, Fixed, Holds, NumsBytes, WireNums, PayloadOf, PayloadBytes, ValueEncodable;
      NumsLength(kind, WireNums(kind, vs));
      NoNums(kind, vs);
      if kind.Word? {
        return 4 * |vs|;
      }
      if kind.LongWord? {
        return 8 * |vs|;
      }
      var sizestream := new OStream.Sizing();
      for k := 0 to |vs|
        invariant fresh(sizestream) && sizestream.Valid() && sizestream.counting
        invariant sizestream.bytesWritten == |NumsBytes(kind, WireNums(kind, vs[..k]))|
      {
        OneMoreNum(kind, vs, k);
        var _ := sizestream.EncodeElement(kind, vs[k]);
      }
      assert vs[..|vs|] == vs;
      size := sizestream.bytesWritten;
    }

    method EncodeNums(kind: Kind, vs: seq<Value>) returns (ok: bool)
      requires Valid() && WellKind(kind) && kind.Packable() && (forall v :: v in vs ==> Holds(kind, v))
      modifies this
      ensures Valid() && (ok <==> old(HasRoom(|NumsBytes(kind, WireNums(kind, vs))|)))
      ensures ok ==> Sent(old(out), old(bytesWritten), NumsBytes(kind, WireNums(kind, vs)))
      decreases kind, 1
    {
      hide Varint, Fixed, Holds, Extended, NumsBytes, WireNums, PayloadOf, PayloadBytes, ValueEncodable;
      ExtendedNone(counting, out);
      NoNums(kind, vs);
      for k := 0 to |vs|
        invariant Valid() && Sent(old(out), old(bytesWritten), NumsBytes(kind, WireNums(kind, vs[..k])))
      {
        OneMoreNum(kind, vs, k);
        NumsShorter(kind, vs, k + 1);
        ExtendedTwice(counting, old(out), NumsBytes(kind, WireNums(kind, vs[..k])),
                      PayloadBytes(kind, PayloadOf(kind, vs[k])));
        ok := EncodeElement(kind, vs[k]);
        if !ok {
          return;
        }
      }
      assert vs[..|vs|] == vs;
      ok := true;
    }

    method EncodeTagged(f: Field, v: Value, ghost fields: seq<Field>, ghost i: nat) returns (ok: bool)
      requires Valid() && WellField(f) && Holds(f.kind, v) && i < |fields| && fields[i] == f
      requires |ItemsBytes(fields, [Single(i, PayloadOf(f.kind, v))])| < WORD64
      modifies this
      ensures var bytes := ItemsBytes(fields, [Single(i, PayloadOf(f.kind, v))]);
        Valid() && (ok <==> ValueEncodable(f.kind, v) && old(HasRoom(|bytes|))) &&
        (ok ==> Sent(old(out), old(bytesWritten), bytes))
      decreases f, 0
    {
      hide Varint, Holds, PayloadOf, PayloadBytes, ValueEncodable, WireType;
      WriteOne(fields, i, PayloadOf(f.kind, v));
      ok := EncodeTagForField(f);
      if !ok {
        return;
      }
      ExtendedTwice(counting, old(out), TagBytes(f.tag, WireType(f.kind)), PayloadBytes(f.kind, PayloadOf(f.kind, v)));
      ok := EncodeElement(f.kind, v);
    }

    method EncodeSingles(f: Field, vs: seq<Value>, ghost fields: seq<Field>, ghost i: nat) returns (ok: bool)
      requires Valid() && WellField(f) && (forall v :: v in vs ==> Holds(f.kind, v)) && i < |fields| && fields[i] == f
      requires |ItemsBytes(fields, Singles(f.kind, i, vs))| < WORD64
      modifies this
      ensures var bytes := ItemsBytes(fields, Singles(f.kind, i, vs));
        Valid() && (ok <==> (forall v :: v in vs ==> ValueEncodable(f.kind, v)) && old(HasRoom(|bytes|))) &&
        (ok ==> Sent(old(out), old(bytesWritten), bytes))
      decreases f, 1
    {
      hide Varint, Holds, PayloadOf, PayloadBytes, ValueEncodable, Extended, ItemsBytes, Singles;
      ExtendedNone(counting, out);
      NoSingles(fields, f.kind, i, vs);
      for k := 0 to |vs|
        invariant Valid() && Sent(old(out), old(bytesWritten), ItemsBytes(fields, Singles(f.kind, i, vs[..k])))
        invariant forall j :: 0 <= j < k ==> ValueEncodable(f.kind, vs[j])
      {
        OneMoreSingle(fields, f.kind, i, vs, k);
        SinglesShorter(fields, f.kind, i, vs, k + 1);
        ExtendedTwice(counting, old(out), ItemsBytes(fields, Singles(f.kind, i, vs[..k])),
                      ItemsBytes(fields, [Single(i, PayloadOf(f.kind, vs[k]))]));
        ok := EncodeTagged(f, vs[k], fields, i);
        if !ok {
          return;
        }
      }
      assert vs[..|vs|] == vs;
      ok := true;
    }

    /** encode_array: packed if the kind allows it. */
    method EncodeArray(f: Field, vs: seq<Value>, ghost fields: seq<Field>, ghost i: nat) returns (ok: bool)
      requires Valid() && WellField(f) && (forall v :: v in vs ==> Holds(f.kind, v)) && i < |fields| && fields[i] == f
      requires |ItemsBytes(fields, FieldItems(f, i, Many(vs)))| < WORD64
      modifies this
      ensures var bytes := ItemsBytes(fields, FieldItems(f, i, Many(vs)));
        Valid() && (ok <==> FieldEncodable(f, Many(vs)) && old(HasRoom(|bytes|))) &&
        (ok ==> Sent(old(out), old(bytesWritten), bytes))
      decreases f, 2
    {
      hide Varint, Holds, PayloadOf, ValueEncodable, Extended, NumsBytes, Singles, WireNums, FieldItems, ItemsBytes;
      ArrayIs(fields, f, i, vs);
      ExtendedNone(counting, out);
      NumsEncodable(f.kind, vs);
      if |vs| == 0 {
        return true;
      }
      if |vs| > Room(f) {
        SetError(ArraySizeExceeded);
        return false;
      }
      if !f.kind.Packable() {
        ok := EncodeSingles(f, vs, fields, i);
        return;
      }
      ghost var tag, body := TagBytes(f.tag, STRING), NumsBytes(f.kind, WireNums(f.kind, vs));
      ok := EncodeTag(STRING, f.tag);
      if !ok {
        return;
      }
      var size := PackedSize(f.kind, vs);
      ExtendedTwice(counting, old(out), tag, Varint(size));
      ok := EncodeVarint(size);
      if !ok {
        return;
      }
      ExtendedTwice(counting, old(out), tag + Varint(size), body);
      assert tag + Varint(size) + body == tag + (Varint(size) + body);
      if counting {
        ok := Skip(size, body);
        return;
      }
      ok := EncodeNums(f.kind, vs);
    }

    /** encode_basic_field. */
    method EncodeField(f: Field, slot: Slot, ghost fields: seq<Field>, ghost i: nat) returns (ok: bool)
      requires Valid() && WellField(f) && HoldsSlot(f, slot) && i < |fields| && fields[i] == f
      requires |ItemsBytes(fields, FieldItems(f, i, slot))| < WORD64
      modifies this
      ensures var bytes := ItemsBytes(fields, FieldItems(f, i, slot));
        Valid() && (ok <==> FieldEncodable(f, slot) && old(HasRoom(|bytes|))) &&
        (ok ==> Sent(old(out), old(bytesWritten), bytes))
      decreases f, 3
    {
      hide Holds, PayloadOf, ValueEncodable, Extended, IsZero;
      ExtendedNone(counting, out);
      match f.rule
      case Required => ok := EncodeTagged(f, slot.v, fields, i);
      case Optional =>
        if slot.has {
          ok := EncodeTagged(f, slot.v, fields, i);
        } else {
          ok := true;
        }
      case Singular =>
        var empty := CheckProto3DefaultValue(f, slot);
        if !empty {
          ok := EncodeTagged(f, slot.v, fields, i);
        } else {
          ok := true;
        }
      case Repeated(_) => ok := EncodeArray(f, slot.vs, fields, i);
      case FixedCount(_) => ok := EncodeArray(f, slot.vs, fields, i);
      case OneOf(_) =>
        if slot.tag == f.tag {
          ok := EncodeTagged(f, slot.v, fields, i);
        } else {
          ok := true;
        }
    }

    /** pb_encode: one field after the other. */
    method Encode(fields: seq<Field>, slots: seq<Slot>) returns (ok: bool)
      requires Valid() && WellFields(fields) && HoldsAll(fields, slots) && |Encoding(fields, slots)| < WORD64
      modifies this
      ensures Valid() && (ok <==> Encodable(fields, slots) && old(HasRoom(|Encoding(fields, slots)|)))
      ensures ok ==> Sent(old(out), old(bytesWritten), Encoding(fields, slots))
      decreases fields, 0
    {
      hide Holds, HoldsSlot, HoldsAll, WellField, WellFields, FieldEncodable, Extended, FieldItems;
      hide ItemsBytes, ItemsOf, Member, RequiredBefore;
      ExtendedNone(counting, out);
      NoItems(fields, slots);
      var iter := new FieldIter(fields);
      var more := iter.Begin();
      ghost var sent := 0;
      while more
        invariant Valid() && fresh(iter) && iter.Valid() && iter.fields == fields
        invariant sent <= |fields| && if more then sent == iter.pos < |fields| else sent == |fields|
        invariant Sent(old(out), old(bytesWritten), ItemsBytes(fields, ItemsOf(fields, slots, sent)))
        invariant AllEncodable(fields, slots, sent)
        decreases |fields| - sent
      {
        OneMoreField(fields, slots, sent);
        ItemsShorter(fields, slots, sent + 1);
        ExtendedTwice(counting, old(out), ItemsBytes(fields, ItemsOf(fields, slots, sent)),
                      ItemsBytes(fields, FieldItems(fields[sent], sent, slots[Member(fields, sent)])));
        ok := EncodeField(fields[iter.pos], slots[iter.member], fields, iter.pos);
        if !ok {
          return;
        }
        more := iter.Next();
        sent := sent + 1;
      }
      ok := true;
    }
  }

  /** pb_check_proto3_default_value: a message is at its default if every field in it is. */
  method CheckProto3DefaultValue(f: Field, slot: Slot) returns (r: bool)
    requires HoldsSlot(f, slot)
    ensures r <==> IsDefault(f, slot)
    decreases f
  {
    if f.rule.Required? {
      return false;
    } else if f.rule.Repeated? {
      return |slot.vs| == 0;
    } else if f.rule.FixedCount? {
      return false;
    } else if f.rule.OneOf? {
      return slot.tag == 0;
    } else if f.rule.Optional? {
      return !slot.has;
    }
    match f.kind
    case Blob(_) => r := |slot.v.bytes| == 0;
    case Text(_) => r := |slot.v.bytes| == 0 || slot.v.bytes[0] == 0;
    case FixedBlob(size) => r := size == 0;
    case Message(fields) => r := CheckAllDefault(fields, slot.v.slots);
    case _ => r := slot.v.n == 0;
  }

  /** Nothing is sent of a field that is at its default. The only others of which nothing is sent are those of a union
    that is set to another of its fields, or to none of them, and arrays of no elements. */
  lemma SentUnlessDefault(f: Field, i: nat, slot: Slot)
    requires WellField(f) && HoldsSlot(f, slot)
    ensures FieldItems(f, i, slot) == [] <==>
      IsDefault(f, slot) || (slot.Which? && slot.tag != f.tag) || (f.rule.FixedCount? && f.rule.count == 0)
  {
    hide Holds, WellKind, PayloadOf, IsZero, Singles;
    if slot.Many? {
      SinglesLength(f.kind, i, slot.vs);
    }
  }

  lemma {:induction false} SinglesLength(kind: Kind, n: nat, vs: seq<Value>)
    ensures |Singles(kind, n, vs)| == |vs|
  {
    if |vs| > 0 {
      SinglesLength(kind, n, vs[..|vs| - 1]);
    }
  }

  /** Its loop over the fields of a message. */
  method CheckAllDefault(fields: seq<Field>, slots: seq<Slot>) returns (r: bool)
    requires HoldsAll(fields, slots)
    ensures r <==> AllDefault(fields, slots)
    decreases fields
  {
    hide HoldsSlot, IsDefault, HoldsAll, Member, RequiredBefore;
    var iter := new FieldIter(fields);
    var more := iter.Begin();
    ghost var seen := 0;
    while more
      invariant fresh(iter) && iter.Valid() && iter.fields == fields
      invariant seen <= |fields| && if more then seen == iter.pos < |fields| else seen == |fields|
      invariant DefaultUpTo(fields, slots, seen)
      decreases |fields| - seen
    {
      SlotIsHeld(fields, slots, seen);
      var same := CheckProto3DefaultValue(fields[iter.pos], slots[iter.member]);
      if !same {
        return false;
      }
      more := iter.Next();
      seen := seen + 1;
    }
    r := true;
  }

  ghost predicate DefaultUpTo(fields: seq<Field>, slots: seq<Slot>, n: nat)
    requires n <= |fields|
  {
    forall j :: 0 <= j < n && Member(fields, j) < |slots| ==> IsDefault(fields[j], slots[Member(fields, j)])
  }

  lemma SlotIsHeld(fields: seq<Field>, slots: seq<Slot>, i: nat)
    requires HoldsAll(fields, slots) && i < |fields|
    ensures Member(fields, i) < |slots| && HoldsSlot(fields[i], slots[Member(fields, i)])
  {
    hide HoldsSlot;
  }

  /** strnlen. */
  method StringLength(b: Bytes) returns (size: nat)
    ensures size <= |b| && b[..size] == CString(b)
  {
    size := 0;
    while size < |b| && b[size] != 0
      invariant size <= |b| && CString(b) == b[..size] + CString(b[size..])
    {
      assert b[size..][1..] == b[size + 1..];
      assert b[..size] + [b[size]] == b[..size + 1];
      size := size + 1;
    }
  }

  lemma PayloadIs(kind: Kind, v: Value)
    requires WellKind(kind) && Holds(kind, v)
    ensures kind.Packable() ==>
      v.Num? && PayloadBytes(kind, PayloadOf(kind, v)) == NumBytes(kind, ToWire(kind, v.n)) && ValueEncodable(kind, v)
    ensures kind.Bool? ==> PayloadBytes(kind, PayloadOf(kind, v)) == Varint(if v.n != 0 then 1 else 0)
    ensures kind.Int? || kind.UInt? ==> PayloadBytes(kind, PayloadOf(kind, v)) == Varint(v.n % WORD64)
    ensures kind.SInt? ==> FitsSigned(v.n, 8) && PayloadBytes(kind, PayloadOf(kind, v)) == Varint(ToWire(SInt(8), v.n))
    ensures kind.Word? ==> PayloadBytes(kind, PayloadOf(kind, v)) == Fixed(v.n, 4)
    ensures kind.LongWord? ==> PayloadBytes(kind, PayloadOf(kind, v)) == Fixed(v.n, 8)
    ensures kind.Blob? || kind.FixedBlob? ==>
      PayloadBytes(kind, PayloadOf(kind, v)) == Prefixed(v.bytes) && |v.bytes| < WORD32
    ensures kind.Text? ==> PayloadBytes(kind, PayloadOf(kind, v)) == Prefixed(CString(v.bytes)) && |v.bytes| < WORD32
    ensures kind.Blob? ==> (ValueEncodable(kind, v) <==> |v.bytes| <= kind.capacity)
    ensures kind.Text? || kind.FixedBlob? ==> ValueEncodable(kind, v)
    ensures kind.Message? ==> PayloadBytes(kind, PayloadOf(kind, v)) == Prefixed(Encoding(kind.fields, v.slots))
    ensures kind.Message? ==> (ValueEncodable(kind, v) <==> Encodable(kind.fields, v.slots))
  {
    hide Varint, Fixed, ItemsBytes, ItemsOf, Encodable;
  }

  // ---- arrays, one element at a time ---------------------------------------------------------------

  lemma NumIsShort(kind: Kind, n: nat)
    requires n < WORD64
    ensures |NumBytes(kind, n)| <= 10
  {
    hide Varint, Fixed;
    VarintFits(n);
  }

  lemma OneMoreNum(kind: Kind, vs: seq<Value>, k: nat)
    requires k < |vs| && WellKind(kind) && kind.Packable() && Holds(kind, vs[k])
    ensures NumsBytes(kind, WireNums(kind, vs[..k + 1])) ==
      NumsBytes(kind, WireNums(kind, vs[..k])) + PayloadBytes(kind, PayloadOf(kind, vs[k]))
    ensures ValueEncodable(kind, vs[k]) && |PayloadBytes(kind, PayloadOf(kind, vs[k]))| <= 10
  {
    hide NumBytes, ToWire;
    NumIsShort(kind, ToWire(kind, vs[k].n));
    var ns := WireNums(kind, vs[..k + 1]);
    assert vs[..k + 1][..k] == vs[..k] && ns[..k] == WireNums(kind, vs[..k]);
  }

  lemma {:induction false} NumsLength(kind: Kind, ns: seq<nat>)
    ensures kind.Word? ==> |NumsBytes(kind, ns)| == 4 * |ns|
    ensures kind.LongWord? ==> |NumsBytes(kind, ns)| == 8 * |ns|
  {
    if |ns| > 0 {
      NumsLength(kind, ns[..|ns| - 1]);
    }
  }

  lemma NoNums(kind: Kind, vs: seq<Value>)
    ensures NumsBytes(kind, WireNums(kind, vs[..0])) == []
  {
    assert vs[..0] == [];
  }

  lemma LastNum(kind: Kind, vs: seq<Value>)
    requires |vs| > 0
    ensures |NumsBytes(kind, WireNums(kind, vs[..|vs| - 1]))| <= |NumsBytes(kind, WireNums(kind, vs))|
  {
    hide NumBytes, ToWire;
    var ns := WireNums(kind, vs);
    assert ns[..|vs| - 1] == WireNums(kind, vs[..|vs| - 1]);
  }

  lemma {:induction false} NumsShorter(kind: Kind, vs: seq<Value>, k: nat)
    requires k <= |vs|
    ensures |NumsBytes(kind, WireNums(kind, vs[..k]))| <= |NumsBytes(kind, WireNums(kind, vs))|
    decreases |vs|
  {
    hide NumsBytes, WireNums;
    if k < |vs| {
      var n := |vs| - 1;
      NumsShorter(kind, vs[..n], k);
      assert vs[..n][..k] == vs[..k];
      LastNum(kind, vs);
    } else {
      assert vs[..k] == vs;
    }
  }

  lemma WriteOne(fields: seq<Field>, i: nat, p: Payload)
    requires i < |fields|
    ensures ItemsBytes(fields, [Single(i, p)]) ==
      TagBytes(fields[i].tag, WireType(fields[i].kind)) + PayloadBytes(fields[i].kind, p)
  {
    hide PayloadBytes, TagBytes;
    var items := [Single(i, p)];
    assert items[..0] == [] && ItemsBytes(fields, []) == [];
  }

  lemma NoSingles(fields: seq<Field>, kind: Kind, i: nat, vs: seq<Value>)
    ensures ItemsBytes(fields, Singles(kind, i, vs[..0])) == []
  {
    assert vs[..0] == [];
  }

  lemma OneMoreSingle(fields: seq<Field>, kind: Kind, i: nat, vs: seq<Value>, k: nat)
    requires k < |vs| && i < |fields|
    ensures ItemsBytes(fields, Singles(kind, i, vs[..k + 1])) ==
      ItemsBytes(fields, Singles(kind, i, vs[..k])) + ItemsBytes(fields, [Single(i, PayloadOf(kind, vs[k]))])
  {
    hide ItemsBytes, PayloadOf;
    assert vs[..k + 1][..k] == vs[..k];
    WriteBoth(fields, Singles(kind, i, vs[..k]), [Single(i, PayloadOf(kind, vs[k]))]);
  }

  lemma {:induction false} SinglesShorter(fields: seq<Field>, kind: Kind, i: nat, vs: seq<Value>, k: nat)
    requires k <= |vs| && i < |fields|
    ensures |ItemsBytes(fields, Singles(kind, i, vs[..k]))| <= |ItemsBytes(fields, Singles(kind, i, vs))|
    ensures k > 0 ==>
      |ItemsBytes(fields, [Single(i, PayloadOf(kind, vs[k - 1]))])| <= |ItemsBytes(fields, Singles(kind, i, vs))|
    decreases |vs|
  {
    hide ItemsBytes, PayloadOf;
    if k < |vs| {
      var n := |vs| - 1;
      SinglesShorter(fields, kind, i, vs[..n], k);
      assert vs[..n][..k] == vs[..k];
      OneMoreSingle(fields, kind, i, vs, n);
      assert vs[..n + 1] == vs;
    } else {
      assert vs[..k] == vs;
      if k > 0 {
        OneMoreSingle(fields, kind, i, vs, k - 1);
      }
    }
  }

  lemma {:induction false} ArrayIs(fields: seq<Field>, f: Field, i: nat, vs: seq<Value>)
    requires i < |fields| && fields[i] == f
    ensures var bytes := ItemsBytes(fields, FieldItems(f, i, Many(vs)));
      if |vs| == 0 then bytes == []
      else if f.kind.Packable() then
        var body := NumsBytes(f.kind, WireNums(f.kind, vs)); bytes == TagBytes(f.tag, STRING) + (Varint(|body|) + body)
      else bytes == ItemsBytes(fields, Singles(f.kind, i, vs))
  {
    hide NumsBytes, TagBytes, Singles, WireNums, Varint;
    WriteOnePacked(fields, i, WireNums(f.kind, vs));
  }

  lemma NumsEncodable(kind: Kind, vs: seq<Value>)
    requires forall v :: v in vs ==> Holds(kind, v)
    ensures kind.Packable() ==> forall v :: v in vs ==> ValueEncodable(kind, v)
  {
  }

  lemma WriteOnePacked(fields: seq<Field>, i: nat, ns: seq<nat>)
    requires i < |fields|
    ensures ItemsBytes(fields, [Packed(i, ns)]) ==
      TagBytes(fields[i].tag, STRING) + Prefixed(NumsBytes(fields[i].kind, ns))
  {
    hide NumsBytes, TagBytes, Prefixed;
    var items := [Packed(i, ns)];
    assert items[..0] == [];
  }

  // ---- messages, one field at a time -------------------------------------------------------------------

  ghost predicate AllEncodable(fields: seq<Field>, slots: seq<Slot>, n: nat)
    requires n <= |fields|
  {
    forall j :: 0 <= j < n && Member(fields, j) < |slots| ==> FieldEncodable(fields[j], slots[Member(fields, j)])
  }

  lemma NoItems(fields: seq<Field>, slots: seq<Slot>)
    ensures ItemsBytes(fields, ItemsOf(fields, slots, 0)) == []
  {
  }

  lemma OneMoreField(fields: seq<Field>, slots: seq<Slot>, n: nat)
    requires n < |fields| && WellFields(fields) && HoldsAll(fields, slots)
    ensures Member(fields, n) < |slots| && WellField(fields[n]) && HoldsSlot(fields[n], slots[Member(fields, n)])
    ensures ItemsBytes(fields, ItemsOf(fields, slots, n + 1)) ==
      ItemsBytes(fields, ItemsOf(fields, slots, n)) +
        ItemsBytes(fields, FieldItems(fields[n], n, slots[Member(fields, n)]))
  {
    hide ItemsBytes, FieldItems, WellField, HoldsSlot;
    SlotIsHeld(fields, slots, n);
    WriteBoth(fields, ItemsOf(fields, slots, n), FieldItems(fields[n], n, slots[Member(fields, n)]));
  }

  lemma {:induction false} ItemsShorter(fields: seq<Field>, slots: seq<Slot>, n: nat)
    requires n <= |fields|
    ensures |ItemsBytes(fields, ItemsOf(fields, slots, n))| <= |Encoding(fields, slots)|
    decreases |fields| - n
  {
    hide ItemsBytes, FieldItems;
    if n < |fields| {
      ItemsShorter(fields, slots, n + 1);
      var m := Member(fields, n);
      WriteBoth(fields, ItemsOf(fields, slots, n), if m < |slots| then FieldItems(fields[n], n, slots[m]) else []);
    }
  }

  // ---- numbers -------------------------------------------------------------------------------------------

  /** The buffer has the lower bits of the value, v is what is left; at the end the last byte has one bit too many. */
  ghost predicate Pending(buffer: Bytes, v: nat, value: nat) {
    if v > 0 then buffer + Varint(v) == Varint(value)
    else
      |buffer| > 0 && buffer[|buffer| - 1] >= 128 &&
      buffer[..|buffer| - 1] + [buffer[|buffer| - 1] - 128] == Varint(value)
  }

  lemma OneMoreSeven(buffer: Bytes, v: nat, value: nat)
    requires v > 0 && Pending(buffer, v, value)
    ensures Pending(buffer + [v % 128 + 128], v / 128, value)
  {
    var longer := buffer + [v % 128 + 128];
    if v < 128 {
      assert Varint(v) == [v] && longer[..|buffer|] == buffer;
    } else {
      assert Varint(v) == [v % 128 + 128] + Varint(v / 128);
      assert buffer + ([v % 128 + 128] + Varint(v / 128)) == longer + Varint(v / 128);
    }
  }

  lemma ZigZagIsShift(n: int)
    requires FitsSigned(n, 8)
    ensures var doubled := 2 * (n % WORD64) % WORD64;
      ToWire(SInt(8), n) == if n < 0 then WORD64 - 1 - doubled else doubled
  {
    if n < 0 {
      assert n % WORD64 == n + WORD64;
      assert 2 * (n + WORD64) == (2 * n + WORD64) + WORD64;
    }
  }

  lemma FirstByte(v: nat, width: nat)
    ensures Fixed(v, width) == if width == 0 then [] else [v % 256] + Fixed(v / 256, width - 1)
  {
  }

  lemma LongShifts(v: nat)
    ensures Fixed(v, 8) == [v % 256, (v / 0x100) % 256, (v / 0x1_0000) % 256, (v / 0x100_0000) % 256,
                            (v / 0x1_0000_0000) % 256, (v / 0x100_0000_0000) % 256, (v / 0x1_0000_0000_0000) % 256,
                              (v / 0x100_0000_0000_0000) % 256]
  {
    hide Fixed;
    FirstByte(v, 8);
    FirstByte(v / 256, 7);
    FirstByte(v / 0x1_0000, 6);
    FirstByte(v / 0x100_0000, 5);
    assert v / 256 / 256 == v / 0x1_0000 && v / 0x1_0000 / 256 == v / 0x100_0000 &&
      v / 0x100_0000 / 256 == v / 0x1_0000_0000;
    var w := v / 0x1_0000_0000;
    Shifts(w);
    assert w / 0x100 == v / 0x100_0000_0000 && w / 0x1_0000 == v / 0x1_0000_0000_0000 &&
      w / 0x100_0000 == v / 0x100_0000_0000_0000;
  }
}
