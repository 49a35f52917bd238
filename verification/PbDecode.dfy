/** The decoder: the field decoders and message loop of pb_decode.c. Methods are total on any bytes; what they promise
  is about bytes that are well-formed records, named by ghost parameters. */
module PbDecode {
  import opened Options
  import opened Coding
  import opened PbFields
  import opened PbWire
  import opened PbStreams

  // ---- defaults ----------------------------------------------------------------------------

  /** pb_field_set_to_default. */
  method SetFieldToDefault(f: Field) returns (slot: Slot)
    ensures slot == DefaultSlot(f)
    decreases f
  {
    match f.rule
    case Repeated(_) => slot := Many([]);
    case FixedCount(_) => slot := Many([]);
    case OneOf(_) => slot := Which(0, Num(0));
    case _ =>
      var v: Value;
      if f.kind.Message? {
        var slots := SetToDefaults(f.kind.fields);
        v := Struct(slots);
      } else if f.initial.Some? {
        v := f.initial.value;
      } else {
        v := Zero(f.kind);
      }
      assert v == Initial(f);
      slot := if f.rule.Optional? then Maybe(false, v) else One(v);
  }

  /** pb_message_set_to_defaults. */
  method SetToDefaults(fields: seq<Field>) returns (slots: seq<Slot>)
    ensures slots == Defaults(fields, |fields|)
    decreases fields
  {
    hide DefaultSlot;
    slots := [];
    var iter := new FieldIter(fields);
    var more := iter.Begin();
    ghost var done := 0;
    while more
      invariant fresh(iter) && iter.Valid() && iter.fields == fields
      invariant done <= |fields| && if more then done == iter.pos < |fields| else done == |fields|
      invariant slots == Defaults(fields, done)
      decreases |fields| - done
    {
      var slot := SetFieldToDefault(fields[iter.pos]);
      if iter.member < |slots| {
        SharedDefault(fields, done);
        slots := slots[iter.member := slot];
      } else {
        slots := slots + [slot];
      }
      more := iter.Next();
      done := done + 1;
    }
  }

  lemma SharedDefault(fields: seq<Field>, n: nat)
    requires n < |fields| && Member(fields, n) < Members(fields, n)
    ensures SharesUnion(fields, n) && Defaults(fields, n)[Member(fields, n)] == DefaultSlot(fields[n])
  {
    DefaultsAre(fields, n, n - 1);
  }

  lemma {:induction false} ZeroIsLaid(kind: Kind)
    requires WellKind(kind)
    ensures LaidValue(kind, Zero(kind))
    decreases kind, 0
  {
    if kind.Message? {
      DefaultsAreLaid(kind.fields);
    }
  }

  lemma {:induction false} InitialIsLaid(f: Field)
    requires WellField(f)
    ensures LaidSlot(f, DefaultSlot(f)) && LaidValue(f.kind, Initial(f))
    decreases f
  {
    ZeroIsLaid(f.kind);
  }

  lemma {:induction false} DefaultsAreLaid(fields: seq<Field>)
    requires WellFields(fields)
    ensures Laid(fields, Defaults(fields, |fields|))
    decreases fields
  {
    forall i | 0 <= i < |fields|
      ensures Member(fields, i) < Members(fields, |fields|) &&
      LaidSlot(fields[i], Defaults(fields, |fields|)[Member(fields, i)])
    {
      DefaultsAre(fields, |fields|, i);
      InitialIsLaid(fields[i]);
    }
  }

  // ---- numbers -----------------------------------------------------------------------------------

  /** Casting to a type of that size and back keeps exactly the numbers that fit. */
  lemma CastKeeps(s: int, size: nat)
    requires IsWidth(size) && FitsSigned(s, 8)
    ensures Signed(s % WORD64, size) == s <==> FitsSigned(s, size)
  {
    if FitsSigned(s, size) {
      LowPart(s, size);
    }
  }

  lemma LowPart(s: int, size: nat)
    requires IsWidth(size) && FitsSigned(s, size)
    ensures (s % WORD64) % (2 * Half(size)) == if s < 0 then s + 2 * Half(size) else s
  {
    if s < 0 {
      assert s % WORD64 == s + WORD64;
      assert size == 1 ==> s + WORD64 == (s + 0x100) + 0x100 * 0xFF_FFFF_FFFF_FFFF;
      assert size == 2 ==> s + WORD64 == (s + 0x1_0000) + 0x1_0000 * 0xFFFF_FFFF_FFFF;
      assert size == 4 ==> s + WORD64 == (s + WORD32) + WORD32 * 0xFFFF_FFFF;
    }
  }

  /** pb_dec_varint behind the reading of the number. */
  method CastInt(value: nat, size: nat) returns (r: Option<int>)
    requires IsWidth(size) && value < WORD64
    ensures r == FromWire(Int(size), value)
  {
    var svalue := if size == 8 then Signed(value, 8) else Signed(value, 4);
    var clamped := Signed(svalue % WORD64, size);
    CastKeeps(svalue, size);
    r := if clamped != svalue then None else Some(svalue);
  }

  method CastUInt(value: nat, size: nat) returns (r: Option<int>)
    requires IsWidth(size) && value < WORD64
    ensures r == FromWire(UInt(size), value)
  {
    var clamped := value % (2 * Half(size));
    r := if clamped != value then None else Some(value);
  }

  /** pb_dec_svarint behind the reading of the number. */
  method CastSInt(value: int, size: nat) returns (r: Option<int>)
    requires IsWidth(size) && FitsSigned(value, 8)
    ensures r == if FitsSigned(value, size) then Some(value) else None
  {
    var clamped := Signed(value % WORD64, size);
    CastKeeps(value, size);
    r := if clamped != value then None else Some(value);
  }

  // ---- one value -------------------------------------------------------------------------------------

  /** The numbers among PB_DECODERS. */
  method DecodeNumber(s: IStream, kind: Kind, ghost n: nat, ghost tail: Bytes) returns (r: Option<int>)
    requires s.Valid() && WellKind(kind) && kind.Packable()
    modifies s
    ensures s.Valid() && s.bytesLeft <= old(s.bytesLeft) && (r.Some? ==> s.bytesLeft < old(s.bytesLeft))
    ensures n < Limit(kind) && old(s.Rest()) == NumBytes(kind, n) + tail ==> r == FromWire(kind, n) && s.Rest() == tail
  {
    hide Varint, Fixed, Unfixed;
    match kind
    case Bool =>
      var value, _ := s.DecodeVarint32(n, tail);
      if value.None? {
        return None;
      }
      r := Some(if value.value != 0 then 1 else 0);
    case Int(size) =>
      var value := s.DecodeVarint(n, tail);
      if value.None? {
        return None;
      }
      r := CastInt(value.value, size);
    case UInt(size) =>
      var value := s.DecodeVarint(n, tail);
      if value.None? {
        return None;
      }
      r := CastUInt(value.value, size);
    case SInt(size) =>
      var value := s.DecodeSVarint(n, tail);
      if value.None? {
        return None;
      }
      r := CastSInt(value.value, size);
    case Word =>
      FixedComesBack(n, 4);
      var value := s.DecodeFixed32();
      r := if value.None? then None else Some(value.value);
    case LongWord =>
      FixedComesBack(n, 8);
      var value := s.DecodeFixed64();
      r := if value.None? then None else Some(value.value);
  }

  lemma FixedComesBack(n: nat, width: nat)
    requires width == 4 || width == 8
    ensures n < (if width == 4 then WORD32 else WORD64) ==> Unfixed(Fixed(n, width)) == n
  {
    hide Fixed, Unfixed;
    Widths();
    if n < (if width == 4 then WORD32 else WORD64) {
      FixedRoundTrip(n, width);
    }
  }

  /** The strings among PB_DECODERS. */
  method DecodeString(s: IStream, kind: Kind, ghost b: Bytes, ghost tail: Bytes) returns (r: Option<Bytes>)
    requires s.Valid() && WellKind(kind) && (kind.Blob? || kind.Text? || kind.FixedBlob?)
    modifies s
    ensures s.Valid() && s.bytesLeft <= old(s.bytesLeft) && (r.Some? ==> s.bytesLeft < old(s.bytesLeft))
    ensures |b| < WORD32 && old(s.Rest()) == Prefixed(b) + tail ==>
      (var t := Take(kind, Chunk(b), Num(0));
       (r.Some? <==> t.Some?) && (r.Some? ==> t == Some(Raw(r.value)) && s.Rest() == tail))
  {
    hide Varint;
    ghost var on := |b| < WORD32 && s.Rest() == Prefixed(b) + tail;
    assert on ==> s.Rest() == Varint(|b|) + (b + tail);
    var length, _ := s.DecodeVarint32(|b|, b + tail);
    if length.None? {
      return None;
    }
    var size := length.value;
    match kind
    case Blob(capacity) =>
      if size > capacity {
        return None;
      }
      r := s.Read(size);
    case Text(max) =>
      if size + 1 > max {
        return None;
      }
      r := s.Read(size);
    case FixedBlob(max) =>
      if size == 0 {
        return Some(seq(max, _ => 0));
      }
      if size != max {
        return None;
      }
      r := s.Read(max);
  }

  /** PB_DECODERS: one value for a variable that holds prior. The elements of an array are set to their defaults
    first. */
  method DecodeElement(s: IStream, kind: Kind, prior: Value, repeated: bool, ghost p: Payload, ghost tail: Bytes)
      returns (r: Option<Value>)
    requires s.Valid() && WellKind(kind) && (!repeated ==> LaidValue(kind, prior))
    modifies s
    ensures s.Valid() && s.bytesLeft <= old(s.bytesLeft) &&
      (r.Some? ==> s.bytesLeft < old(s.bytesLeft) && LaidValue(kind, r.value))
    ensures WellPayload(kind, p) && old(s.Rest()) == PayloadBytes(kind, p) + tail ==>
      r == Take(kind, p, if repeated then Zero(kind) else prior) && (r.Some? ==> s.Rest() == tail)
    decreases kind
  {
    hide Varint, WellItems, ItemsBytes, Run, WellFields, Laid, Complete, NumBytes, FromWire;
    ghost var on := WellPayload(kind, p) && s.Rest() == PayloadBytes(kind, p) + tail;
    if kind.Packable() {
      var n := DecodeNumber(s, kind, if p.Scalar? then p.n else 0, tail);
      r := if n.None? then None else Some(Num(n.value));
    } else if !kind.Message? {
      var b := DecodeString(s, kind, if p.Chunk? then p.bytes else [], tail);
      r := if b.None? then None else Some(Raw(b.value));
    } else {
      ghost var items := if on then p.items else [];
      var substream := s.MakeStringSubstream(ItemsBytes(kind.fields, items), tail);
      if substream == null {
        return None;
      }
      var slots := if repeated then [] else prior.slots;
      if repeated {
        slots := SetToDefaults(kind.fields);
        ZeroIsLaid(kind);
      }
      var status := DecodeNoInit(substream, kind.fields, slots, items);
      s.CloseStringSubstream(substream);
      r := if status.None? then None else Some(Struct(status.value));
    }
  }

  // ---- one field ---------------------------------------------------------------------------------------

  /** The stream holds the value of a record for the field, and then tail. */
  ghost predicate Incoming(f: Field, wireType: nat, item: Item, rest: Bytes, tail: Bytes) {
    if item.Single? then
      WellPayload(f.kind, item.p) && wireType == WireType(f.kind) &&
      rest == PayloadBytes(f.kind, item.p) + tail
    else
      item.Packed? && IsPacked(f, item.ns) && wireType == STRING &&
      rest == Prefixed(NumsBytes(f.kind, item.ns)) + tail
  }

  ghost predicate IsPacked(f: Field, ns: seq<nat>) {
    (f.rule.Repeated? || f.rule.FixedCount?) && f.kind.Packable() && (forall n :: n in ns ==> n < Limit(f.kind)) &&
    |NumsBytes(f.kind, ns)| < WORD32
  }

  ghost function StoreItem(f: Field, slot: Slot, item: Item): Option<Slot> {
    if item.Single? then Store(f, slot, item.p) else if item.Packed? then StoreNums(f, slot, item.ns) else Some(slot)
  }

  /** A packed array: as many numbers as there is room for, and then nothing may be left. */
  method DecodePacked(s: IStream, f: Field, vs0: seq<Value>, ghost ns: seq<nat>, ghost tail: Bytes)
      returns (r: Option<Slot>)
    requires s.Valid() && WellField(f) && f.kind.Packable()
    modifies s
    ensures s.Valid() && s.bytesLeft <= old(s.bytesLeft) && (r.Some? ==> r.value.Many?)
    ensures IsPacked(f, ns) && old(s.Rest()) == Prefixed(NumsBytes(f.kind, ns)) + tail ==>
      r == StoreNums(f, Many(vs0), ns) && (r.Some? ==> s.Rest() == tail)
    decreases f
  {
    hide Varint, NumsBytes, NumBytes, FromWire, StoreNums;
    ghost var on := IsPacked(f, ns) && s.Rest() == Prefixed(NumsBytes(f.kind, ns)) + tail;
    var substream := s.MakeStringSubstream(NumsBytes(f.kind, ns), tail);
    if substream == null {
      return None;
    }
    var status, vs := true, vs0;
    ghost var k := 0;
    NothingStored(f, vs0, ns);
    while substream.bytesLeft > 0 && |vs| < Room(f)
      modifies substream
      invariant s.Lent(substream) && fresh(substream) && s.bytesLeft < old(s.bytesLeft)
      invariant on ==> k <= |ns| && substream.Rest() == NumsBytes(f.kind, ns[k..]) && s.Behind(substream) == tail
      invariant on ==> StoreNums(f, Many(vs0), ns[..k]) == Some(Many(vs))
      decreases substream.bytesLeft
    {
      if on {
        NextNumber(f, vs0, ns, k, vs, substream.Rest());
        assert ns[k] in ns;
      }
      var n := DecodeNumber(substream, f.kind, if on then ns[k] else 0,
                            if on then NumsBytes(f.kind, ns[k + 1..]) else []);
      if n.None? {
        if on {
          StoredBefore(f, Many(vs0), ns, k + 1);
        }
        status := false;
        break;
      }
      vs := vs + [Num(n.value)];
      k := k + 1;
    }
    if on && status {
      PackedEnds(f, vs0, ns, k, vs, substream.Rest());
    }
    // Too many numbers are an error; the stream is not used again after one, so closing it first makes no difference.
    var overflow := substream.bytesLeft != 0;
    s.CloseStringSubstream(substream);
    r := if status && !overflow then Some(Many(vs)) else None;
  }

  lemma NothingStored(f: Field, vs0: seq<Value>, ns: seq<nat>)
    ensures StoreNums(f, Many(vs0), ns[..0]) == Some(Many(vs0)) && NumsBytes(f.kind, ns[0..]) == NumsBytes(f.kind, ns)
  {
    assert ns[..0] == [] && ns[0..] == ns;
  }

  /** While the stream is not empty there is a number to come, and it is stored if there is room and it fits. */
  lemma NextNumber(f: Field, vs0: seq<Value>, ns: seq<nat>, k: nat, vs: seq<Value>, rest: Bytes)
    requires k <= |ns| && |rest| > 0 && rest == NumsBytes(f.kind, ns[k..]) &&
      StoreNums(f, Many(vs0), ns[..k]) == Some(Many(vs))
    ensures k < |ns| && rest == NumBytes(f.kind, ns[k]) + NumsBytes(f.kind, ns[k + 1..])
    ensures StoreNums(f, Many(vs0), ns[..k + 1]) ==
      if |vs| >= Room(f) ||
          FromWire(f.kind, ns[k]).None? then None else Some(Many(vs + [Num(FromWire(f.kind, ns[k]).value)]))
  {
    hide NumBytes, FromWire;
    NumsFirst(f.kind, ns[k..]);
    assert ns[k..][1..] == ns[k + 1..] && ns[..k + 1][..k] == ns[..k];
  }

  lemma {:induction false} StoredBefore(f: Field, slot: Slot, ns: seq<nat>, k: nat)
    requires k <= |ns| && StoreNums(f, slot, ns[..k]).None?
    ensures StoreNums(f, slot, ns).None?
    decreases |ns|
  {
    if k < |ns| {
      assert ns[..|ns| - 1][..k] == ns[..k];
      StoredBefore(f, slot, ns[..|ns| - 1], k);
    } else {
      assert ns[..k] == ns;
    }
  }

  /** Where the loop stops: all numbers stored, or one of them refused. */
  lemma PackedEnds(f: Field, vs0: seq<Value>, ns: seq<nat>, k: nat, vs: seq<Value>, rest: Bytes)
    requires k <= |ns| && rest == NumsBytes(f.kind, ns[k..]) && StoreNums(f, Many(vs0), ns[..k]) == Some(Many(vs))
    requires |rest| == 0 || |vs| >= Room(f)
    ensures StoreNums(f, Many(vs0), ns) == if |rest| == 0 then Some(Many(vs)) else None
  {
    hide NumBytes, FromWire, StoreNums;
    if |rest| > 0 {
      NextNumber(f, vs0, ns, k, vs, rest);
      StoredBefore(f, Many(vs0), ns, k + 1);
    } else {
      NoBytesLeft(f.kind, ns[k..]);
      assert ns[..k] == ns;
    }
  }

  lemma NoBytesLeft(kind: Kind, ns: seq<nat>)
    requires NumsBytes(kind, ns) == []
    ensures ns == []
  {
  }
  /** decode_static_field. */
  method DecodeStaticField(s: IStream, f: Field, wireType: nat, slot: Slot, ghost item: Item, ghost tail: Bytes)
      returns (r: Option<Slot>)
    requires s.Valid() && WellField(f) && LaidSlot(f, slot)
    modifies s
    ensures s.Valid() && s.bytesLeft <= old(s.bytesLeft)
    ensures r.Some? ==> LaidSlot(f, r.value) && (f.rule.OneOf? ==> r.value.tag == f.tag)
    ensures Incoming(f, wireType, item, old(s.Rest()), tail) ==>
      r == StoreItem(f, slot, item) && (r.Some? ==> s.Rest() == tail)
    decreases f
  {
    hide LaidValue, WellKind, Take, WellPayload, PayloadBytes, NumsBytes, StoreNums, Zero;
    ghost var p := if item.Single? then item.p else Scalar(0);
    match f.rule
    case Repeated(_) | FixedCount(_) =>
      if wireType == STRING && f.kind.Packable() {
        r := DecodePacked(s, f, slot.vs, if item.Packed? then item.ns else [], tail);
        return;
      }
      if |slot.vs| >= Room(f) {
        return None;
      }
      var v := DecodeElement(s, f.kind, Num(0), true, p, tail);
      r := if v.None? then None else Some(Many(slot.vs + [v.value]));
    case OneOf(_) =>
      var prior := slot.v;
      if f.kind.Message? && slot.tag != f.tag {
        var slots := SetToDefaults(f.kind.fields);
        ZeroIsLaid(f.kind);
        prior := Struct(slots);
        ZeroIs(f.kind);
      } else {
        LaidIfScalar(f.kind, prior);
      }
      var v := DecodeElement(s, f.kind, prior, false, p, tail);
      r := if v.None? then None else Some(Which(f.tag, v.value));
    case Optional =>
      var v := DecodeElement(s, f.kind, slot.v, false, p, tail);
      r := if v.None? then None else Some(Maybe(true, v.value));
    case _ =>
      var v := DecodeElement(s, f.kind, slot.v, false, p, tail);
      r := if v.None? then None else Some(One(v.value));
  }

  lemma ZeroIs(kind: Kind)
    requires kind.Message?
    ensures Zero(kind) == Struct(Defaults(kind.fields, |kind.fields|))
  {
  }

  lemma LaidIfScalar(kind: Kind, v: Value)
    ensures !kind.Message? ==> LaidValue(kind, v)
  {
  }

  // ---- the local variables of pb_decode_noinit --------------------------------------------------------

  /** The structure, the bitmap as two words of bit positions, and the fixed-count field with its count so far. */
  datatype Locals = Locals(slots: seq<Slot>, fieldsSeen: seq<set<nat>>, fixedField: Option<nat>, fixedSize: nat)

  ghost function Bits(words: seq<set<nat>>): set<nat>
    requires |words| == 2
  {
    set k: nat | k < MAX_REQUIRED && k % 32 in words[k / 32]
  }

  ghost predicate FixedIs(fields: seq<Field>, l: Locals) {
    l.fixedField.Some? ==>
      l.fixedField.value < |fields| && fields[l.fixedField.value].rule.FixedCount? &&
      Member(fields, l.fixedField.value) < |l.slots| &&
      var slot := l.slots[Member(fields, l.fixedField.value)]; slot.Many? && |slot.vs| == l.fixedSize
  }

  ghost predicate Sane(fields: seq<Field>, l: Locals) {
    Laid(fields, l.slots) && |l.fieldsSeen| == 2 && FixedIs(fields, l) &&
    (forall w, b :: 0 <= w < 2 && b in l.fieldsSeen[w] ==> b < 32 && 32 * w + b < RequiredBefore(fields, |fields|))
  }

  ghost function StateOf(l: Locals): State
    requires |l.fieldsSeen| == 2
  {
    State(l.slots, Bits(l.fieldsSeen), l.fixedField)
  }

  lemma LaidUpdate(fields: seq<Field>, slots: seq<Slot>, i: nat, slot: Slot)
    requires WellFields(fields) && Laid(fields, slots) && i < |fields|
    requires LaidSlot(fields[i], slot) && (fields[i].rule.OneOf? ==> slot.tag == fields[i].tag)
    ensures Member(fields, i) < |slots| && Laid(fields, slots[Member(fields, i) := slot])
  {
    hide LaidValue, WellField;
    var m := Member(fields, i);
    forall j | 0 <= j < |fields| ensures LaidSlot(fields[j], slots[m := slot][Member(fields, j)]) {
      if j != i && Member(fields, j) == m {
        SharedIsUnion(fields, if i < j then i else j, if i < j then j else i);
        assert fields[j].tag != fields[i].tag;
      }
    }
  }

  lemma FixedIsAlone(fields: seq<Field>, i: nat, j: nat)
    requires i < |fields| && j < |fields| && fields[i].rule.FixedCount? && Member(fields, i) == Member(fields, j)
    ensures i == j
  {
    if i != j {
      SharedIsUnion(fields, if i < j then i else j, if i < j then j else i);
    }
  }

  lemma {:induction false} RequiredGrows(fields: seq<Field>, i: nat, n: nat)
    requires i < n <= |fields| && fields[i].rule.Required?
    ensures RequiredBefore(fields, i) < RequiredBefore(fields, n)
    decreases n - i
  {
    if i < n - 1 {
      RequiredGrows(fields, i, n - 1);
    }
  }

  lemma MarkBit(words: seq<set<nat>>, k: nat)
    requires |words| == 2 && k < MAX_REQUIRED
    ensures Bits(words[k / 32 := words[k / 32] + {k % 32}]) == Bits(words) + {k}
  {
    var words' := words[k / 32 := words[k / 32] + {k % 32}];
    forall j: nat | j < MAX_REQUIRED ensures j % 32 in words'[j / 32] <==> j % 32 in words[j / 32] || j == k {
      assert j == 32 * (j / 32) + j % 32 && k == 32 * (k / 32) + k % 32;
    }
  }

  /** What pb_decode_noinit does for a field in front of its value: the fixed-count field, and the bitmap. */
  method EnterField(fields: seq<Field>, l: Locals, i: nat, member: nat, requiredFieldIndex: nat)
      returns (r: Option<Locals>)
    requires WellFields(fields) && Sane(fields, l) && i < |fields| && member == Member(fields, i) &&
      requiredFieldIndex == RequiredBefore(fields, i)
    ensures r.Some? ==> Sane(fields, r.value) && (fields[i].rule.FixedCount? ==> r.value.fixedField == Some(i))
    ensures var e := Enter(fields, StateOf(l), i); (r.Some? <==> e.Some?) && (r.Some? ==> e == Some(StateOf(r.value)))
  {
    hide Laid, WellFields, Bits;
    var f := fields[i];
    SlotIsLaid(fields, l.slots, i);
    var l' := l;
    if f.rule.FixedCount? && l.fixedField != Some(i) {
      if l.fixedField.Some? && l.fixedSize != fields[l.fixedField.value].rule.count {
        return None;
      }
      LaidUpdate(fields, l.slots, i, Many([]));
      l' := l.(fixedField := Some(i), fixedSize := 0, slots := l.slots[member := Many([])]);
    }
    if f.rule.Required? && requiredFieldIndex < MAX_REQUIRED {
      RequiredGrows(fields, i, |fields|);
      MarkBit(l'.fieldsSeen, requiredFieldIndex);
      var word := requiredFieldIndex / 32;
      l' := l'.(fieldsSeen := l'.fieldsSeen[word := l'.fieldsSeen[word] + {requiredFieldIndex % 32}]);
    }
    r := Some(l');
  }

  lemma SlotIsLaid(fields: seq<Field>, slots: seq<Slot>, i: nat)
    requires Laid(fields, slots) && i < |fields|
    ensures Member(fields, i) < |slots| && LaidSlot(fields[i], slots[Member(fields, i)])
  {
    hide LaidSlot;
  }

  lemma FieldIsWell(fields: seq<Field>, i: nat)
    requires WellFields(fields) && i < |fields|
    ensures WellField(fields[i])
  {
    hide WellField;
  }

  /** One record for a known field. */
  method ReceiveField(s: IStream, fields: seq<Field>, l: Locals, i: nat, member: nat, requiredFieldIndex: nat,
                      wireType: nat, ghost item: Item, ghost tail: Bytes) returns (r: Option<Locals>)
    requires s.Valid() && WellFields(fields) && Sane(fields, l) && i < |fields|
    requires member == Member(fields, i) && requiredFieldIndex == RequiredBefore(fields, i)
    modifies s
    ensures s.Valid() && s.bytesLeft <= old(s.bytesLeft) && (r.Some? ==> Sane(fields, r.value))
    ensures !item.Unknown? && item.index == i && Incoming(fields[i], wireType, item, old(s.Rest()), tail) ==>
      (var t := Step(fields, StateOf(l), item);
       (r.Some? <==> t.Some?) && (r.Some? ==> t == Some(StateOf(r.value)) && s.Rest() == tail))
    decreases fields, 0
  {
    hide Laid, WellFields, Bits, Incoming, Enter, Store, StoreNums, LaidSlot, WellField;
    var entered := EnterField(fields, l, i, member, requiredFieldIndex);
    if entered.None? {
      return None;
    }
    var l' := entered.value;
    SlotIsLaid(fields, l'.slots, i);
    FieldIsWell(fields, i);
    var slot := DecodeStaticField(s, fields[i], wireType, l'.slots[member], item, tail);
    if slot.None? {
      return None;
    }
    LaidUpdate(fields, l'.slots, i, slot.value);
    StoredKeepsFixed(fields, l', i, slot.value);
    r := Some(l'.(slots := l'.slots[member := slot.value],
                  fixedSize := if fields[i].rule.FixedCount? then |slot.value.vs| else l'.fixedSize));
  }

  lemma StoredKeepsFixed(fields: seq<Field>, l: Locals, i: nat, slot: Slot)
    requires i < |fields| && FixedIs(fields, l) && Member(fields, i) < |l.slots| && LaidSlot(fields[i], slot)
    requires fields[i].rule.FixedCount? ==> l.fixedField == Some(i)
    ensures fields[i].rule.FixedCount? ==> slot.Many?
    ensures FixedIs(fields,
                    l.(slots := l.slots[Member(fields, i) := slot],
                       fixedSize := if fields[i].rule.FixedCount? then |slot.vs| else l.fixedSize))
  {
    if l.fixedField.Some? && l.fixedField.value != i && Member(fields, l.fixedField.value) == Member(fields, i) {
      FixedIsAlone(fields, l.fixedField.value, i);
    }
  }

  // ---- the whole message ------------------------------------------------------------------------------

  /** The check at the end of pb_decode_noinit, word by word, wherever the iterator stands. */
  method CheckRequired(iter: FieldIter, fieldsSeen: seq<set<nat>>) returns (ok: bool)
    requires iter.Valid() && |fieldsSeen| == 2
    requires forall w, b :: 0 <= w < 2 && b in fieldsSeen[w] ==>
      b < 32 && 32 * w + b < RequiredBefore(iter.fields, |iter.fields|)
    modifies iter
    ensures ok <==> forall k :: 0 <= k < 64 && k < RequiredBefore(iter.fields, |iter.fields|) ==> Seen(fieldsSeen, k)
  {
    if |iter.fields| == 0 {
      return true;
    }
    var count := CountRequired(iter);
    ghost var total := count;
    if count > MAX_REQUIRED {
      count := MAX_REQUIRED;
    }
    var allBits := LowBits(32);
    var w := 0;
    while w < count / 32
      modifies {}
      invariant w <= count / 32 && forall k :: 0 <= k < 32 * w ==> Seen(fieldsSeen, k)
    {
      WordIsFull(fieldsSeen, w, 32);
      if fieldsSeen[w] != allBits {
        return false;
      }
      w := w + 1;
    }
    if count % 32 != 0 {
      WordIsFull(fieldsSeen, w, count % 32);
      if fieldsSeen[w] != LowBits(count % 32) {
        return false;
      }
    }
    ok := true;
  }

  /** The number of required fields, found by stepping the iterator to the last field. */
  method CountRequired(iter: FieldIter) returns (count: nat)
    requires iter.Valid() && |iter.fields| > 0
    modifies iter
    ensures count == RequiredBefore(iter.fields, |iter.fields|)
  {
    var last := iter.pos;
    count := iter.requiredFieldIndex;
    var more := iter.Next();
    while more
      invariant iter.Valid() && last < |iter.fields| && count == RequiredBefore(iter.fields, last)
      invariant if more then iter.pos == last + 1 else last + 1 == |iter.fields|
      decreases |iter.fields| - last
    {
      count, last := iter.requiredFieldIndex, iter.pos;
      more := iter.Next();
    }
    if iter.fields[last].rule.Required? {
      count := count + 1;
    }
  }

  ghost predicate Seen(words: seq<set<nat>>, k: nat) {
    |words| == 2 && k < MAX_REQUIRED && k % 32 in words[k / 32]
  }

  lemma SeenIsBit(words: seq<set<nat>>)
    requires |words| == 2
    ensures forall k: nat :: Seen(words, k) <==> k in Bits(words)
  {
  }

  /** allbits shifted down to n ones. */
  function LowBits(n: nat): (bits: set<nat>)
    ensures forall b: nat :: b in bits <==> b < n
  {
    if n == 0 then {} else LowBits(n - 1) + {n - 1}
  }

  /** The first n bits of a word. */
  lemma WordIsFull(words: seq<set<nat>>, w: nat, n: nat)
    requires |words| == 2 && w < 2 && n <= 32 && forall b :: b in words[w] ==> b < n
    ensures words[w] == LowBits(n) <==> forall k :: 32 * w <= k < 32 * w + n ==> Seen(words, k)
  {
    hide LowBits;
    forall b: nat | b < n ensures Seen(words, 32 * w + b) <==> b in words[w] {
      WordOf(w, b);
    }
    forall k | 32 * w <= k < 32 * w + n ensures Seen(words, k) <==> k - 32 * w in words[w] {
      WordOf(w, k - 32 * w);
    }
  }

  lemma WordOf(w: nat, b: nat)
    requires b < 32
    ensures (32 * w + b) / 32 == w && (32 * w + b) % 32 == b
  {
  }

  function ItemTag(fields: seq<Field>, item: Item): nat {
    if item.Unknown? then item.tag else if item.index < |fields| then fields[item.index].tag else 0
  }

  function ItemWire(fields: seq<Field>, item: Item): nat {
    if item.Unknown? then ForeignType(item.foreign)
    else if item.Packed? then STRING
    else if item.index < |fields| then WireType(fields[item.index].kind) else 0
  }

  function ItemPayload(fields: seq<Field>, item: Item): Bytes {
    if item.Unknown? then ForeignBytes(item.foreign)
    else if item.index >= |fields| then []
    else if item.Packed? then Prefixed(NumsBytes(fields[item.index].kind, item.ns))
    else PayloadBytes(fields[item.index].kind, item.p)
  }

  lemma ItemParts(fields: seq<Field>, item: Item)
    requires WellFields(fields) && WellItem(fields, item)
    ensures ItemBytes(fields, item) ==
      TagBytes(ItemTag(fields, item), ItemWire(fields, item)) + ItemPayload(fields, item)
    ensures 0 < ItemTag(fields, item) < MAX_TAG && ItemWire(fields, item) < 8 && |ItemBytes(fields, item)| > 0
    ensures item.Unknown? <==> !HasTag(fields, ItemTag(fields, item))
    ensures forall i :: 0 <= i < |fields| && fields[i].tag == ItemTag(fields, item) ==>
      !item.Unknown? && i == item.index
  {
    hide Prefixed, NumsBytes, PayloadBytes, WellKind, Holds;
    if !item.Unknown? {
      assert WellField(fields[item.index]);
    }
  }

  lemma ForeignComesIn(fields: seq<Field>, item: Item)
    requires WellItem(fields, item) && item.Unknown?
    ensures ItemPayload(fields, item) == ForeignBytes(item.foreign) &&
      ItemWire(fields, item) == ForeignType(item.foreign) && WellForeign(item.foreign)
  {
    hide WellForeign;
  }

  lemma ItemComesIn(fields: seq<Field>, item: Item, rest: Bytes, tail: Bytes)
    requires WellItem(fields, item) && !item.Unknown? && rest == ItemPayload(fields, item) + tail
    ensures item.index < |fields| && Incoming(fields[item.index], ItemWire(fields, item), item, rest, tail)
  {
    hide Prefixed, NumsBytes, PayloadBytes, WellPayload;
  }

  /** What a structure holds after a message, or None if the message is refused. */
  ghost function Outcome(fields: seq<Field>, slots: seq<Slot>, items: seq<Item>): Option<seq<Slot>> {
    var r := Run(fields, Start(slots), items);
    if r.Some? && Complete(fields, r.value) then Some(r.value.slots) else None
  }

  /** After k records the stream holds the others, and the variables are those of the run so far. */
  ghost predicate OnTrack(fields: seq<Field>, slots0: seq<Slot>, items: seq<Item>, k: nat, l: Locals, rest: Bytes) {
    k <= |items| && |l.fieldsSeen| == 2 && rest == ItemsBytes(fields, items[k..]) &&
    Run(fields, Start(slots0), items[..k]) == Some(StateOf(l))
  }

  lemma TrackStarts(fields: seq<Field>, slots0: seq<Slot>, items: seq<Item>)
    ensures OnTrack(fields, slots0, items, 0, Locals(slots0, [{}, {}], None, 0), ItemsBytes(fields, items))
  {
    assert items[0..] == items && items[..0] == [];
    assert Bits([{}, {}]) == {};
  }

  lemma TrackNext(fields: seq<Field>, slots0: seq<Slot>, items: seq<Item>, k: nat, l: Locals, rest: Bytes)
    requires OnTrack(fields, slots0, items, k, l, rest) && |rest| > 0 && WellFields(fields) && WellItems(fields, items)
    ensures k < |items| && WellItem(fields, items[k])
    ensures var tail := ItemsBytes(fields, items[k + 1..]); var item := items[k];
      rest == ItemBytes(fields, item) + tail &&
      rest == TagBytes(ItemTag(fields, item), ItemWire(fields, item)) + (ItemPayload(fields, item) + tail)
  {
    hide ItemBytes, WellItem, TagBytes, ItemPayload, ItemTag, ItemWire, WellFields, Run, ItemsBytes, Bits;
    OneMoreToCome(fields, items, k);
    ItemParts(fields, items[k]);
    Regroup(TagBytes(ItemTag(fields, items[k]), ItemWire(fields, items[k])), ItemPayload(fields, items[k]),
            ItemsBytes(fields, items[k + 1..]));
  }

  lemma Regroup(a: Bytes, b: Bytes, c: Bytes)
    ensures (a + b) + c == a + (b + c)
  {
  }

  lemma OneMoreToCome(fields: seq<Field>, items: seq<Item>, k: nat)
    requires k <= |items| && |ItemsBytes(fields, items[k..])| > 0
    ensures k < |items| &&
      ItemsBytes(fields, items[k..]) == ItemBytes(fields, items[k]) + ItemsBytes(fields, items[k + 1..])
  {
    hide ItemBytes;
    assert items[k..][1..] == items[k + 1..];
    WriteFirst(fields, items[k..]);
  }

  lemma TrackStep(fields: seq<Field>, slots0: seq<Slot>, items: seq<Item>, k: nat, l: Locals, rest: Bytes, l': Locals)
    requires OnTrack(fields, slots0, items, k, l, rest) && k < |items| && |l'.fieldsSeen| == 2
    requires Step(fields, StateOf(l), items[k]) == Some(StateOf(l'))
    ensures OnTrack(fields, slots0, items, k + 1, l', ItemsBytes(fields, items[k + 1..]))
  {
    hide Step, ItemBytes, Bits;
    assert items[..k + 1][..k] == items[..k];
  }

  lemma TrackFails(fields: seq<Field>, slots0: seq<Slot>, items: seq<Item>, k: nat, l: Locals, rest: Bytes)
    requires OnTrack(fields, slots0, items, k, l, rest) && k < |items| && Step(fields, StateOf(l), items[k]).None?
    ensures Outcome(fields, slots0, items).None?
  {
    hide Step, ItemBytes, Bits;
    assert items[..k + 1][..k] == items[..k];
    RefusedForGood(fields, Start(slots0), items, k + 1);
  }

  lemma {:induction false} NothingWritten(fields: seq<Field>, items: seq<Item>)
    requires WellFields(fields) && WellItems(fields, items) && ItemsBytes(fields, items) == []
    ensures items == []
  {
    if |items| > 0 {
      ItemParts(fields, items[|items| - 1]);
    }
  }

  lemma TrackEnds(fields: seq<Field>, slots0: seq<Slot>, items: seq<Item>, k: nat, l: Locals)
    requires OnTrack(fields, slots0, items, k, l, []) && WellFields(fields) && WellItems(fields, items)
    ensures Outcome(fields, slots0, items) == if Complete(fields, StateOf(l)) then Some(l.slots) else None
  {
    hide Step, ItemBytes, Bits, WellFields, WellItem, Complete, Run;
    NothingWritten(fields, items[k..]);
    assert items[..k] == items;
  }

  /** pb_decode_noinit: into a structure that holds something already. */
  method DecodeNoInit(s: IStream, fields: seq<Field>, slots0: seq<Slot>, ghost items: seq<Item>)
      returns (r: Option<seq<Slot>>)
    requires s.Valid() && WellFields(fields) && Laid(fields, slots0)
    modifies s
    ensures s.Valid() && s.bytesLeft <= old(s.bytesLeft) && (r.Some? ==> Laid(fields, r.value))
    ensures WellItems(fields, items) && old(s.Rest()) == ItemsBytes(fields, items) ==>
      r == Outcome(fields, slots0, items)
    decreases fields, 1
  {
    hide WellFields, Laid, WellItems, ItemsBytes, OnTrack, Outcome, Bits, Step, Run, TagBytes, ItemPayload;
    hide ItemTag, ItemWire, ItemBytes;
    hide Member, RequiredBefore, Incoming, WellItem;
    ghost var on := WellItems(fields, items) && s.Rest() == ItemsBytes(fields, items);
    var iter := new FieldIter(fields);
    var _ := iter.Begin();
    var l := Locals(slots0, [{}, {}], None, 0);
    ghost var k := 0;
    TrackStarts(fields, slots0, items);
    while s.bytesLeft > 0
      invariant s.Valid() && s.bytesLeft <= old(s.bytesLeft) && iter.Valid() && fresh(iter) &&
        iter.fields == fields && Sane(fields, l)
      invariant on ==> OnTrack(fields, slots0, items, k, l, s.Rest())
      decreases s.bytesLeft
    {
      ghost var item, tail, rest := Unknown(0, Varint64([])), [], s.Rest();
      if on {
        TrackNext(fields, slots0, items, k, l, s.Rest());
        item, tail := items[k], ItemsBytes(fields, items[k + 1..]);
        ItemParts(fields, item);
      }
      var header, eof := s.DecodeTag(ItemTag(fields, item), ItemWire(fields, item), ItemPayload(fields, item) + tail);
      if header.None? {
        if eof {
          break;
        }
        return None;
      }
      var (tag, wireType) := header.value;
      var found := iter.Find(tag);
      if !found {
        if on {
          ForeignComesIn(fields, item);
        }
        var ok := s.SkipField(wireType, if item.Unknown? then item.foreign else Varint64([]), tail);
        if !ok {
          return None;
        }
        if on {
          UnknownIsNoStep(fields, StateOf(l), item);
          TrackStep(fields, slots0, items, k, l, rest, l);
        }
      } else if |fields| == 0 {
        // The end marker of an empty descriptor has tag 0 and looks like a required bool.
        var value, _ := s.DecodeVarint32(0, []);
        if value.None? {
          return None;
        }
      } else {
        if on {
          ItemComesIn(fields, item, s.Rest(), tail);
        }
        var l' := ReceiveField(s, fields, l, iter.pos, iter.member, iter.requiredFieldIndex, wireType, item, tail);
        if l'.None? {
          if on {
            TrackFails(fields, slots0, items, k, l, rest);
          }
          return None;
        }
        if on {
          TrackStep(fields, slots0, items, k, l, rest, l'.value);
        }
        l := l'.value;
      }
      k := k + 1;
    }
    if on {
      assert s.Rest() == [];
      TrackEnds(fields, slots0, items, k, l);
    }
    if l.fixedField.Some? && l.fixedSize != fields[l.fixedField.value].rule.count {
      return None;
    }
    SeenIsBit(l.fieldsSeen);
    var complete := CheckRequired(iter, l.fieldsSeen);
    r := if complete then Some(l.slots) else None;
  }

  lemma UnknownIsNoStep(fields: seq<Field>, s: State, item: Item)
    requires item.Unknown?
    ensures Step(fields, s, item) == Some(s)
  {
  }

  /** pb_decode: into a structure set to its defaults first. */
  method Decode(s: IStream, fields: seq<Field>, ghost items: seq<Item>) returns (r: Option<seq<Slot>>)
    requires s.Valid() && WellFields(fields)
    modifies s
    ensures s.Valid() && (r.Some? ==> Laid(fields, r.value))
    ensures WellItems(fields, items) && old(s.Rest()) == ItemsBytes(fields, items) ==>
      r == Outcome(fields, Defaults(fields, |fields|), items)
  {
    hide WellFields, Laid, WellItems, ItemsBytes, Outcome;
    DefaultsAreLaid(fields);
    var slots := SetToDefaults(fields);
    r := DecodeNoInit(s, fields, slots, items);
  }
}
