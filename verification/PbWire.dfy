/** Encoded messages as trees of records, their bytes, and what receiving them does to a message structure.
    The encoder and the decoder are both proved against this. */
module PbWire {
  import opened Options
  import opened Coding
  import opened PbFields

  const MAX_REQUIRED: nat := 64

  datatype Payload = Scalar(n: nat) | Chunk(bytes: Bytes) | Group(items: seq<Item>)

  /** One record: one value of a field, a packed array, or something the receiver does not know. */
  datatype Item = Single(index: nat, p: Payload) | Packed(index: nat, ns: seq<nat>) | Unknown(tag: nat,
      foreign: Foreign)

  datatype Foreign = Varint64(bytes: Bytes) | Eight(bytes: Bytes) | Sized(bytes: Bytes) | Four(bytes: Bytes)

  // ---- bytes -------------------------------------------------------------------------------

  const VARINT: nat := 0
  const EIGHT: nat := 1
  const STRING: nat := 2
  const FOUR: nat := 5

  /** pb_encode_tag_for_field. */
  function WireType(kind: Kind): nat {
    match kind
    case Word => FOUR
    case LongWord => EIGHT
    case Blob(_) => STRING
    case Text(_) => STRING
    case FixedBlob(_) => STRING
    case Message(_) => STRING
    case _ => VARINT
  }

  function TagBytes(tag: nat, wireType: nat): Bytes {
    Varint(8 * tag + wireType)
  }

  function NumBytes(kind: Kind, n: nat): Bytes {
    if kind.Word? then Fixed(n, 4) else if kind.LongWord? then Fixed(n, 8) else Varint(n)
  }

  function NumsBytes(kind: Kind, ns: seq<nat>): Bytes {
    if |ns| == 0 then [] else NumsBytes(kind, ns[..|ns| - 1]) + NumBytes(kind, ns[|ns| - 1])
  }

  function FieldsOf(kind: Kind): seq<Field> {
    if kind.Message? then kind.fields else []
  }

  function PayloadBytes(kind: Kind, p: Payload): Bytes
    decreases p
  {
    match p
    case Scalar(n) => NumBytes(kind, n)
    case Chunk(bytes) => Prefixed(bytes)
    case Group(items) => Prefixed(ItemsBytes(FieldsOf(kind), items))
  }

  function ForeignType(f: Foreign): nat {
    match f
    case Varint64(_) => VARINT
    case Eight(_) => EIGHT
    case Sized(_) => STRING
    case Four(_) => FOUR
  }

  function ForeignBytes(f: Foreign): Bytes {
    if f.Sized? then Prefixed(f.bytes) else f.bytes
  }

  function ItemBytes(fields: seq<Field>, item: Item): Bytes
    decreases item
  {
    match item
    case Single(i, p) =>
      if i < |fields| then TagBytes(fields[i].tag, WireType(fields[i].kind)) + PayloadBytes(fields[i].kind, p) else []
    case Packed(i, ns) =>
      if i < |fields| then TagBytes(fields[i].tag, STRING) + Prefixed(NumsBytes(fields[i].kind, ns)) else []
    case Unknown(tag, f) => TagBytes(tag, ForeignType(f)) + ForeignBytes(f)
  }

  function ItemsBytes(fields: seq<Field>, items: seq<Item>): Bytes
    decreases items
  {
    if |items| == 0 then [] else ItemsBytes(fields, items[..|items| - 1]) + ItemBytes(fields, items[|items| - 1])
  }

  lemma {:induction false} WriteFirst(fields: seq<Field>, items: seq<Item>)
    requires |items| > 0
    ensures ItemsBytes(fields, items) == ItemBytes(fields, items[0]) + ItemsBytes(fields, items[1..])
  {
    hide ItemBytes;
    var n := |items| - 1;
    if n > 0 {
      WriteFirst(fields, items[..n]);
      assert items[..n][1..] == items[1..][..n - 1];
    } else {
      assert items[..0] == [] && items[1..] == [];
    }
  }

  lemma {:induction false} WriteBoth(fields: seq<Field>, a: seq<Item>, b: seq<Item>)
    ensures ItemsBytes(fields, a + b) == ItemsBytes(fields, a) + ItemsBytes(fields, b)
  {
    hide ItemBytes;
    if |b| == 0 {
      assert a + b == a;
    } else {
      var n := |b| - 1;
      WriteBoth(fields, a, b[..n]);
      assert (a + b)[..|a| + n] == a + b[..n];
      assert (a + b)[|a| + n] == b[n];
      assert ItemsBytes(fields, a + b) == ItemsBytes(fields, a + b[..n]) + ItemBytes(fields, b[n]);
    }
  }

  lemma {:induction false} NumsFirst(kind: Kind, ns: seq<nat>)
    requires |ns| > 0
    ensures NumsBytes(kind, ns) == NumBytes(kind, ns[0]) + NumsBytes(kind, ns[1..])
  {
    hide NumBytes;
    var n := |ns| - 1;
    if n > 0 {
      NumsFirst(kind, ns[..n]);
      assert ns[..n][1..] == ns[1..][..n - 1];
    } else {
      assert ns[..0] == [] && ns[1..] == [];
    }
  }

  // ---- records that fit their field ------------------------------------------------------------

  /** How far a number may go on the wire: booleans and lengths are read as 32 bits. */
  function Limit(kind: Kind): nat {
    if kind.Bool? || kind.Word? then WORD32 else WORD64
  }

  ghost predicate WellForeign(f: Foreign) {
    match f
    case Varint64(b) => |b| > 0 && b[|b| - 1] < 128 && forall i :: 0 <= i < |b| - 1 ==> b[i] >= 128
    case Eight(b) => |b| == 8
    case Sized(b) => |b| < WORD32
    case Four(b) => |b| == 4
  }

  ghost predicate WellPayload(kind: Kind, p: Payload)
    decreases p
  {
    if kind.Packable() then p.Scalar? && p.n < Limit(kind)
    else if kind.Message? then p.Group? && WellItems(kind.fields, p.items) &&
      |ItemsBytes(kind.fields, p.items)| < WORD32
    else p.Chunk? && |p.bytes| < WORD32
  }

  ghost predicate WellItem(fields: seq<Field>, item: Item)
    decreases item
  {
    match item
    case Single(i, p) => i < |fields| && WellPayload(fields[i].kind, p)
    case Packed(i, ns) =>
      i < |fields| && fields[i].kind.Packable() && (fields[i].rule.Repeated? || fields[i].rule.FixedCount?) &&
      (forall n :: n in ns ==> n < Limit(fields[i].kind)) && |NumsBytes(fields[i].kind, ns)| < WORD32
    case Unknown(tag, f) => 0 < tag < MAX_TAG && !HasTag(fields, tag) && WellForeign(f)
  }

  ghost predicate WellItems(fields: seq<Field>, items: seq<Item>)
    decreases items
  {
    forall k :: 0 <= k < |items| ==> WellItem(fields, items[k])
  }

  // ---- numbers ---------------------------------------------------------------------------------------

  /** The signed number with the same bits in size bytes. */
  function Signed(n: nat, size: nat): int {
    if n % (2 * Half(size)) < Half(size) then n % (2 * Half(size)) else n % (2 * Half(size)) - 2 * Half(size)
  }

  predicate FitsSigned(n: int, size: nat) {
    -(Half(size) as int) <= n < Half(size)
  }

  function ZigZag(n: int): int {
    if n < 0 then -2 * n - 1 else 2 * n
  }

  function UnZigZag(n: nat): int {
    if n % 2 == 1 then -(n / 2) - 1 else n / 2
  }

  /** A number of the structure as the unsigned number that is sent. */
  function ToWire(kind: Kind, n: int): (r: nat)
    ensures r < WORD64
  {
    if kind.SInt? then ZigZag(n) % WORD64 else n % WORD64
  }

  /** The number received; too large a number is refused. Small fields take the lower 32 bits first. */
  function FromWire(kind: Kind, n: nat): Option<int> {
    match kind
    case Bool => Some(if n == 0 then 0 else 1)
    case Int(size) =>
      var s := if size == 8 then Signed(n, 8) else Signed(n, 4);
      if FitsSigned(s, size) then Some(s) else None
    case UInt(size) => if n < 2 * Half(size) then Some(n) else None
    case SInt(size) => if FitsSigned(UnZigZag(n), size) then Some(UnZigZag(n)) else None
    case _ => Some(n)
  }

  lemma NumberRoundTrip(kind: Kind, n: int)
    requires WellKind(kind) && kind.Packable() && Holds(kind, Num(n))
    ensures ToWire(kind, n) < Limit(kind) && FromWire(kind, ToWire(kind, n)) == Some(n)
  {
    hide ToWire, FromWire;
    if kind.Int? {
      IntRoundTrip(kind.size, n);
    } else if kind.SInt? {
      SIntRoundTrip(kind.size, n);
    } else {
      PlainRoundTrip(kind, n);
    }
  }

  lemma PlainRoundTrip(kind: Kind, n: int)
    requires WellKind(kind) && kind.Packable() && Holds(kind, Num(n)) && !kind.Int? && !kind.SInt?
    ensures ToWire(kind, n) < Limit(kind) && FromWire(kind, ToWire(kind, n)) == Some(n)
  {
    assert 0 <= n < WORD64;
  }

  lemma SIntRoundTrip(size: nat, n: int)
    requires IsWidth(size) && FitsSigned(n, size)
    ensures FromWire(SInt(size), ToWire(SInt(size), n)) == Some(n)
  {
    hide ZigZag, UnZigZag;
    ZigZagRoundTrip(n);
    Wider(n, size);
  }

  lemma Wider(n: int, size: nat)
    requires IsWidth(size) && FitsSigned(n, size)
    ensures FitsSigned(n, 8)
  {
  }

  lemma IntRoundTrip(size: nat, n: int)
    requires IsWidth(size) && FitsSigned(n, size)
    ensures FromWire(Int(size), ToWire(Int(size), n)) == Some(n)
  {
    if size == 8 {
      TwosComplement(n);
    } else {
      LowerHalf(n);
    }
  }

  lemma TwosComplement(n: int)
    requires FitsSigned(n, 8)
    ensures n % WORD64 == if n < 0 then n + WORD64 else n
  {
  }

  /** The lower 32 bits of a small number are the number in 32 bits. */
  lemma LowerHalf(n: int)
    requires FitsSigned(n, 4)
    ensures (n % WORD64) % WORD32 == if n < 0 then n + WORD32 else n
  {
    if n < 0 {
      assert n % WORD64 == (n + WORD32) + WORD32 * (WORD32 - 1);
    }
  }

  lemma ZigZagRoundTrip(n: int)
    ensures ZigZag(n) >= 0 && UnZigZag(ZigZag(n)) == n
    ensures FitsSigned(n, 8) ==> ZigZag(n) < WORD64
  {
    if n < 0 {
      assert ZigZag(n) == 2 * (-n - 1) + 1;
    }
  }

  /** The numbers next to zero, in turn. */
  lemma ZigZagStarts()
    ensures ZigZag(0) == 0 && ZigZag(-1) == 1 && ZigZag(1) == 2 && ZigZag(-2) == 3
    ensures UnZigZag(0) == 0 && UnZigZag(1) == -1 && UnZigZag(2) == 1 && UnZigZag(3) == -2
  {
  }

  /** A number that does not fit its field is refused, and no other: signed fields of less than eight bytes look at the
    lower 32 bits only. */
  lemma RefusedIff(n: nat)
    ensures FromWire(UInt(1), n).Some? <==> n < 256
    ensures FromWire(UInt(2), n).Some? <==> n < 65536
    ensures FromWire(UInt(4), n).Some? <==> n < 0x1_0000_0000
    ensures FromWire(UInt(8), n).Some? <==> n < 0x1_0000_0000_0000_0000
    ensures FromWire(SInt(1), n).Some? <==> n < 256
    ensures FromWire(SInt(2), n).Some? <==> n < 65536
    ensures FromWire(SInt(4), n).Some? <==> n < 0x1_0000_0000
    ensures FromWire(SInt(8), n).Some? <==> n < 0x1_0000_0000_0000_0000
    ensures FromWire(Int(1), n).Some? <==> n % 0x1_0000_0000 < 128 || n % 0x1_0000_0000 >= 0xffff_ff80
    ensures FromWire(Int(2), n).Some? <==> n % 0x1_0000_0000 < 32768 || n % 0x1_0000_0000 >= 0xffff_8000
    ensures FromWire(Int(4), n).Some? && FromWire(Int(8), n).Some?
  {
    hide Signed;
    SignedIs(n);
  }

  lemma SignedIs(n: nat)
    ensures Signed(n, 4) == var low := n % 0x1_0000_0000; if low < 0x8000_0000 then low else low - 0x1_0000_0000
    ensures FitsSigned(Signed(n, 8), 8)
  {
  }

  // ---- receiving -----------------------------------------------------------------------------------------

  /** The structure so far, the required fields seen, and the fixed-count field being filled. */
  datatype State = State(slots: seq<Slot>, seen: set<nat>, fixed: Option<nat>)

  function Start(slots: seq<Slot>): State {
    State(slots, {}, None)
  }

  /** The memory of a structure has the layout of its descriptor. */
  ghost predicate Laid(fields: seq<Field>, slots: seq<Slot>)
    decreases fields
  {
    |slots| == Members(fields, |fields|) &&
    forall i :: 0 <= i < |fields| ==> Member(fields, i) < |slots| && LaidSlot(fields[i], slots[Member(fields, i)])
  }

  ghost predicate LaidSlot(f: Field, slot: Slot)
    decreases f
  {
    match f.rule
    case Optional => slot.Maybe? && LaidValue(f.kind, slot.v)
    case Repeated(_) => slot.Many?
    case FixedCount(_) => slot.Many?
    case OneOf(_) => slot.Which? && (slot.tag == f.tag ==> LaidValue(f.kind, slot.v))
    case _ => slot.One? && LaidValue(f.kind, slot.v)
  }

  ghost predicate LaidValue(kind: Kind, v: Value)
    decreases kind
  {
    kind.Message? ==> v.Struct? && Laid(kind.fields, v.slots)
  }

  ghost predicate FixedDone(fields: seq<Field>, s: State) {
    s.fixed.Some? ==>
      s.fixed.value < |fields| && fields[s.fixed.value].rule.FixedCount? && Member(fields, s.fixed.value) < |s.slots| &&
      var slot := s.slots[Member(fields, s.fixed.value)]; slot.Many? && |slot.vs| == fields[s.fixed.value].rule.count
  }

  /** The first 64 required fields have all come, and the last fixed-count array is full. */
  ghost predicate Complete(fields: seq<Field>, s: State) {
    FixedDone(fields, s) && forall k :: 0 <= k < MAX_REQUIRED && k < RequiredBefore(fields, |fields|) ==> k in s.seen
  }

  /** A value for a variable that holds old; a message is merged into what is there. */
  ghost function Take(kind: Kind, p: Payload, prior: Value): Option<Value>
    decreases p, 0
  {
    match p
    case Scalar(n) => if FromWire(kind, n).Some? then Some(Num(FromWire(kind, n).value)) else None
    case Chunk(b) =>
      (match kind
       case Blob(capacity) => if |b| <= capacity then Some(Raw(b)) else None
       case Text(size) => if |b| < size then Some(Raw(b)) else None
       case FixedBlob(size) => if |b| == 0 then Some(Raw(seq(size, _ => 0))) else if |b| == size then Some(Raw(b))
         else None
       case _ => None)
    case Group(items) =>
      if !prior.Struct? then None
      else
        var r := Run(FieldsOf(kind), Start(prior.slots), items);
        if r.Some? && Complete(FieldsOf(kind), r.value) then Some(Struct(r.value.slots)) else None
  }

  /** One more value for a field. */
  ghost function Store(f: Field, slot: Slot, p: Payload): Option<Slot>
    decreases p, 1
  {
    match slot
    case One(v) => var r := Take(f.kind, p, v); if r.Some? then Some(One(r.value)) else None
    case Maybe(_, v) => var r := Take(f.kind, p, v); if r.Some? then Some(Maybe(true, r.value)) else None
    case Many(vs) =>
      if |vs| >= Room(f) then None
      else var r := Take(f.kind, p, Zero(f.kind)); if r.Some? then Some(Many(vs + [r.value])) else None
    case Which(tag, v) =>
      var r := Take(f.kind, p, if f.kind.Message? && tag != f.tag then Zero(f.kind) else v);
      if r.Some? then Some(Which(f.tag, r.value)) else None
  }

  function Room(f: Field): nat {
    match f.rule
    case Repeated(max) => max
    case FixedCount(count) => count
    case _ => 0
  }

  /** The numbers of a packed array, as long as there is room and they fit. */
  function StoreNums(f: Field, slot: Slot, ns: seq<nat>): Option<Slot>
  {
    if !slot.Many? then None
    else if |ns| == 0 then Some(slot)
    else
      var r := StoreNums(f, slot, ns[..|ns| - 1]);
      var n := FromWire(f.kind, ns[|ns| - 1]);
      if r.None? || !r.value.Many? || |r.value.vs| >= Room(f) ||
          n.None? then None else Some(Many(r.value.vs + [Num(n.value)]))
  }

  /** A value for field i is coming: a fixed-count array starts from nothing, and only when the one before is full. */
  ghost function Enter(fields: seq<Field>, s: State, i: nat): Option<State>
    requires i < |fields|
  {
    var f := fields[i];
    if f.rule.FixedCount? && s.fixed != Some(i) then
      if FixedDone(fields, s) &&
          Member(fields, i) < |s.slots| then Some(s.(fixed := Some(i), slots := s.slots[Member(fields, i) := Many([])]))
      else None
    else if f.rule.Required? &&
      RequiredBefore(fields, i) < MAX_REQUIRED then Some(s.(seen := s.seen + {RequiredBefore(fields, i)}))
    else Some(s)
  }

  ghost function Step(fields: seq<Field>, s: State, item: Item): Option<State>
    decreases item
  {
    if item.Unknown? then Some(s)
    else if item.index >= |fields| then None
    else
      var r := Enter(fields, s, item.index);
      var m := Member(fields, item.index);
      if r.None? || m >= |r.value.slots| then None
      else
        var f, slot := fields[item.index], r.value.slots[m];
        var slot' := if item.Single? then Store(f, slot, item.p) else StoreNums(f, slot, item.ns);
        if slot'.None? then None else Some(r.value.(slots := r.value.slots[m := slot'.value]))
  }

  /** The state after all records, or None if one of them is refused. */
  ghost function Run(fields: seq<Field>, s: State, items: seq<Item>): Option<State>
    decreases items
  {
    if |items| == 0 then Some(s)
    else
      var r := Run(fields, s, items[..|items| - 1]);
      if r.None? then None else Step(fields, r.value, items[|items| - 1])
  }

  lemma {:induction false} RefusedForGood(fields: seq<Field>, s: State, items: seq<Item>, k: nat)
    requires k <= |items| && Run(fields, s, items[..k]).None?
    ensures Run(fields, s, items).None?
    decreases |items|
  {
    hide Step;
    if k < |items| {
      assert items[..|items| - 1][..k] == items[..k];
      RefusedForGood(fields, s, items[..|items| - 1], k);
    } else {
      assert items[..k] == items;
    }
  }

  lemma {:induction false} RunBoth(fields: seq<Field>, s: State, a: seq<Item>, b: seq<Item>)
    ensures var r := Run(fields, s, a);
      Run(fields, s, a + b) == if r.None? then None else Run(fields, r.value, b)
  {
    hide Step;
    if |b| == 0 {
      assert a + b == a;
    } else {
      RunBoth(fields, s, a, b[..|b| - 1]);
      assert (a + b)[..|a + b| - 1] == a + b[..|b| - 1];
    }
  }
}
