/** nanopb's message descriptors and message structures, static fields only, and the iterator over a descriptor:
    pb.h and pb_common.c. */
module PbFields {
  import opened Options
  import opened Coding

  const MAX_TAG: nat := 0x2000_0000

  /** PB_LTYPE, with the size in bytes where the decoder looks at it. */
  datatype Kind =
    | Bool
    | Int(size: nat)
    | UInt(size: nat)
    | SInt(size: nat)
    | Word
    | LongWord
    | Blob(capacity: nat)
    | Text(size: nat)
    | FixedBlob(size: nat)
    | Message(fields: seq<Field>)
  {
    /** PB_LTYPE_LAST_PACKABLE and everything before it. */
    predicate Packable() {
      Bool? || Int? || UInt? || SInt? || Word? || LongWord?
    }
  }

  /** PB_HTYPE. Optional has a has_ flag and Singular has none; an inside field continues the union of the field
    before. */
  datatype Rule = Required | Optional | Singular | Repeated(max: nat) | FixedCount(count: nat) | OneOf(inside: bool)

  datatype Field = Field(tag: nat, kind: Kind, rule: Rule, initial: Option<Value>)

  datatype Value = Num(n: int) | Raw(bytes: Bytes) | Struct(slots: seq<Slot>)

  /** A member of a message structure: with its has_ flag, its count, or its which_ tag. */
  datatype Slot = One(v: Value) | Maybe(has: bool, v: Value) | Many(vs: seq<Value>) | Which(tag: nat, v: Value)

  // ---- the members of a structure --------------------------------------------------------

  predicate SharesUnion(fields: seq<Field>, i: nat)
    requires i < |fields|
  {
    i > 0 && fields[i - 1].rule.OneOf? && fields[i].rule.OneOf? && fields[i].rule.inside
  }

  /** Which member of the structure field i is kept in. */
  function Member(fields: seq<Field>, i: nat): nat
    requires i < |fields|
  {
    if i == 0 then 0 else Member(fields, i - 1) + if SharesUnion(fields, i) then 0 else 1
  }

  function Members(fields: seq<Field>, n: nat): nat
    requires n <= |fields|
  {
    if n == 0 then 0 else Member(fields, n - 1) + 1
  }

  function RequiredBefore(fields: seq<Field>, i: nat): nat
    requires i <= |fields|
  {
    if i == 0 then 0 else RequiredBefore(fields, i - 1) + if fields[i - 1].rule.Required? then 1 else 0
  }

  lemma {:induction false} MembersGrow(fields: seq<Field>, i: nat, j: nat)
    requires i <= j < |fields|
    ensures Member(fields, i) <= Member(fields, j) < Members(fields, |fields|)
    decreases |fields| - i
  {
    if i < j {
      MembersGrow(fields, i + 1, j);
    } else if j < |fields| - 1 {
      MembersGrow(fields, j + 1, |fields| - 1);
    }
  }

  /** Fields that share a member are in one union. */
  lemma {:induction false} SharedIsUnion(fields: seq<Field>, i: nat, j: nat)
    requires i < j < |fields| && Member(fields, i) == Member(fields, j)
    ensures fields[i].rule.OneOf? && fields[j].rule.OneOf? && fields[j].rule.inside
  {
    MembersGrow(fields, i, j - 1);
    if i < j - 1 {
      SharedIsUnion(fields, i, j - 1);
    }
  }

  // ---- well-formed descriptors -------------------------------------------------------------

  function Half(size: nat): nat {
    if size == 1 then 0x80 else if size == 2 then 0x8000 else if size == 4 then 0x8000_0000 else 0x8000_0000_0000_0000
  }

  predicate IsWidth(size: nat) {
    size == 1 || size == 2 || size == 4 || size == 8
  }

  /** What a C variable of the kind can hold; a text is what its buffer holds, up to its end or a zero byte. */
  ghost predicate Holds(kind: Kind, v: Value)
    decreases kind
  {
    match kind
    case Bool => v.Num? && 0 <= v.n <= 1
    case Int(size) => v.Num? && -(Half(size) as int) <= v.n < Half(size)
    case UInt(size) => v.Num? && 0 <= v.n < 2 * Half(size)
    case SInt(size) => v.Num? && -(Half(size) as int) <= v.n < Half(size)
    case Word => v.Num? && 0 <= v.n < WORD32
    case LongWord => v.Num? && 0 <= v.n < WORD64
    case Blob(capacity) => v.Raw? && |v.bytes| < WORD32
    case Text(size) => v.Raw? && |v.bytes| <= size
    case FixedBlob(size) => v.Raw? && |v.bytes| == size
    case Message(fields) => v.Struct? && HoldsAll(fields, v.slots)
  }

  /** The slot of a field has its layout, and what is in use of it its values. */
  ghost predicate HoldsSlot(f: Field, slot: Slot)
    decreases f
  {
    match f.rule
    case Required => slot.One? && Holds(f.kind, slot.v)
    case Optional => slot.Maybe? && Holds(f.kind, slot.v)
    case Singular => slot.One? && Holds(f.kind, slot.v)
    case Repeated(max) => slot.Many? && forall v :: v in slot.vs ==> Holds(f.kind, v)
    case FixedCount(count) => slot.Many? && |slot.vs| == count && forall v :: v in slot.vs ==> Holds(f.kind, v)
    case OneOf(_) => slot.Which? && (slot.tag == f.tag ==> Holds(f.kind, slot.v))
  }

  ghost predicate HoldsAll(fields: seq<Field>, slots: seq<Slot>)
    decreases fields
  {
    |slots| == Members(fields, |fields|) &&
    forall i :: 0 <= i < |fields| ==> Member(fields, i) < |slots| && HoldsSlot(fields[i], slots[Member(fields, i)])
  }

  ghost predicate WellKind(kind: Kind)
    decreases kind
  {
    match kind
    case Int(size) => IsWidth(size)
    case UInt(size) => IsWidth(size)
    case SInt(size) => IsWidth(size)
    case Blob(capacity) => capacity < WORD32
    case Text(size) => 0 < size < WORD32
    case FixedBlob(size) => size < WORD32
    case Message(fields) => WellFields(fields)
    case _ => true
  }

  /** A message has no initial value of its own, and neither has a field without a has_ flag. */
  ghost predicate WellField(f: Field)
    decreases f
  {
    0 < f.tag < MAX_TAG && WellKind(f.kind) &&
    (f.initial.Some? ==> !f.kind.Message? && !f.rule.Singular? && Holds(f.kind, f.initial.value))
  }

  ghost predicate WellFields(fields: seq<Field>)
    decreases fields
  {
    (forall i :: 0 <= i < |fields| ==> WellField(fields[i])) &&
    forall i, j :: 0 <= i < j < |fields| ==> fields[i].tag != fields[j].tag
  }

  // ---- initial values --------------------------------------------------------------------------

  function Zero(kind: Kind): Value
    decreases kind
  {
    match kind
    case Blob(_) => Raw([])
    case Text(_) => Raw([])
    case FixedBlob(size) => Raw(seq(size, _ => 0))
    case Message(fields) => Struct(Defaults(fields, |fields|))
    case _ => Num(0)
  }

  function Initial(f: Field): Value
    decreases f, 0
  {
    if f.kind.Message? || f.initial.None? then Zero(f.kind) else f.initial.value
  }

  /** What a union holds that no field was stored in is not looked at. */
  function DefaultSlot(f: Field): Slot
    decreases f, 1
  {
    match f.rule
    case Optional => Maybe(false, Initial(f))
    case Repeated(_) => Many([])
    case FixedCount(_) => Many([])
    case OneOf(_) => Which(0, Num(0))
    case _ => One(Initial(f))
  }

  /** The members of the first n fields, set to their defaults. */
  function Defaults(fields: seq<Field>, n: nat): (slots: seq<Slot>)
    requires n <= |fields|
    ensures |slots| == Members(fields, n)
    decreases fields, n
  {
    if n == 0 then []
    else Defaults(fields, n - 1) + if SharesUnion(fields, n - 1) then [] else [DefaultSlot(fields[n - 1])]
  }

  lemma {:induction false} DefaultsAre(fields: seq<Field>, n: nat, i: nat)
    requires i < n <= |fields|
    ensures Member(fields, i) < Members(fields, n)
    ensures Defaults(fields, n)[Member(fields, i)] == DefaultSlot(fields[i])
  {
    if i < n - 1 {
      DefaultsAre(fields, n - 1, i);
    } else if SharesUnion(fields, i) {
      DefaultsAre(fields, n - 1, i - 1);
    }
  }

  // ---- the iterator -----------------------------------------------------------------------------

  /** Whether some field has the tag. The field after the last one has tag 0, and only an empty descriptor shows it. */
  ghost predicate HasTag(fields: seq<Field>, tag: nat) {
    (|fields| == 0 && tag == 0) || exists i :: 0 <= i < |fields| && fields[i].tag == tag
  }

  class FieldIter {
    const fields: seq<Field>
    var pos: nat
    /** Where pData points: the member of the current field. */
    var member: nat
    var requiredFieldIndex: nat

    ghost predicate Valid()
      reads this
    {
      if |fields| == 0 then pos == 0 && requiredFieldIndex == 0
      else pos < |fields| && member == Member(fields, pos) && requiredFieldIndex == RequiredBefore(fields, pos)
    }

    constructor (fields: seq<Field>)
      ensures Valid() && this.fields == fields && pos == 0
    {
      this.fields := fields;
      pos, member, requiredFieldIndex := 0, 0, 0;
    }

    method Begin() returns (more: bool)
      modifies this
      ensures Valid() && pos == 0 && (more <==> |fields| > 0)
    {
      pos, member, requiredFieldIndex := 0, 0, 0;
      more := |fields| > 0;
    }

    /** The next field; behind the last one the first one, and false. */
    method Next() returns (more: bool)
      requires Valid()
      modifies this
      ensures Valid() && (more <==> old(pos) + 1 < |fields|) && pos == if more then old(pos) + 1 else 0
    {
      if |fields| == 0 {
        return false;
      }
      var prev := fields[pos];
      if pos + 1 == |fields| {
        var _ := Begin();
        return false;
      }
      pos := pos + 1;
      if prev.rule.OneOf? && fields[pos].rule.OneOf? && fields[pos].rule.inside {
        return true;
      }
      if prev.rule.Required? {
        requiredFieldIndex := requiredFieldIndex + 1;
      }
      member := member + 1;
      return true;
    }

    /** The cyclic search: finds the field with the tag from wherever the iterator stands, or comes back to where it
      was. */
    method Find(tag: nat) returns (found: bool)
      requires Valid()
      modifies this
      ensures Valid() && (found <==> HasTag(fields, tag))
      ensures if found then |fields| > 0 ==> fields[pos].tag == tag else pos == old(pos)
    {
      var start := pos;
      ghost var steps := 0;
      while true
        invariant Valid() && 0 <= steps && (|fields| > 0 ==> steps < |fields|)
        invariant pos == if start + steps < |fields| || |fields| == 0 then start + steps else start + steps - |fields|
        invariant |fields| == 0 ==> steps == 0
        invariant forall i :: start <= i < start + steps && i < |fields| ==> fields[i].tag != tag
        invariant forall i :: 0 <= i < start + steps - |fields| ==> fields[i].tag != tag
        decreases |fields| - steps
      {
        if (if |fields| == 0 then tag == 0 else fields[pos].tag == tag) {
          return true;
        }
        var _ := Next();
        if pos == start {
          return false;
        }
        steps := steps + 1;
      }
    }
  }
}
