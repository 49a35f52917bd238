/** Encoding and decoding together: a message comes back, whatever unknown fields are added on the way. */
module PbRoundTrip {
  import opened Options
  import opened Coding
  import opened PbFields
  import opened PbWire
  import opened PbEncode
  import opened PbStreams
  import opened PbDecode

  // ---- unknown fields --------------------------------------------------------------------------

  /** The padded records are the others with unknown ones added anywhere, in submessages too. */
  ghost predicate Padded(items: seq<Item>, padded: seq<Item>)
    decreases padded
  {
    if |padded| == 0 then |items| == 0
    else
      var last, rest := padded[|padded| - 1], padded[..|padded| - 1];
      (last.Unknown? && Padded(items, rest)) ||
      (|items| > 0 && PaddedItem(items[|items| - 1], last) && Padded(items[..|items| - 1], rest))
  }

  ghost predicate PaddedItem(item: Item, padded: Item)
    decreases padded
  {
    item == padded ||
    (item.Single? && padded.Single? && item.index == padded.index && item.p.Group? && padded.p.Group? &&
     Padded(item.p.items, padded.p.items))
  }

  /** Unknown records change nothing, neither what is stored nor what is refused. */
  lemma {:induction false} UnknownsChangeNothing(fields: seq<Field>, s: State, items: seq<Item>, padded: seq<Item>)
    requires Padded(items, padded)
    ensures Run(fields, s, padded) == Run(fields, s, items)
    decreases padded
  {
    hide Step;
    if |padded| > 0 {
      var last, rest := padded[|padded| - 1], padded[..|padded| - 1];
      if last.Unknown? && Padded(items, rest) {
        UnknownsChangeNothing(fields, s, items, rest);
        if Run(fields, s, rest).Some? {
          UnknownIsNoStep(fields, Run(fields, s, rest).value, last);
        }
      } else {
        var n := |items| - 1;
        UnknownsChangeNothing(fields, s, items[..n], rest);
        if Run(fields, s, rest).Some? {
          SameStep(fields, Run(fields, s, rest).value, items[n], last);
        }
      }
    }
  }

  lemma {:induction false} SameStep(fields: seq<Field>, s: State, item: Item, padded: Item)
    requires PaddedItem(item, padded)
    ensures Step(fields, s, padded) == Step(fields, s, item)
    decreases padded
  {
    hide Enter, Store, StoreNums;
    if item != padded && item.index < |fields| && Enter(fields, s, item.index).Some? &&
        Member(fields, item.index) < |Enter(fields, s, item.index).value.slots| {
      var slots := Enter(fields, s, item.index).value.slots;
      SameStore(fields[item.index], slots[Member(fields, item.index)], item.p, padded.p);
    }
  }

  lemma {:induction false} SameStore(f: Field, slot: Slot, p: Payload, padded: Payload)
    requires p.Group? && padded.Group? && Padded(p.items, padded.items)
    ensures Store(f, slot, padded) == Store(f, slot, p)
    decreases padded, 1
  {
    hide Run;
    SameTake(f.kind, p, padded, Zero(f.kind));
    if !slot.Many? {
      SameTake(f.kind, p, padded, slot.v);
    }
  }

  lemma {:induction false} SameTake(kind: Kind, p: Payload, padded: Payload, prior: Value)
    requires p.Group? && padded.Group? && Padded(p.items, padded.items)
    ensures Take(kind, padded, prior) == Take(kind, p, prior)
    decreases padded, 0
  {
    if prior.Struct? {
      UnknownsChangeNothing(FieldsOf(kind), Start(prior.slots), p.items, padded.items);
    }
  }

  // ---- what comes back -----------------------------------------------------------------------------

  /** A value as it comes back: texts up to their end, and submessages with what was not sent at its default. */
  ghost predicate ReadsBack(kind: Kind, v: Value, back: Value)
    decreases v
  {
    match v
    case Num(_) => back == v
    case Raw(b) => back == Raw(if kind.Text? then CString(b) else b)
    case Struct(slots) => back.Struct? && AllBack(FieldsOf(kind), slots, back.slots)
  }

  ghost predicate SlotBack(f: Field, slot: Slot, back: Slot)
    decreases slot
  {
    match slot
    case One(v) => back.One? && if f.rule.Required? ||
    !IsZero(f.kind, v) then ReadsBack(f.kind, v, back.v) else back.v == Initial(f)
    case Maybe(has, v) => back.Maybe? && back.has == has &&
    if has then ReadsBack(f.kind, v, back.v) else back.v == Initial(f)
    case Many(vs) => back.Many? && |back.vs| == |vs| &&
    forall k :: 0 <= k < |vs| ==> ReadsBack(f.kind, vs[k], back.vs[k])
    case Which(tag, v) => tag == f.tag ==> back.Which? && back.tag == tag && ReadsBack(f.kind, v, back.v)
  }

  /** Among the first n fields there is one with this tag in member m. */
  ghost predicate Chosen(fields: seq<Field>, m: nat, tag: nat, n: nat)
    requires n <= |fields|
  {
    exists j :: 0 <= j < n && Member(fields, j) == m && fields[j].tag == tag
  }

  ghost predicate AllBack(fields: seq<Field>, slots: seq<Slot>, back: seq<Slot>)
    decreases slots
  {
    |back| == |slots| &&
    forall i :: 0 <= i < |fields| && Member(fields, i) < |slots| ==>
      var m := Member(fields, i);
      SlotBack(fields[i], slots[m], back[m]) &&
      (slots[m].Which? && !Chosen(fields, m, slots[m].tag, |fields|) ==> back[m] == Which(0, Num(0)))
  }

  /** What is sent of a message can be received: every text has its terminator, and lengths take 32 bits. */
  ghost predicate ValueReadable(kind: Kind, v: Value)
    decreases v
  {
    match v
    case Num(_) => true
    case Raw(b) => kind.Text? ==> |CString(b)| < kind.size
    case Struct(slots) => AllReadable(FieldsOf(kind), slots) && |Encoding(FieldsOf(kind), slots)| < WORD32
  }

  ghost predicate FieldReadable(f: Field, slot: Slot)
    decreases slot
  {
    match slot
    case One(v) => f.rule.Required? || !IsZero(f.kind, v) ==> ValueReadable(f.kind, v)
    case Maybe(has, v) => has ==> ValueReadable(f.kind, v)
    case Many(vs) => |NumsBytes(f.kind, WireNums(f.kind, vs))| < WORD32 &&
    forall v :: v in vs ==> ValueReadable(f.kind, v)
    case Which(tag, v) => tag == f.tag ==> ValueReadable(f.kind, v)
  }

  ghost predicate AllReadable(fields: seq<Field>, slots: seq<Slot>)
    decreases slots
  {
    forall i :: 0 <= i < |fields| && Member(fields, i) < |slots| ==> FieldReadable(fields[i], slots[Member(fields, i)])
  }

  /** Whoever does not send the terminator gets the text refused. */
  lemma UnterminatedIsRefused(size: nat, b: Bytes, prior: Value)
    ensures Take(Text(size), PayloadOf(Text(size), Raw(b)), prior).Some? <==> ValueReadable(Text(size), Raw(b))
  {
  }

  // ---- values ------------------------------------------------------------------------------------------

  lemma {:induction false} CStringIsShort(b: Bytes)
    ensures |CString(b)| <= |b|
  {
    if |b| > 0 {
      CStringIsShort(b[1..]);
    }
  }

  /** Only messages look at what the variable holds. */
  lemma TakeIgnores(kind: Kind, p: Payload, a: Value, b: Value)
    requires !p.Group?
    ensures Take(kind, p, a) == Take(kind, p, b)
  {
  }

  ghost predicate Sendable(kind: Kind, v: Value) {
    WellKind(kind) && Holds(kind, v) && ValueEncodable(kind, v) && ValueReadable(kind, v)
  }

  ghost predicate SendableSlots(fields: seq<Field>, slots: seq<Slot>) {
    WellFields(fields) && HoldsAll(fields, slots) && Encodable(fields, slots) && AllReadable(fields, slots)
  }

  ghost predicate SendableSlot(f: Field, slot: Slot) {
    WellField(f) && HoldsSlot(f, slot) && FieldEncodable(f, slot) && FieldReadable(f, slot)
  }

  lemma {:induction false} TakeBack(kind: Kind, v: Value)
    requires Sendable(kind, v)
    ensures var t := Take(kind, PayloadOf(kind, v), Zero(kind)); t.Some? && ReadsBack(kind, v, t.value)
    decreases v, 0
  {
    hide ToWire, FromWire, Run, AllBack, Complete, ItemsOf, HoldsAll, Encodable, AllReadable, WellFields;
    hide Defaults, CString;
    if kind.Packable() {
      NumIsNum(kind, v);
      NumberRoundTrip(kind, v.n);
    } else if kind.Message? {
      MessageBack(kind.fields, v.slots);
    } else {
      CStringIsShort(v.bytes);
    }
  }

  // ---- one field after the other -------------------------------------------------------------------------

  /** What the member of field i holds when the first n fields have been received. */
  ghost predicate FieldAt(fields: seq<Field>, slots: seq<Slot>, n: nat, cur: seq<Slot>, i: nat)
    requires n <= |fields| && i < |fields| && Member(fields, i) < |slots| == |cur|
  {
    var f, m := fields[i], Member(fields, i);
    if f.rule.OneOf? then
      slots[m].Which? &&
      if Chosen(fields, m, slots[m].tag, n) then
        cur[m].Which? && cur[m].tag == slots[m].tag &&
        (f.tag == slots[m].tag ==> ReadsBack(f.kind, slots[m].v, cur[m].v))
      else cur[m] == Which(0, Num(0))
    else if i < n then SlotBack(f, slots[m], cur[m])
    else cur[m] == DefaultSlot(f)
  }

  ghost predicate Progressed(fields: seq<Field>, slots: seq<Slot>, n: nat, s: State)
    requires n <= |fields|
  {
    |s.slots| == |slots| == Members(fields, |fields|) &&
    (forall i :: 0 <= i < |fields| ==> Member(fields, i) < |slots| && FieldAt(fields, slots, n, s.slots, i)) &&
    (forall k :: 0 <= k < RequiredBefore(fields, n) && k < MAX_REQUIRED ==> k in s.seen) &&
    FixedDone(fields, s) && (s.fixed.Some? ==> s.fixed.value < n)
  }

  /** What receiving field n does: it settles the member of that field, and nothing else. */
  ghost predicate Landed(fields: seq<Field>, slots: seq<Slot>, n: nat, s: State, s': State)
    requires n < |fields| && Member(fields, n) < |slots|
  {
    var f, m := fields[n], Member(fields, n);
    m < |s.slots| == |s'.slots| && s'.slots == s.slots[m := s'.slots[m]] && s.seen <= s'.seen &&
    (if slots[m].Which? &&
     slots[m].tag != f.tag then s'.slots[m] == s.slots[m] else SlotBack(f, slots[m], s'.slots[m])) &&
    (f.rule.Required? && RequiredBefore(fields, n) < MAX_REQUIRED ==> RequiredBefore(fields, n) in s'.seen) &&
    FixedDone(fields, s') && (s'.fixed.Some? ==> s'.fixed.value <= n)
  }

  lemma ChosenMore(fields: seq<Field>, m: nat, tag: nat, n: nat)
    requires n < |fields|
    ensures Chosen(fields, m, tag, n + 1) <==>
      Chosen(fields, m, tag, n) || (Member(fields, n) == m && fields[n].tag == tag)
  {
    if Member(fields, n) == m && fields[n].tag == tag {
      assert Chosen(fields, m, tag, n + 1);
    }
  }

  lemma AdvanceField(fields: seq<Field>, slots: seq<Slot>, n: nat, s: State, s': State, i: nat)
    requires n < |fields| && i < |fields| && WellFields(fields) && HoldsAll(fields, slots)
    requires Progressed(fields, slots, n, s) && Landed(fields, slots, n, s, s')
    ensures Member(fields, i) < |slots| && FieldAt(fields, slots, n + 1, s'.slots, i)
  {
    hide ReadsBack, WellField, Holds, DefaultSlot, FixedDone, RequiredBefore, Chosen, HoldsAll, Initial, IsZero;
    SlotIsHeld(fields, slots, n);
    SlotIsHeld(fields, slots, i);
    UnionIsWhich(fields[n], slots[Member(fields, n)]);
    UnionIsWhich(fields[i], slots[Member(fields, i)]);
    var m := Member(fields, i);
    if i != n && m == Member(fields, n) {
      SharedIsUnion(fields, if i < n then i else n, if i < n then n else i);
      assert fields[i].tag != fields[n].tag;
    }
    if slots[m].Which? {
      ChosenMore(fields, m, slots[m].tag, n);
    }
  }

  lemma Advance(fields: seq<Field>, slots: seq<Slot>, n: nat, s: State, s': State)
    requires n < |fields| && WellFields(fields) && HoldsAll(fields, slots)
    requires Progressed(fields, slots, n, s) && Landed(fields, slots, n, s, s')
    ensures Progressed(fields, slots, n + 1, s')
  {
    hide FieldAt, SlotBack, FixedDone, WellFields, HoldsAll;
    forall i | 0 <= i < |fields| ensures Member(fields, i) < |slots| && FieldAt(fields, slots, n + 1, s'.slots, i) {
      AdvanceField(fields, slots, n, s, s', i);
    }
  }

  lemma RunOne(fields: seq<Field>, s: State, item: Item)
    ensures Run(fields, s, [item]) == Step(fields, s, item)
  {
    hide Step;
    assert [item][..0] == [];
  }

  /** Storing outside the fixed-count array that was filled last leaves it full. */
  lemma FixedStays(fields: seq<Field>, s: State, n: nat, slot: Slot, seen: set<nat>)
    requires n < |fields| && FixedDone(fields, s) && Member(fields, n) < |s.slots| &&
      (s.fixed.Some? ==> s.fixed.value != n)
    ensures FixedDone(fields, s.(slots := s.slots[Member(fields, n) := slot], seen := seen))
  {
    if s.fixed.Some? && Member(fields, s.fixed.value) == Member(fields, n) {
      FixedIsAlone(fields, s.fixed.value, n);
    }
  }

  /** One value for a member that is at its default. */
  lemma {:induction false} StoreBack(f: Field, slot: Slot, v: Value, cur: Slot)
    requires WellField(f) && Sendable(f.kind, v) && !slot.Many?
    requires cur == DefaultSlot(f) && (cur.One? ==> slot.One?) && (cur.Maybe? ==> slot.Maybe? && slot.has) &&
      (cur.Which? ==> slot.Which? && slot.tag == f.tag)
    requires slot.v == v && (slot.One? ==> f.rule.Required? || !IsZero(f.kind, v)) && !cur.Many?
    ensures var r := Store(f, cur, PayloadOf(f.kind, v)); r.Some? && SlotBack(f, slot, r.value)
    decreases v, 1
  {
    hide Take, Holds, ValueEncodable, ValueReadable, ReadsBack, IsZero, PayloadOf;
    TakeBack(f.kind, v);
    if !f.kind.Message? {
      PayloadIsNoGroup(f.kind, v);
      TakeIgnores(f.kind, PayloadOf(f.kind, v), cur.v, Zero(f.kind));
    }
  }

  lemma PayloadIsNoGroup(kind: Kind, v: Value)
    requires Holds(kind, v) && !kind.Message?
    ensures !PayloadOf(kind, v).Group?
  {
  }
  /** What is known in front of field n. */
  ghost predicate Before(fields: seq<Field>, slots: seq<Slot>, n: nat, s: State) {
    n < |fields| && Member(fields, n) < |slots| == |s.slots| && SendableSlot(fields[n], slots[Member(fields, n)]) &&
    FixedDone(fields, s) && (s.fixed.Some? ==> s.fixed.value < n) &&
    ((slots[Member(fields, n)].Which? && slots[Member(fields, n)].tag != fields[n].tag) ||
     s.slots[Member(fields, n)] == DefaultSlot(fields[n]))
  }

  lemma {:induction false} SingleLands(fields: seq<Field>, slots: seq<Slot>, n: nat, s: State, v: Value)
      returns (s': State)
    requires Before(fields, slots, n, s) && !slots[Member(fields, n)].Many? && slots[Member(fields, n)].v == v
    requires FieldItems(fields[n], n, slots[Member(fields, n)]) == [Single(n, PayloadOf(fields[n].kind, v))]
    ensures Run(fields, s, FieldItems(fields[n], n, slots[Member(fields, n)])) == Some(s') &&
      Landed(fields, slots, n, s, s')
    decreases v, 2
  {
    hide FixedDone, Holds, WellKind, Take, PayloadOf, ValueEncodable, ValueReadable, IsZero, Initial;
    hide ReadsBack, Store, SlotBack;
    var f, m := fields[n], Member(fields, n);
    RunOne(fields, s, Single(n, PayloadOf(f.kind, v)));
    SentIsSendable(f, slots[m], n);
    StoreBack(f, slots[m], v, s.slots[m]);
    var e := Enter(fields, s, n).value;
    var slot' := Store(f, s.slots[m], PayloadOf(f.kind, v)).value;
    s' := e.(slots := e.slots[m := slot']);
    FixedStays(fields, s, n, slot', e.seen);
  }

  /** A field of which a single value is sent. */
  lemma SentIsSendable(f: Field, slot: Slot, n: nat)
    requires SendableSlot(f, slot) && !slot.Many? && |FieldItems(f, n, slot)| > 0
    ensures Sendable(f.kind, slot.v) && !f.rule.FixedCount? && !f.rule.Repeated?
    ensures (slot.One? ==> f.rule.Required? || !IsZero(f.kind, slot.v)) && (slot.Maybe? ==> slot.has) &&
      (slot.Which? ==> slot.tag == f.tag)
    ensures var d := DefaultSlot(f);
      (d.One? <==> slot.One?) && (d.Maybe? <==> slot.Maybe?) && (d.Which? <==> slot.Which?) && !d.Many?
  {
    hide Holds, WellKind, PayloadOf, IsZero, Initial, ValueEncodable, ValueReadable;
  }

  /** A field of which nothing is sent. */
  lemma NothingLands(fields: seq<Field>, slots: seq<Slot>, n: nat, s: State)
    requires Before(fields, slots, n, s) && FieldItems(fields[n], n, slots[Member(fields, n)]) == []
    ensures Landed(fields, slots, n, s, s)
  {
    hide FixedDone, Holds, WellKind, PayloadOf, ValueEncodable, ValueReadable, IsZero, Initial, ReadsBack, Singles;
    SinglesSize(fields[n].kind, n, slots[Member(fields, n)]);
    assert s.slots == s.slots[Member(fields, n) := s.slots[Member(fields, n)]];
  }

  lemma SinglesSize(kind: Kind, n: nat, slot: Slot)
    ensures slot.Many? ==> |Singles(kind, n, slot.vs)| == |slot.vs|
  {
    if slot.Many? {
      SinglesLength(kind, n, slot.vs);
    }
  }

  // ---- arrays ------------------------------------------------------------------------------------------

  lemma {:induction false} NumsBack(f: Field, vs: seq<Value>)
    requires WellKind(f.kind) && f.kind.Packable() && |vs| <= Room(f) && forall v :: v in vs ==> Holds(f.kind, v)
    ensures StoreNums(f, Many([]), WireNums(f.kind, vs)) == Some(Many(vs))
  {
    hide ToWire, FromWire;
    if |vs| > 0 {
      var n := |vs| - 1;
      NumsBack(f, vs[..n]);
      assert WireNums(f.kind, vs)[..n] == WireNums(f.kind, vs[..n]);
      assert vs[n] in vs && Holds(f.kind, vs[n]);
      NumIsNum(f.kind, vs[n]);
      NumberRoundTrip(f.kind, vs[n].n);
      assert vs == vs[..n] + [Num(vs[n].n)];
    }
  }

  lemma NumIsNum(kind: Kind, v: Value)
    requires kind.Packable() && Holds(kind, v)
    ensures v == Num(v.n)
  {
  }

  /** The state when an array of field n holds these values. */
  ghost function ArrayState(fields: seq<Field>, n: nat, s: State, vs: seq<Value>): State
    requires n < |fields| && Member(fields, n) < |s.slots|
  {
    State(s.slots[Member(fields, n) := Many(vs)], s.seen, if fields[n].rule.FixedCount? then Some(n) else s.fixed)
  }

  ghost predicate IsArray(f: Field) {
    f.rule.Repeated? || f.rule.FixedCount?
  }

  /** The first value for the array, and one more. */
  lemma FirstLands(fields: seq<Field>, n: nat, s: State, p: Payload, b: Value)
    requires n < |fields| && IsArray(fields[n]) && Member(fields, n) < |s.slots| && 0 < Room(fields[n])
    requires Take(fields[n].kind, p, Zero(fields[n].kind)) == Some(b)
    requires s.slots[Member(fields, n)] == Many([]) && FixedDone(fields, s) && (s.fixed.Some? ==> s.fixed.value < n)
    ensures Step(fields, s, Single(n, p)) == Some(ArrayState(fields, n, s, [b]))
  {
    hide Take, FixedDone, Zero;
    var m := Member(fields, n);
    assert [] + [b] == [b] && s.slots[m := Many([])] == s.slots;
  }

  lemma PackedLands(fields: seq<Field>, n: nat, s: State, ns: seq<nat>, vs: seq<Value>)
    requires n < |fields| && IsArray(fields[n]) && Member(fields, n) < |s.slots|
    requires StoreNums(fields[n], Many([]), ns) == Some(Many(vs))
    requires s.slots[Member(fields, n)] == Many([]) && FixedDone(fields, s) && (s.fixed.Some? ==> s.fixed.value < n)
    ensures Step(fields, s, Packed(n, ns)) == Some(ArrayState(fields, n, s, vs))
  {
    hide StoreNums, FixedDone;
    var m := Member(fields, n);
    assert s.slots[m := Many([])] == s.slots;
  }

  lemma NextLands(fields: seq<Field>, n: nat, s: State, bs: seq<Value>, p: Payload, b: Value)
    requires n < |fields| && IsArray(fields[n]) && Member(fields, n) < |s.slots| && |bs| < Room(fields[n])
    requires Take(fields[n].kind, p, Zero(fields[n].kind)) == Some(b)
    ensures Step(fields, ArrayState(fields, n, s, bs), Single(n, p)) == Some(ArrayState(fields, n, s, bs + [b]))
  {
    hide Take, FixedDone, Zero;
    var m := Member(fields, n);
    assert s.slots[m := Many(bs)][m := Many(bs + [b])] == s.slots[m := Many(bs + [b])];
  }

  lemma {:induction false} SinglesLand(fields: seq<Field>, n: nat, s: State, vs: seq<Value>) returns (bs: seq<Value>)
    requires n < |fields| && IsArray(fields[n]) && Member(fields, n) < |s.slots| && |vs| <= Room(fields[n]) && |vs| > 0
    requires s.slots[Member(fields, n)] == Many([]) && FixedDone(fields, s) && (s.fixed.Some? ==> s.fixed.value < n)
    requires forall v :: v in vs ==> Sendable(fields[n].kind, v)
    ensures |bs| == |vs| && forall k :: 0 <= k < |vs| ==> ReadsBack(fields[n].kind, vs[k], bs[k])
    ensures Run(fields, s, Singles(fields[n].kind, n, vs)) == Some(ArrayState(fields, n, s, bs))
    decreases vs, 0
  {
    hide Take, FixedDone, Step, Sendable, ReadsBack, PayloadOf, Zero;
    var f, last := fields[n], |vs| - 1;
    assert vs[last] in vs;
    TakeBack(f.kind, vs[last]);
    var p := PayloadOf(f.kind, vs[last]);
    var b := Take(f.kind, p, Zero(f.kind)).value;
    if last == 0 {
      bs := [b];
      FirstLands(fields, n, s, p, b);
      assert Singles(f.kind, n, vs[..0]) == [];
      RunOne(fields, s, Single(n, p));
      assert Singles(f.kind, n, vs) == [Single(n, p)];
    } else {
      var before := SinglesLand(fields, n, s, vs[..last]);
      bs := before + [b];
      NextLands(fields, n, s, before, p, b);
      var all := Singles(f.kind, n, vs);
      assert all[..|all| - 1] == Singles(f.kind, n, vs[..last]) && all[|all| - 1] == Single(n, p);
    }
  }

  lemma ArrayIsLanded(fields: seq<Field>, slots: seq<Slot>, n: nat, s: State, bs: seq<Value>)
    requires Before(fields, slots, n, s) && IsArray(fields[n]) && slots[Member(fields, n)].Many?
    requires |bs| == |slots[Member(fields, n)].vs| &&
      forall k :: 0 <= k < |bs| ==> ReadsBack(fields[n].kind, slots[Member(fields, n)].vs[k], bs[k])
    ensures Landed(fields, slots, n, s, ArrayState(fields, n, s, bs))
  {
    hide Holds, WellKind, ValueEncodable, ValueReadable, ReadsBack;
    if fields[n].rule.Repeated? {
      FixedStays(fields, s, n, Many(bs), s.seen);
    }
  }

  lemma {:induction false} ArrayLands(fields: seq<Field>, slots: seq<Slot>, n: nat, s: State, vs: seq<Value>)
      returns (s': State)
    requires Before(fields, slots, n, s) && slots[Member(fields, n)] == Many(vs) && |vs| > 0
    ensures Run(fields, s, FieldItems(fields[n], n, slots[Member(fields, n)])) == Some(s') &&
      Landed(fields, slots, n, s, s')
    decreases vs, 1
  {
    hide FixedDone, Holds, WellKind, Take, PayloadOf, ValueEncodable, ValueReadable, ReadsBack, Landed;
    hide StoreNums, WireNums, NumsBytes, Singles;
    var f, m := fields[n], Member(fields, n);
    ArrayIsSendable(f, vs);
    var bs := vs;
    if f.kind.Packable() {
      NumsBack(f, vs);
      NumsReadBack(f.kind, vs);
      RunOne(fields, s, Packed(n, WireNums(f.kind, vs)));
      PackedLands(fields, n, s, WireNums(f.kind, vs), vs);
    } else {
      bs := SinglesLand(fields, n, s, vs);
    }
    s' := ArrayState(fields, n, s, bs);
    ArrayIsLanded(fields, slots, n, s, bs);
  }

  lemma ArrayIsSendable(f: Field, vs: seq<Value>)
    requires SendableSlot(f, Many(vs))
    ensures IsArray(f) && WellKind(f.kind) && |vs| <= Room(f) && DefaultSlot(f) == Many([])
    ensures forall v :: v in vs ==> Sendable(f.kind, v) && Holds(f.kind, v)
  {
    hide Holds, WellKind, ValueEncodable, ValueReadable;
  }

  lemma NumsReadBack(kind: Kind, vs: seq<Value>)
    requires kind.Packable() && forall v :: v in vs ==> Holds(kind, v)
    ensures forall k :: 0 <= k < |vs| ==> ReadsBack(kind, vs[k], vs[k])
  {
    forall k | 0 <= k < |vs| ensures ReadsBack(kind, vs[k], vs[k]) {
      assert vs[k] in vs;
    }
  }

  // ---- messages ------------------------------------------------------------------------------------------

  lemma {:induction false} FieldLands(fields: seq<Field>, slots: seq<Slot>, n: nat, s: State) returns (s': State)
    requires Before(fields, slots, n, s)
    ensures Run(fields, s, FieldItems(fields[n], n, slots[Member(fields, n)])) == Some(s') &&
      Landed(fields, slots, n, s, s')
    decreases slots[Member(fields, n)]
  {
    hide SendableSlot, FixedDone, Run, Landed, IsZero, PayloadOf, Singles, WireNums;
    var slot := slots[Member(fields, n)];
    if |FieldItems(fields[n], n, slot)| == 0 {
      NothingLands(fields, slots, n, s);
      RunNothing(fields, s);
      s' := s;
    } else if slot.Many? {
      s' := ArrayLands(fields, slots, n, s, slot.vs);
    } else {
      s' := SingleLands(fields, slots, n, s, slot.v);
    }
  }

  lemma RunNothing(fields: seq<Field>, s: State)
    ensures Run(fields, s, []) == Some(s)
  {
  }

  lemma ProgressedStarts(fields: seq<Field>, slots: seq<Slot>)
    requires SendableSlots(fields, slots)
    ensures Progressed(fields, slots, 0, Start(Defaults(fields, |fields|)))
  {
    hide Holds, WellField, Encodable, AllReadable, HoldsSlot;
    forall i | 0 <= i < |fields|
      ensures Member(fields, i) < |slots| && FieldAt(fields, slots, 0, Defaults(fields, |fields|), i)
    {
      DefaultsAre(fields, |fields|, i);
      SlotIsHeld(fields, slots, i);
      UnionIsWhich(fields[i], slots[Member(fields, i)]);
    }
  }

  lemma UnionIsWhich(f: Field, slot: Slot)
    requires HoldsSlot(f, slot)
    ensures f.rule.OneOf? <==> slot.Which?
  {
  }

  lemma ProgressedIsBefore(fields: seq<Field>, slots: seq<Slot>, n: nat, s: State)
    requires SendableSlots(fields, slots) && n < |fields| && Progressed(fields, slots, n, s)
    ensures Before(fields, slots, n, s)
  {
    hide Holds, WellField, HoldsSlot, FieldEncodable, FieldReadable, FixedDone, ReadsBack, SlotBack;
    hide RequiredBefore, Chosen;
    SlotIsHeld(fields, slots, n);
    UnionIsWhich(fields[n], slots[Member(fields, n)]);
    var m := Member(fields, n);
    if fields[n].rule.OneOf? && slots[m].tag == fields[n].tag {
      NotChosenYet(fields, n);
    }
  }

  lemma NotChosenYet(fields: seq<Field>, n: nat)
    requires n < |fields| && WellFields(fields)
    ensures !Chosen(fields, Member(fields, n), fields[n].tag, n)
  {
  }

  lemma {:induction false} MessageBackTo(fields: seq<Field>, slots: seq<Slot>, n: nat) returns (s: State)
    requires SendableSlots(fields, slots) && n <= |fields|
    ensures Run(fields, Start(Defaults(fields, |fields|)), ItemsOf(fields, slots, n)) == Some(s) &&
      Progressed(fields, slots, n, s)
    decreases slots, n
  {
    hide SendableSlots, Progressed, Landed, Before, Run, FieldItems, Member, RequiredBefore, WellFields;
    hide HoldsAll, Defaults;
    var start := Start(Defaults(fields, |fields|));
    if n == 0 {
      ProgressedStarts(fields, slots);
      RunNothing(fields, start);
      s := start;
    } else {
      var before := MessageBackTo(fields, slots, n - 1);
      ProgressedIsBefore(fields, slots, n - 1, before);
      MemberIsThere(fields, slots, n - 1);
      s := FieldLands(fields, slots, n - 1, before);
      RunBoth(fields, start, ItemsOf(fields, slots, n - 1),
              FieldItems(fields[n - 1], n - 1, slots[Member(fields, n - 1)]));
      Advance(fields, slots, n - 1, before, s);
    }
  }

  lemma MemberIsThere(fields: seq<Field>, slots: seq<Slot>, n: nat)
    requires SendableSlots(fields, slots) && n < |fields|
    ensures Member(fields, n) < |slots| && WellFields(fields) && HoldsAll(fields, slots)
  {
    SlotIsHeld(fields, slots, n);
  }

  /** The round trip: every message that can be sent is received, with what was not sent at its default. */
  lemma {:induction false} MessageBack(fields: seq<Field>, slots: seq<Slot>)
    requires SendableSlots(fields, slots)
    ensures var r := Run(fields, Start(Defaults(fields, |fields|)), ItemsOf(fields, slots, |fields|));
      r.Some? && Complete(fields, r.value) && AllBack(fields, slots, r.value.slots)
    decreases slots, |fields| + 1
  {
    hide Run, ItemsOf, FixedDone;
    var s := MessageBackTo(fields, slots, |fields|);
    forall i | 0 <= i < |fields|
      ensures Member(fields, i) < |slots| && SlotBack(fields[i], slots[Member(fields, i)], s.slots[Member(fields, i)])
      ensures var m := Member(fields, i);
        (slots[m].Which? && !Chosen(fields, m, slots[m].tag, |fields|) ==> s.slots[m] == Which(0, Num(0)))
    {
      SettledIsBack(fields, slots, s.slots, i);
    }
  }

  lemma SettledIsBack(fields: seq<Field>, slots: seq<Slot>, cur: seq<Slot>, i: nat)
    requires SendableSlots(fields, slots) && i < |fields| && Member(fields, i) < |slots| == |cur| &&
      FieldAt(fields, slots, |fields|, cur, i)
    ensures SlotBack(fields[i], slots[Member(fields, i)], cur[Member(fields, i)])
    ensures var m := Member(fields, i);
      (slots[m].Which? && !Chosen(fields, m, slots[m].tag, |fields|) ==> cur[m] == Which(0, Num(0)))
  {
    hide Holds, WellField, HoldsSlot, Encodable, AllReadable, ReadsBack;
    SlotIsHeld(fields, slots, i);
    UnionIsWhich(fields[i], slots[Member(fields, i)]);
    if slots[Member(fields, i)].Which? && slots[Member(fields, i)].tag == fields[i].tag {
      assert Chosen(fields, Member(fields, i), fields[i].tag, |fields|);
    }
  }

  // ---- what the encoder sends is well-formed -----------------------------------------------------------

  lemma {:induction false} PayloadIsWell(kind: Kind, v: Value)
    requires Sendable(kind, v)
    ensures WellPayload(kind, PayloadOf(kind, v))
    decreases v, 0
  {
    hide ToWire, FromWire, ItemsOf, HoldsAll, Encodable, AllReadable, WellFields, WellItems, ItemsBytes;
    if kind.Packable() {
      NumIsNum(kind, v);
      NumberRoundTrip(kind, v.n);
    } else if kind.Message? {
      ItemsAreWell(kind.fields, v.slots, |kind.fields|);
    } else {
      CStringIsShort(v.bytes);
    }
  }

  lemma {:induction false} SinglesAreWell(fields: seq<Field>, n: nat, vs: seq<Value>)
    requires n < |fields| && forall v :: v in vs ==> Sendable(fields[n].kind, v)
    ensures forall x :: x in Singles(fields[n].kind, n, vs) ==> WellItem(fields, x)
    decreases vs, 0
  {
    hide Sendable, WellPayload, PayloadOf;
    if |vs| > 0 {
      var last := |vs| - 1;
      assert vs[last] in vs;
      SinglesAreWell(fields, n, vs[..last]);
      PayloadIsWell(fields[n].kind, vs[last]);
    }
  }

  lemma {:induction false} NumsAreWell(kind: Kind, vs: seq<Value>)
    requires WellKind(kind) && kind.Packable() && forall v :: v in vs ==> Holds(kind, v)
    ensures forall n :: n in WireNums(kind, vs) ==> n < Limit(kind)
  {
    hide ToWire, FromWire;
    if |vs| > 0 {
      var last := vs[|vs| - 1];
      NumsAreWell(kind, vs[..|vs| - 1]);
      assert last in vs;
      NumIsNum(kind, last);
      NumberRoundTrip(kind, last.n);
    }
  }

  lemma {:induction false} FieldItemsAreWell(fields: seq<Field>, n: nat, slot: Slot)
    requires n < |fields| && SendableSlot(fields[n], slot)
    ensures forall x :: x in FieldItems(fields[n], n, slot) ==> WellItem(fields, x)
    decreases slot
  {
    hide Holds, WellKind, ValueEncodable, ValueReadable, WellPayload, PayloadOf, IsZero, Singles, WireNums, NumsBytes;
    var f := fields[n];
    if slot.Many? {
      ArrayIsSendable(f, slot.vs);
      if f.kind.Packable() {
        NumsAreWell(f.kind, slot.vs);
      } else {
        SinglesAreWell(fields, n, slot.vs);
      }
    } else if |FieldItems(f, n, slot)| > 0 {
      SentIsSendable(f, slot, n);
      PayloadIsWell(f.kind, slot.v);
    }
  }

  lemma {:induction false} ItemsAreWell(fields: seq<Field>, slots: seq<Slot>, n: nat)
    requires SendableSlots(fields, slots) && n <= |fields|
    ensures WellItems(fields, ItemsOf(fields, slots, n))
    decreases slots, n
  {
    hide WellItem, FieldItems, SendableSlots, SendableSlot, Member;
    if n > 0 {
      ItemsAreWell(fields, slots, n - 1);
      SlotIsSendable(fields, slots, n - 1);
      FieldItemsAreWell(fields, n - 1, slots[Member(fields, n - 1)]);
    }
  }

  lemma SlotIsSendable(fields: seq<Field>, slots: seq<Slot>, i: nat)
    requires SendableSlots(fields, slots) && i < |fields|
    ensures Member(fields, i) < |slots| && SendableSlot(fields[i], slots[Member(fields, i)])
  {
    hide Holds, WellField, HoldsSlot, FieldEncodable, FieldReadable;
    SlotIsHeld(fields, slots, i);
  }

  // ---- the whole way -----------------------------------------------------------------------------------

  /** A message that was sent, with unknown fields added by others: it is accepted and comes back. */
  lemma PaddedMessageBack(fields: seq<Field>, slots: seq<Slot>, padded: seq<Item>)
    requires SendableSlots(fields, slots) && Padded(ItemsOf(fields, slots, |fields|), padded)
    ensures var r := Outcome(fields, Defaults(fields, |fields|), padded); r.Some? && AllBack(fields, slots, r.value)
  {
    hide SendableSlots, Padded, AllBack, Complete, Run, ItemsOf;
    MessageBack(fields, slots);
    UnknownsChangeNothing(fields, Start(Defaults(fields, |fields|)), ItemsOf(fields, slots, |fields|), padded);
  }

  lemma {:induction false} PaddedBySelf(items: seq<Item>)
    ensures Padded(items, items)
  {
    if |items| > 0 {
      PaddedBySelf(items[..|items| - 1]);
    }
  }

  /** pb_get_encoded_size. */
  method GetEncodedSize(fields: seq<Field>, slots: seq<Slot>) returns (size: Option<nat>)
    requires WellFields(fields) && HoldsAll(fields, slots) && |Encoding(fields, slots)| < WORD64
    ensures size == if Encodable(fields, slots) then Some(|Encoding(fields, slots)|) else None
  {
    var stream := new OStream.Sizing();
    var ok := stream.Encode(fields, slots);
    size := if ok then Some(stream.bytesWritten) else None;
  }

  /** pb_encode into a buffer of that size, and pb_decode of what was written. */
  method SendAndReceive(fields: seq<Field>, slots: seq<Slot>, bufferSize: nat)
      returns (sent: bool, back: Option<seq<Slot>>)
    requires WellFields(fields) && HoldsAll(fields, slots) && |Encoding(fields, slots)| < WORD64
    ensures sent <==> Encodable(fields, slots) && |Encoding(fields, slots)| <= bufferSize
    ensures sent && AllReadable(fields, slots) ==> back.Some? && AllBack(fields, slots, back.value)
  {
    hide WellFields, HoldsAll, Encodable, AllReadable, AllBack, ItemsOf, Outcome;
    var ostream := new OStream.Writing([], bufferSize);
    sent := ostream.Encode(fields, slots);
    if !sent {
      return false, None;
    }
    ghost var items := ItemsOf(fields, slots, |fields|);
    if AllReadable(fields, slots) {
      ItemsAreWell(fields, slots, |fields|);
      PaddedBySelf(items);
      PaddedMessageBack(fields, slots, items);
    }
    var istream := new IStream(ostream.out, 0, |ostream.out|);
    assert istream.Rest() == ostream.out == ItemsBytes(fields, items);
    back := Decode(istream, fields, items);
  }

  /** pb_decode of such a message with unknown fields added. */
  method ReceivePadded(fields: seq<Field>, data: Bytes, ghost slots: seq<Slot>, ghost padded: seq<Item>)
      returns (back: Option<seq<Slot>>)
    requires WellFields(fields)
    ensures SendableSlots(fields, slots) && Padded(ItemsOf(fields, slots, |fields|), padded) ==>
      WellItems(fields, padded) && data == ItemsBytes(fields, padded) ==>
      back.Some? && AllBack(fields, slots, back.value)
  {
    hide WellFields, SendableSlots, Padded, WellItems, ItemsBytes, AllBack, ItemsOf, Outcome;
    if SendableSlots(fields, slots) && Padded(ItemsOf(fields, slots, |fields|), padded) {
      PaddedMessageBack(fields, slots, padded);
    }
    var istream := new IStream(data, 0, |data|);
    assert istream.Rest() == data;
    back := Decode(istream, fields, padded);
  }

  // ---- required fields -----------------------------------------------------------------------------------

  ghost predicate Came(items: seq<Item>, i: nat) {
    exists x :: x in items && !x.Unknown? && x.index == i
  }

  lemma {:induction false} CameBefore(items: seq<Item>, i: nat)
    requires |items| > 0
    ensures var last := items[|items| - 1];
      Came(items, i) <==> Came(items[..|items| - 1], i) || (!last.Unknown? && last.index == i)
  {
    var n := |items| - 1;
    assert items == items[..n] + [items[n]];
    if Came(items[..n], i) {
      var x :| x in items[..n] && !x.Unknown? && x.index == i;
      assert x in items;
    }
    if !items[n].Unknown? && items[n].index == i {
      assert items[n] in items;
    }
  }

  lemma OneRequired(fields: seq<Field>, i: nat, j: nat)
    requires i < |fields| && j < |fields| && fields[i].rule.Required? && fields[j].rule.Required?
    ensures RequiredBefore(fields, i) == RequiredBefore(fields, j) <==> i == j
  {
    if i < j {
      RequiredGrows(fields, i, j);
    } else if j < i {
      RequiredGrows(fields, j, i);
    }
  }

  /** The bit of one of the first 64 required fields is set if and only if a record for the field came. */
  lemma {:induction false} SeenIffCame(fields: seq<Field>, slots: seq<Slot>, items: seq<Item>, i: nat)
    requires i < |fields| && fields[i].rule.Required? && RequiredBefore(fields, i) < 64 &&
      Run(fields, Start(slots), items).Some?
    ensures RequiredBefore(fields, i) in Run(fields, Start(slots), items).value.seen <==> Came(items, i)
    decreases |items|
  {
    hide Came, RequiredBefore, Store, StoreNums, FixedDone;
    if |items| > 0 {
      var n := |items| - 1;
      SeenIffCame(fields, slots, items[..n], i);
      CameBefore(items, i);
      var last := items[n];
      if !last.Unknown? && last.index < |fields| && fields[last.index].rule.Required? {
        OneRequired(fields, i, last.index);
      }
    } else {
      NoneCame(i);
    }
  }

  lemma NoneCame(i: nat)
    ensures !Came([], i)
  {
  }

  /** A message that lacks one of the first 64 required fields is refused. */
  lemma MissingRequiredIsRefused(fields: seq<Field>, slots: seq<Slot>, items: seq<Item>, i: nat)
    requires i < |fields| && fields[i].rule.Required? && RequiredBefore(fields, i) < 64 && !Came(items, i)
    ensures Outcome(fields, slots, items).None?
  {
    hide Came, Run;
    RequiredGrows(fields, i, |fields|);
    if Run(fields, Start(slots), items).Some? {
      SeenIffCame(fields, slots, items, i);
    }
  }
}
