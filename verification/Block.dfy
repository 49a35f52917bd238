/** Prefix-compressed blocks with restart points: table/block_builder.cc and table/block.cc. */
module Block {
  import opened Options
  import opened Coding

  datatype Pair = Pair(key: Bytes, value: Bytes)

  // ---- one entry ---------------------------------------------------------------------------

  /** The encoding of a pair whose key shares its first bytes with the key before it. */
  function Encoded(shared: nat, pair: Pair): (r: Bytes)
    requires shared <= |pair.key|
    ensures |r| >= 3
  {
    Varint(shared) + Varint(|pair.key| - shared) + Varint(|pair.value|) + pair.key[shared..] + pair.value
  }

  datatype Header = Header(shared: nat, nonShared: nat, valueLength: nat, keyAt: nat)

  /** Three varints, and room for what they announce. */
  function EntryHeader(data: Bytes, p: nat, limit: nat): (r: Option<Header>)
    requires p <= limit <= |data|
    ensures r.Some? ==> p < r.value.keyAt && r.value.keyAt + r.value.nonShared + r.value.valueLength <= limit
  {
    if limit - p < 3 then None else
    match GetVarint(data, p, limit, false)
    case None => None
    case Some(Read(shared, q)) =>
      match GetVarint(data, q, limit, false)
      case None => None
      case Some(Read(nonShared, r)) =>
        match GetVarint(data, r, limit, false)
        case None => None
        case Some(Read(valueLength, keyAt)) =>
          if keyAt + nonShared + valueLength <= limit then Some(Header(shared, nonShared, valueLength, keyAt)) else None
  }

  /** DecodeEntry, with its fast path for three small numbers. */
  method DecodeEntry(data: Bytes, p: nat, limit: nat) returns (r: Option<Header>)
    requires p <= limit <= |data|
    ensures r == EntryHeader(data, p, limit)
  {
    if limit - p < 3 {
      return None;
    }
    var shared, nonShared, valueLength, q := data[p] as nat, data[p + 1] as nat, data[p + 2] as nat, p + 3;
    if shared < 128 && nonShared < 128 && valueLength < 128 {
      SmallVarint(data, p, limit);
      SmallVarint(data, p + 1, limit);
      SmallVarint(data, p + 2, limit);
    } else {
      var a := GetVarintPtr(data, p, limit, false);
      if a.None? {
        return None;
      }
      var b := GetVarintPtr(data, a.value.next, limit, false);
      if b.None? {
        return None;
      }
      var c := GetVarintPtr(data, b.value.next, limit, false);
      if c.None? {
        return None;
      }
      shared, nonShared, valueLength, q := a.value.value, b.value.value, c.value.value, c.value.next;
    }
    if limit - q < nonShared + valueLength {
      return None;
    }
    r := Some(Header(shared, nonShared, valueLength, q));
  }

  lemma SmallVarint(data: Bytes, p: nat, limit: nat)
    requires p < limit <= |data| && data[p] < 128
    ensures GetVarint(data, p, limit, false) == Some(Read(data[p], p + 1))
  {
    OneByte(data, p, limit, 5);
  }

  /** An entry that was written is read back. */
  lemma EntryDecodes(data: Bytes, p: nat, limit: nat, shared: nat, pair: Pair)
    requires shared <= |pair.key| < WORD32 && |pair.value| < WORD32
    requires At(data, p, Encoded(shared, pair)) && p + |Encoded(shared, pair)| <= limit <= |data|
    ensures var r := EntryHeader(data, p, limit);
      r.Some? && r.value.shared == shared && r.value.nonShared == |pair.key| - shared &&
      r.value.valueLength == |pair.value| &&
      r.value.keyAt + |pair.key| - shared + |pair.value| == p + |Encoded(shared, pair)| &&
      At(data, r.value.keyAt, pair.key[shared..]) && At(data, r.value.keyAt + |pair.key| - shared, pair.value)
  {
    hide GetVarint, Varint, At;
    var a, b, c, d := Varint(shared), Varint(|pair.key| - shared), Varint(|pair.value|), pair.key[shared..];
    assert Encoded(shared, pair) == a + b + c + d + pair.value;
    AtParts(data, p, a + b + c + d, pair.value);
    AtParts(data, p, a + b + c, d);
    AtParts(data, p, a + b, c);
    AtParts(data, p, a, b);
    VarintRoundTrip(data, p, limit, shared, false);
    VarintRoundTrip(data, p + |a|, limit, |pair.key| - shared, false);
    VarintRoundTrip(data, p + |a + b|, limit, |pair.value|, false);
  }

  // ---- a block -------------------------------------------------------------------------------

  /** How a block is laid out: what each pair shares, where it starts, and which pairs are restart points. */
  datatype Plan = Plan(pairs: seq<Pair>, shared: seq<nat>, at: seq<nat>, firsts: seq<nat>)

  ghost predicate SharesPrefix(plan: Plan, i: nat)
    requires i < |plan.pairs| == |plan.shared|
  {
    plan.shared[i] <= |plan.pairs[i].key| < WORD32 && |plan.pairs[i].value| < WORD32 &&
    if i == 0 then plan.shared[i] == 0
    else
      plan.shared[i] <= |plan.pairs[i - 1].key| &&
      plan.pairs[i].key[..plan.shared[i]] == plan.pairs[i - 1].key[..plan.shared[i]]
  }

  ghost predicate Sound(plan: Plan) {
    |plan.shared| == |plan.pairs| && |plan.at| == |plan.pairs| + 1 && plan.at[0] == 0 &&
    (forall i :: 0 <= i < |plan.pairs| ==>
     SharesPrefix(plan, i) && plan.at[i + 1] == plan.at[i] + |Encoded(plan.shared[i], plan.pairs[i])|) &&
    |plan.firsts| > 0 && plan.firsts[0] == 0 &&
    (forall j :: 0 < j < |plan.firsts| ==>
     plan.firsts[j - 1] < plan.firsts[j] < |plan.pairs| && plan.shared[plan.firsts[j]] == 0)
  }

  ghost function End(plan: Plan): nat
    requires Sound(plan)
  {
    plan.at[|plan.pairs|]
  }

  ghost predicate HoldsPairs(data: Bytes, plan: Plan)
    requires Sound(plan)
  {
    forall i :: 0 <= i < |plan.pairs| && SharesPrefix(plan, i) ==>
      At(data, plan.at[i], Encoded(plan.shared[i], plan.pairs[i]))
  }

  lemma FirstsInRange(plan: Plan, j: nat)
    requires Sound(plan) && j < |plan.firsts|
    ensures plan.firsts[j] <= |plan.pairs| && (plan.firsts[j] < |plan.pairs| ==> plan.shared[plan.firsts[j]] == 0)
  {
    if plan.firsts[j] < |plan.pairs| && j == 0 {
      assert SharesPrefix(plan, 0);
    }
  }

  ghost function RestartOffset(plan: Plan, j: nat): nat
    requires Sound(plan) && j < |plan.firsts|
  {
    FirstsInRange(plan, j);
    plan.at[plan.firsts[j]]
  }

  ghost predicate HoldsRestarts(data: Bytes, plan: Plan)
    requires Sound(plan)
  {
    forall j :: 0 <= j < |plan.firsts| ==> At(data, End(plan) + 4 * j, Fixed(RestartOffset(plan, j), 4))
  }

  /** The whole block: the pairs, the restart array, its length. */
  ghost predicate Holds(data: Bytes, plan: Plan) {
    Sound(plan) && HoldsPairs(data, plan) && HoldsRestarts(data, plan) &&
    |data| == End(plan) + 4 * |plan.firsts| + 4 < WORD32 && At(data, |data| - 4, Fixed(|plan.firsts|, 4))
  }

  // ---- building --------------------------------------------------------------------------------

  function CommonPrefix(a: Bytes, b: Bytes): (n: nat)
    ensures n <= |a| && n <= |b| && a[..n] == b[..n]
    ensures n < |a| && n < |b| ==> a[n] != b[n]
  {
    if |a| == 0 || |b| == 0 || a[0] != b[0] then 0 else
      var n := 1 + CommonPrefix(a[1..], b[1..]);
      assert a[..n] == [a[0]] + a[1..][..n - 1] && b[..n] == [b[0]] + b[1..][..n - 1];
      n
  }

  lemma PrefixIs(a: Bytes, b: Bytes, n: nat)
    requires n <= |a| && n <= |b| && a[..n] == b[..n] && (n < |a| && n < |b| ==> a[n] != b[n])
    ensures n == CommonPrefix(a, b)
  {
    var m := CommonPrefix(a, b);
    assert forall i :: 0 <= i < n ==> a[i] == a[..n][i] == b[..n][i] == b[i];
    assert forall i :: 0 <= i < m ==> a[i] == a[..m][i] == b[..m][i] == b[i];
  }

  method CountShared(lastKey: Bytes, key: Bytes) returns (shared: nat)
    ensures shared == CommonPrefix(lastKey, key)
  {
    shared := 0;
    var minLength := if |lastKey| < |key| then |lastKey| else |key|;
    while shared < minLength && lastKey[shared] == key[shared]
      invariant 0 <= shared <= minLength && lastKey[..shared] == key[..shared]
    {
      shared := shared + 1;
    }
    PrefixIs(lastKey, key, shared);
  }

  lemma EncodedIs(shared: nat, pair: Pair)
    requires shared <= |pair.key|
    ensures Encoded(shared, pair) ==
      Varint(shared) + Varint(|pair.key| - shared) + Varint(|pair.value|) + pair.key[shared..] + pair.value
  {
  }

  /** What the fields of a builder amount to. */
  ghost predicate Building(interval: nat, buffer: Bytes, restarts: seq<nat>, counter: nat, lastKey: Bytes, plan: Plan) {
    interval >= 1 && Sound(plan) && HoldsPairs(buffer, plan) && |buffer| == End(plan) &&
    |restarts| == |plan.firsts| && (forall j :: 0 <= j < |restarts| ==> restarts[j] == RestartOffset(plan, j)) &&
    lastKey == (if |plan.pairs| == 0 then [] else plan.pairs[|plan.pairs| - 1].key) &&
    counter == |plan.pairs| - plan.firsts[|plan.firsts| - 1] <= interval
  }

  lemma AddKeeps(interval: nat, buffer: Bytes, restarts: seq<nat>, counter: nat, lastKey: Bytes, plan: Plan, pair: Pair)
    requires Building(interval, buffer, restarts, counter, lastKey, plan) && |pair.key| < WORD32 &&
      |pair.value| < WORD32
    ensures var restart := counter >= interval; var shared := if restart then 0 else CommonPrefix(lastKey, pair.key);
      Building(interval, buffer + Encoded(shared, pair), if restart then restarts + [|buffer|] else restarts,
               if restart then 1 else counter + 1, pair.key, Extended(plan, pair, shared, restart))
  {
    hide Encoded, HoldsPairs, SharesPrefix, End, RestartOffset, CommonPrefix;
    var restart := counter >= interval;
    var shared := if restart then 0 else CommonPrefix(lastKey, pair.key);
    ExtendedIsSound(plan, pair, shared, restart);
    ExtendedHolds(buffer, plan, pair, shared, restart);
  }

  class BlockBuilder {
    const interval: nat
    var buffer: Bytes
    var restarts: seq<nat>
    var counter: nat
    var finished: bool
    var lastKey: Bytes
    ghost var plan: Plan

    ghost predicate Valid()
      reads this
    {
      Building(interval, buffer, restarts, counter, lastKey, plan)
    }

    constructor (interval: nat)
      requires interval >= 1
      ensures Valid() && !finished && plan.pairs == [] && this.interval == interval
    {
      this.interval := interval;
      buffer, restarts, counter, finished, lastKey := [], [0], 0, false, [];
      plan := Plan([], [], [0], [0]);
    }

    /** Every interval-th key is stored whole, the others share the longest prefix with the key before. */
    method Add(key: Bytes, value: Bytes)
      requires Valid() && !finished && |key| < WORD32 && |value| < WORD32
      modifies this
      ensures Valid() && !finished && plan.pairs == old(plan.pairs) + [Pair(key, value)]
      ensures plan.shared == old(plan.shared) + [if old(counter) < interval then CommonPrefix(old(lastKey), key) else 0]
      ensures plan.firsts == old(plan.firsts) + (if old(counter) < interval then [] else [|old(plan.pairs)|])
    {
      hide Encoded, Building, CommonPrefix, Sound;
      IsSound();
      AddKeeps(interval, buffer, restarts, counter, lastKey, plan, Pair(key, value));
      var shared := 0;
      ghost var restart := counter >= interval;
      if counter < interval {
        shared := CountShared(lastKey, key);
      } else {
        restarts := restarts + [|buffer|];
        counter := 0;
      }
      var nonShared := |key| - shared;
      var a := EncodeVarint32(shared);
      var b := EncodeVarint32(nonShared);
      var c := EncodeVarint32(|value|);
      EncodedIs(shared, Pair(key, value));
      buffer := buffer + (a + b + c + key[shared..] + value);
      assert lastKey[..shared] + key[shared..] == key;
      lastKey := lastKey[..shared] + key[shared..];
      counter := counter + 1;
      plan := Extended(plan, Pair(key, value), shared, restart);
    }

    lemma IsSound()
      requires Valid()
      ensures Sound(plan) && |plan.firsts| > 0
    {
    }

    lemma Sizes()
      requires Valid()
      ensures |buffer| == End(plan) && |restarts| == |plan.firsts|
    {
    }

    /** Appends the restart array and its length. The numbers are 32 bits wide, so a block has to be smaller than 4
      GB. */
    method Finish() returns (block: Bytes)
      requires Valid() && !finished
      modifies this
      ensures finished && interval >= 1 && plan == old(plan) && block == buffer &&
        |block| == |old(buffer)| + 4 * |old(restarts)| + 4
      ensures Sound(plan) && (|block| < WORD32 ==> Holds(block, plan))
    {
      hide Encoded, HoldsPairs, SharesPrefix, End, RestartOffset, Fixed, Sound, At;
      ghost var data := buffer;
      for i := 0 to |restarts|
        invariant |buffer| == |data| + 4 * i && data <= buffer && restarts == old(restarts) && plan == old(plan)
        invariant forall j :: 0 <= j < i ==> At(buffer, |data| + 4 * j, Fixed(restarts[j], 4))
      {
        var word := Fixed(restarts[i], 4);
        forall j | 0 <= j < i ensures At(buffer + word, |data| + 4 * j, Fixed(restarts[j], 4)) {
          AtMore(buffer, word, |data| + 4 * j, Fixed(restarts[j], 4));
        }
        AtEnd(buffer, word);
        buffer := buffer + word;
      }
      var word := Fixed(|restarts|, 4);
      forall j | 0 <= j < |restarts| ensures At(buffer + word, |data| + 4 * j, Fixed(restarts[j], 4)) {
        AtMore(buffer, word, |data| + 4 * j, Fixed(restarts[j], 4));
      }
      AtEnd(buffer, word);
      buffer := buffer + word;
      finished := true;
      block := buffer;
      PairsStay(data, buffer, plan);
    }

    method Reset()
      requires interval >= 1
      modifies this
      ensures Valid() && !finished && plan.pairs == []
    {
      buffer, restarts, counter, finished, lastKey := [], [0], 0, false, [];
      plan := Plan([], [], [0], [0]);
    }

    function CurrentSizeEstimate(): nat
      reads this
    {
      |buffer| + 4 * |restarts| + 4
    }

    predicate Empty()
      reads this
    {
      |buffer| == 0
    }

    lemma HasInterval()
      requires Valid()
      ensures interval >= 1
    {
    }

    lemma EmptyIs()
      requires Valid()
      ensures Empty() <==> |plan.pairs| == 0
    {
      hide Encoded, HoldsPairs;
      OffsetsGrow(plan, 0, |plan.pairs|);
    }
  }

  lemma {:induction false} OffsetsGrow(plan: Plan, i: nat, j: nat)
    requires Sound(plan) && i <= j <= |plan.pairs|
    ensures plan.at[j] >= plan.at[i] + 3 * (j - i)
  {
    hide Encoded;
    if i < j {
      OffsetsGrow(plan, i, j - 1);
      assert SharesPrefix(plan, j - 1);
    }
  }

  lemma PairsStay(data: Bytes, longer: Bytes, plan: Plan)
    requires Sound(plan) && HoldsPairs(data, plan) && data <= longer
    ensures HoldsPairs(longer, plan)
  {
    hide Encoded;
    assert longer == data + longer[|data|..];
    forall i | 0 <= i < |plan.pairs| && SharesPrefix(plan, i)
      ensures At(longer, plan.at[i], Encoded(plan.shared[i], plan.pairs[i]))
    {
      AtMore(data, longer[|data|..], plan.at[i], Encoded(plan.shared[i], plan.pairs[i]));
    }
  }

  ghost function Extended(plan: Plan, pair: Pair, shared: nat, restart: bool): Plan
    requires Sound(plan) && shared <= |pair.key|
  {
    Plan(plan.pairs + [pair], plan.shared + [shared], plan.at + [End(plan) + |Encoded(shared, pair)|],
         if restart then plan.firsts + [|plan.pairs|] else plan.firsts)
  }

  lemma ExtendedIsSound(plan: Plan, pair: Pair, shared: nat, restart: bool)
    requires Sound(plan) && shared <= |pair.key| < WORD32 && |pair.value| < WORD32
    requires if restart then |plan.pairs| > plan.firsts[|plan.firsts| - 1] && shared == 0
             else shared == 0 || (|plan.pairs| > 0 && shared <= |plan.pairs[|plan.pairs| - 1].key| &&
                                  pair.key[..shared] == plan.pairs[|plan.pairs| - 1].key[..shared])
    ensures Sound(Extended(plan, pair, shared, restart))
  {
    hide Encoded;
    var plan' := Extended(plan, pair, shared, restart);
    forall i | 0 <= i < |plan'.pairs|
      ensures SharesPrefix(plan', i) && plan'.at[i + 1] == plan'.at[i] + |Encoded(plan'.shared[i], plan'.pairs[i])|
    {
      if i < |plan.pairs| {
        assert SharesPrefix(plan, i);
      }
    }
  }

  lemma ExtendedHolds(buffer: Bytes, plan: Plan, pair: Pair, shared: nat, restart: bool)
    requires Sound(plan) && shared <= |pair.key| && Sound(Extended(plan, pair, shared, restart))
    requires HoldsPairs(buffer, plan) && |buffer| == End(plan)
    ensures var buffer', plan' := buffer + Encoded(shared, pair), Extended(plan, pair, shared, restart);
      HoldsPairs(buffer', plan') && |buffer'| == End(plan') &&
      (forall j :: 0 <= j < |plan.firsts| ==> RestartOffset(plan', j) == RestartOffset(plan, j)) &&
      (restart ==> RestartOffset(plan', |plan.firsts|) == |buffer|)
  {
    hide HoldsPairs, RestartOffset, Sound, Extended, Encoded;
    ExtendedPairs(buffer, plan, pair, shared, restart);
    ExtendedRestarts(plan, pair, shared, restart);
  }

  lemma ExtendedPairs(buffer: Bytes, plan: Plan, pair: Pair, shared: nat, restart: bool)
    requires Sound(plan) && shared <= |pair.key| && Sound(Extended(plan, pair, shared, restart))
    requires HoldsPairs(buffer, plan) && |buffer| == End(plan)
    ensures HoldsPairs(buffer + Encoded(shared, pair), Extended(plan, pair, shared, restart))
    ensures |buffer + Encoded(shared, pair)| == End(Extended(plan, pair, shared, restart))
  {
    hide Encoded, At;
    var buffer', plan' := buffer + Encoded(shared, pair), Extended(plan, pair, shared, restart);
    forall i | 0 <= i < |plan'.pairs| && SharesPrefix(plan', i)
      ensures At(buffer', plan'.at[i], Encoded(plan'.shared[i], plan'.pairs[i]))
    {
      if i < |plan.pairs| {
        assert SharesPrefix(plan, i);
        AtMore(buffer, Encoded(shared, pair), plan.at[i], Encoded(plan.shared[i], plan.pairs[i]));
      } else {
        AtEnd(buffer, Encoded(shared, pair));
      }
    }
  }

  lemma ExtendedRestarts(plan: Plan, pair: Pair, shared: nat, restart: bool)
    requires Sound(plan) && shared <= |pair.key| && Sound(Extended(plan, pair, shared, restart))
    ensures var plan' := Extended(plan, pair, shared, restart);
      (forall j :: 0 <= j < |plan.firsts| ==> RestartOffset(plan', j) == RestartOffset(plan, j)) &&
      (restart ==> RestartOffset(plan', |plan.firsts|) == End(plan))
  {
    hide Encoded, SharesPrefix;
    forall j | 0 <= j < |plan.firsts|
      ensures RestartOffset(Extended(plan, pair, shared, restart), j) == RestartOffset(plan, j)
    {
      FirstsInRange(plan, j);
    }
  }

  lemma AtEnd(data: Bytes, more: Bytes)
    ensures At(data + more, |data|, more)
  {
  }

  lemma AtMore(data: Bytes, more: Bytes, p: nat, bytes: Bytes)
    requires At(data, p, bytes)
    ensures At(data + more, p, bytes)
  {
    assert (data + more)[p..p + |bytes|] == data[p..p + |bytes|];
  }

  // ---- reading ------------------------------------------------------------------------------------

  /** GetRestartPoint. */
  function RestartPoint(data: Bytes, restartsAt: nat, index: nat): nat
    requires restartsAt + 4 * index + 4 <= |data|
  {
    Unfixed(data[restartsAt + 4 * index..restartsAt + 4 * index + 4])
  }

  lemma FixedAt(data: Bytes, p: nat, v: nat)
    requires v < WORD32 && At(data, p, Fixed(v, 4))
    ensures p + 4 <= |data| && Unfixed(data[p..p + 4]) == v
  {
    Widths();
    FixedRoundTrip(v, 4);
  }

  lemma RestartIsRead(data: Bytes, plan: Plan, j: nat)
    requires Holds(data, plan) && j < |plan.firsts|
    ensures RestartPoint(data, End(plan), j) == RestartOffset(plan, j) <= End(plan)
  {
    hide Encoded, HoldsPairs, SharesPrefix;
    FirstsInRange(plan, j);
    OffsetsGrow(plan, plan.firsts[j], |plan.pairs|);
    FixedAt(data, End(plan) + 4 * j, RestartOffset(plan, j));
  }

  /** The constructor of Block: finds the restart array, unless the contents are too small to have one. */
  method Open(data: Bytes) returns (r: Option<(nat, nat)>)
    requires |data| < WORD32
    ensures r.None? <==> |data| < 4 || (|data| - 4) / 4 < Unfixed(data[|data| - 4..])
    ensures r.Some? ==> r.value.1 == Unfixed(data[|data| - 4..]) && r.value.0 + 4 * r.value.1 + 4 == |data|
    ensures forall plan :: Holds(data, plan) ==> r == Some((End(plan), |plan.firsts|))
  {
    hide Holds, End, Unfixed;
    forall plan | Holds(data, plan)
      ensures Sound(plan) && |data| == End(plan) + 4 * |plan.firsts| + 4 &&
        Unfixed(data[|data| - 4..|data|]) == |plan.firsts|
    {
      CountIsLast(data, plan);
    }
    if |data| < 4 {
      return None;
    }
    assert data[|data| - 4..][..4] == data[|data| - 4..|data|] == data[|data| - 4..];
    var n := DecodeFixed32(data[|data| - 4..]);
    if n > (|data| - 4) / 4 {
      return None;
    }
    r := Some((|data| - 4 - 4 * n, n));
  }

  class Iter {
    const data: Bytes
    const restartsAt: nat
    const numRestarts: nat
    const less: (Bytes, Bytes) -> bool
    ghost const plan: Plan
    var current: nat
    var restartIndex: nat
    var key: Bytes
    var valueAt: nat
    var valueLength: nat
    var corrupt: bool

    ghost predicate Shape()
      reads this
    {
      numRestarts > 0 && restartsAt + 4 * numRestarts <= |data| && restartIndex <= numRestarts &&
      (current < restartsAt ==> restartIndex < numRestarts && current < valueAt + valueLength <= restartsAt)
    }

    constructor (data: Bytes, restartsAt: nat, numRestarts: nat, less: (Bytes, Bytes) -> bool, ghost plan: Plan)
      requires numRestarts > 0 && restartsAt + 4 * numRestarts <= |data|
      ensures Shape() && AtEnd() && !corrupt && this.data == data && this.restartsAt == restartsAt &&
        this.numRestarts == numRestarts
      ensures this.less == less && this.plan == plan
    {
      this.data, this.restartsAt, this.numRestarts, this.less, this.plan := data, restartsAt, numRestarts, less, plan;
      current, restartIndex, key, valueAt, valueLength, corrupt := restartsAt, numRestarts, [], restartsAt, 0, false;
    }

    predicate Valid()
      reads this
    {
      current < restartsAt
    }

    /** The bytes are a block that a builder finished. */
    ghost predicate Built() {
      Holds(data, plan) && restartsAt == End(plan) && numRestarts == |plan.firsts|
    }

    ghost predicate AtEnd()
      reads this
    {
      current == restartsAt && restartIndex == numRestarts
    }

    /** ParseNextKey will find pair i, or nothing if there are only i. */
    ghost predicate ReadyFor(i: nat)
      reads this
    {
      Built() && i <= |plan.pairs| && valueAt + valueLength == plan.at[i] &&
      restartIndex < numRestarts && RestartOffset(plan, restartIndex) <= plan.at[i] &&
      (i < |plan.pairs| ==>
       plan.shared[i] <= |key| && SharesPrefix(plan, i) && key[..plan.shared[i]] == plan.pairs[i].key[..plan.shared[i]])
    }

    /** The iterator shows pair i.  The restart index is loose: pair i may be the next restart point itself. */
    ghost predicate IsAt(i: nat)
      reads this
    {
      Built() && i < |plan.pairs| && current == plan.at[i] && key == plan.pairs[i].key &&
      valueAt + valueLength == plan.at[i + 1] && At(data, valueAt, plan.pairs[i].value) &&
      valueLength == |plan.pairs[i].value| &&
      restartIndex < numRestarts && RestartOffset(plan, restartIndex) <= plan.at[i] &&
      (restartIndex + 1 < numRestarts ==> plan.at[i] <= RestartOffset(plan, restartIndex + 1))
    }

    lemma BuiltIsSound()
      ensures Built() ==> Sound(plan)
    {
    }

    method CorruptionError()
      requires numRestarts > 0 && restartsAt + 4 * numRestarts <= |data|
      modifies this
      ensures Shape() && AtEnd() && corrupt
    {
      current, restartIndex, corrupt, key, valueLength := restartsAt, numRestarts, true, [], 0;
    }

    /** Moves the restart index up to the restart block that current falls in. */
    method AdvanceRestart()
      requires Shape() && restartIndex < numRestarts
      modifies this`restartIndex
      ensures restartIndex < numRestarts
      ensures Built() && RestartOffset(plan, old(restartIndex)) <= current ==>
        RestartOffset(plan, restartIndex) <= current &&
        (restartIndex + 1 < numRestarts ==> current <= RestartOffset(plan, restartIndex + 1))
    {
      hide Holds, SharesPrefix, End, RestartOffset, RestartPoint, Encoded, Sound;
      BuiltIsSound();
      ghost var on := Built() && RestartOffset(plan, restartIndex) <= current;
      if on {
        forall j | 0 <= j < numRestarts ensures RestartPoint(data, restartsAt, j) == RestartOffset(plan, j) {
          RestartIsRead(data, plan, j);
        }
      }
      while restartIndex + 1 < numRestarts && RestartPoint(data, restartsAt, restartIndex + 1) < current
        invariant restartIndex < numRestarts && (on ==> RestartOffset(plan, restartIndex) <= current)
      {
        restartIndex := restartIndex + 1;
      }
    }

    /** The entry behind the current value becomes the current entry. */
    method ParseNextKey(ghost i: nat) returns (ok: bool)
      requires Shape() && restartIndex < numRestarts
      modifies this
      ensures Shape() && (ok ==> current == old(valueAt + valueLength) < valueAt + valueLength <= restartsAt) &&
        (!ok ==> AtEnd())
      ensures old(ReadyFor(i)) ==> corrupt == old(corrupt) && (ok <==> i < |plan.pairs|) && (ok ==> IsAt(i))
    {
      hide Holds, SharesPrefix, End, RestartOffset, At, RestartPoint, EntryHeader, Encoded, Sound;
      BuiltIsSound();
      ghost var on := ReadyFor(i);
      ghost var oldKey := key;
      if on {
        PairIsNext(data, plan, i);
      }
      current := valueAt + valueLength;
      if current >= restartsAt {
        current, restartIndex := restartsAt, numRestarts;
        return false;
      }
      var h := DecodeEntry(data, current, restartsAt);
      if h.None? || |key| < h.value.shared {
        CorruptionError();
        return false;
      }
      key := key[..h.value.shared] + data[h.value.keyAt..h.value.keyAt + h.value.nonShared];
      if on {
        KeyIsWhole(data, plan, i, oldKey, h.value);
      }
      valueAt, valueLength := h.value.keyAt + h.value.nonShared, h.value.valueLength;
      AdvanceRestart();
      ok := true;
    }

    method SeekToRestartPoint(index: nat)
      requires Shape() && index < numRestarts
      modifies this
      ensures Shape() && restartIndex == index && corrupt == old(corrupt)
      ensures Built() ==> ReadyFor(plan.firsts[index])
    {
      hide Holds, SharesPrefix, Encoded, Sound, RestartPoint, End, RestartOffset;
      BuiltIsSound();
      if Built() {
        RestartIsRead(data, plan, index);
        RestartIsReady(data, plan, index);
      }
      key := [];
      restartIndex, current := index, restartsAt;
      valueAt, valueLength := RestartPoint(data, restartsAt, index), 0;
    }

    method SeekToFirst()
      requires Shape()
      modifies this
      ensures Shape() && (Built() ==> (if |plan.pairs| > 0 then IsAt(0) else AtEnd()) && corrupt == old(corrupt))
    {
      hide Holds, SharesPrefix, Encoded, RestartPoint, End, RestartOffset, At, IsAt, ReadyFor;
      BuiltIsSound();
      SeekToRestartPoint(0);
      var _ := ParseNextKey(0);
    }

    method Next(ghost i: nat)
      requires Shape() && Valid()
      modifies this
      ensures Shape() &&
        (old(IsAt(i)) ==> (if i + 1 < |plan.pairs| then IsAt(i + 1) else AtEnd()) && corrupt == old(corrupt))
    {
      hide Holds, SharesPrefix, Encoded, RestartPoint, End, RestartOffset, At, IsAt, ReadyFor;
      if IsAt(i) {
        NextIsReady(i);
      }
      var _ := ParseNextKey(i + 1);
    }

    lemma NextIsReady(i: nat)
      requires IsAt(i)
      ensures ReadyFor(i + 1)
    {
      hide Encoded;
      assert SharesPrefix(plan, i);
      if i + 1 < |plan.pairs| {
        assert SharesPrefix(plan, i + 1);
      }
    }

    /** Scanning from pair i, the entry that ends at or behind stop is pair last. */
    ghost predicate Stops(i: nat, last: nat, stop: nat) {
      Built() && i <= last < |plan.pairs| && plan.at[last] < stop <= plan.at[last + 1]
    }

    /** The loop of Prev and SeekToLast: parse on until the current entry ends at or behind stop. */
    method ScanTo(ghost i: nat, ghost last: nat, stop: nat)
      requires Shape() && restartIndex < numRestarts
      modifies this
      ensures Shape()
      ensures old(ReadyFor(i)) && Stops(i, last, stop) ==> IsAt(last) && corrupt == old(corrupt)
      ensures old(ReadyFor(i)) && i == |plan.pairs| ==> AtEnd()
    {
      hide Holds, SharesPrefix, Encoded, RestartPoint, End, RestartOffset, At, IsAt, ReadyFor, Stops, Sound;
      ghost var on := ReadyFor(i) && Stops(i, last, stop);
      ghost var k, none := i, ReadyFor(i) && i == |plan.pairs|;
      while true
        invariant Shape() && restartIndex < numRestarts && (none ==> ReadyFor(k) && k == |plan.pairs|)
        invariant on ==> ReadyFor(k) && Stops(k, last, stop) && corrupt == old(corrupt)
        decreases |data| - (valueAt + valueLength)
      {
        if on {
          StopsInRange(k, last, stop);
        }
        var ok := ParseNextKey(k);
        if on {
          StepOrStop(k, last, stop);
        }
        if !ok || valueAt + valueLength >= stop {
          return;
        }
        k := k + 1;
      }
    }

    lemma StopsInRange(i: nat, last: nat, stop: nat)
      requires Stops(i, last, stop)
      ensures i < |plan.pairs|
    {
    }

    lemma StepOrStop(k: nat, last: nat, stop: nat)
      requires IsAt(k) && Stops(k, last, stop)
      ensures valueAt + valueLength >= stop ==> k == last
      ensures valueAt + valueLength < stop ==> ReadyFor(k + 1) && Stops(k + 1, last, stop)
    {
      hide Encoded, HoldsPairs, HoldsRestarts, SharesPrefix, At;
      NextIsReady(k);
      if k < last {
        OffsetsGrow(plan, k + 1, last);
      }
    }

    /** The exact inverse of Next: from pair i to pair i - 1, or off the block from pair 0. */
    method Prev(ghost i: nat)
      requires Shape() && Valid()
      modifies this
      ensures Shape() && (old(IsAt(i)) ==> (if i > 0 then IsAt(i - 1) else AtEnd()) && corrupt == old(corrupt))
    {
      hide Holds, SharesPrefix, Encoded, RestartPoint, End, RestartOffset, At, IsAt, ReadyFor, Stops, Sound;
      ghost var on := IsAt(i);
      if on {
        AtIsBefore(i);
      }
      var original := current;
      while RestartPoint(data, restartsAt, restartIndex) >= original
        invariant Shape() && restartIndex < numRestarts && (on ==> IsBefore(i, original)) && corrupt == old(corrupt)
        decreases restartIndex
      {
        if restartIndex == 0 {
          if on {
            FirstRestart(i, original);
          }
          current, restartIndex := restartsAt, numRestarts;
          return;
        }
        restartIndex := restartIndex - 1;
      }
      if on {
        RestartIsBehind(i, original);
      }
      ghost var start := if on then plan.firsts[restartIndex] else 0;
      SeekToRestartPoint(restartIndex);
      ScanTo(start, if i > 0 then i - 1 else 0, original);
    }

    ghost predicate IsBefore(i: nat, original: nat) {
      Built() && i < |plan.pairs| && original == plan.at[i]
    }

    lemma AtIsBefore(i: nat)
      requires IsAt(i)
      ensures IsBefore(i, current)
    {
    }

    lemma FirstRestart(i: nat, original: nat)
      requires IsBefore(i, original) && Shape() && RestartPoint(data, restartsAt, 0) >= original
      ensures i == 0
    {
      hide Encoded, HoldsPairs, SharesPrefix, At;
      RestartIsRead(data, plan, 0);
      OffsetsGrow(plan, 0, i);
    }

    lemma RestartIsBehind(i: nat, original: nat)
      requires IsBefore(i, original) && Shape() && restartIndex < numRestarts &&
        RestartPoint(data, restartsAt, restartIndex) < original
      ensures i > 0 && restartIndex < |plan.firsts| && Stops(plan.firsts[restartIndex], i - 1, original)
    {
      hide Encoded, HoldsPairs, SharesPrefix, At, RestartPoint;
      RestartIsRead(data, plan, restartIndex);
      FirstsInRange(plan, restartIndex);
      var first := plan.firsts[restartIndex];
      if first >= i {
        OffsetsGrow(plan, i, first);
      }
      OffsetsGrow(plan, i - 1, i);
    }

    method SeekToLast()
      requires Shape()
      modifies this
      ensures Shape() && (Built() ==> if |plan.pairs| > 0 then IsAt(|plan.pairs| - 1) else AtEnd())
    {
      hide Holds, SharesPrefix, Encoded, RestartPoint, End, RestartOffset, At, IsAt, ReadyFor, Stops, Sound;
      ghost var first, last := 0, 0;
      if Built() {
        first, last := LastStops();
      }
      SeekToRestartPoint(numRestarts - 1);
      ScanTo(first, last, restartsAt);
    }

    lemma LastStops() returns (first: nat, last: nat)
      requires Built()
      ensures |plan.firsts| == numRestarts > 0 && first == plan.firsts[numRestarts - 1]
      ensures if |plan.pairs| > 0 then last == |plan.pairs| - 1 && Stops(first, last, restartsAt) else first == 0
    {
      hide Encoded, HoldsPairs, HoldsRestarts, SharesPrefix, At;
      first, last := plan.firsts[numRestarts - 1], 0;
      FirstsInRange(plan, numRestarts - 1);
      if |plan.pairs| > 0 {
        last := |plan.pairs| - 1;
        OffsetsGrow(plan, last, last + 1);
      }
    }

    /** The key stored at a restart point, which shares nothing. */
    method RestartKey(index: nat) returns (r: Option<Bytes>)
      requires Shape() && index < numRestarts
      ensures Built() && plan.firsts[index] < |plan.pairs| ==> r == Some(plan.pairs[plan.firsts[index]].key)
    {
      hide Holds, SharesPrefix, Encoded, RestartPoint, End, RestartOffset, At, EntryHeader, Sound;
      BuiltIsSound();
      if Built() && plan.firsts[index] < |plan.pairs| {
        StoredRestartKey(index);
      }
      var regionOffset := RestartPoint(data, restartsAt, index);
      if regionOffset > restartsAt {
        return None;
      }
      var h := DecodeEntry(data, regionOffset, restartsAt);
      if h.None? || h.value.shared != 0 {
        return None;
      }
      r := Some(data[h.value.keyAt..h.value.keyAt + h.value.nonShared]);
    }

    lemma StoredRestartKey(index: nat)
      requires Built() && index < numRestarts && plan.firsts[index] < |plan.pairs|
      ensures var p := RestartPoint(data, restartsAt, index);
        p <= restartsAt && EntryHeader(data, p, restartsAt).Some? &&
        var h := EntryHeader(data, p, restartsAt).value;
        h.shared == 0 && data[h.keyAt..h.keyAt + h.nonShared] == plan.pairs[plan.firsts[index]].key
    {
      hide Encoded, HoldsPairs, SharesPrefix, EntryHeader, RestartPoint;
      RestartIsRead(data, plan, index);
      RestartIsReady(data, plan, index);
      PairIsNext(data, plan, plan.firsts[index]);
      var k := plan.pairs[plan.firsts[index]].key;
      assert k[0..] == k;
    }

    /** The first f keys are below the target, and no others. */
    ghost predicate Splits(target: Bytes, f: nat) {
      f <= |plan.pairs| && forall i :: 0 <= i < |plan.pairs| ==> (less(plan.pairs[i].key, target) <==> i < f)
    }

    /** Binary search over the restart points, then a scan: the first key at or after the target. */
    method Seek(target: Bytes, ghost f: nat)
      requires Shape()
      modifies this
      ensures Shape() &&
        (Built() && Splits(target, f) ==> (if f < |plan.pairs| then IsAt(f) else AtEnd()) && corrupt == old(corrupt))
    {
      hide Holds, SharesPrefix, Encoded, RestartPoint, End, RestartOffset, At, IsAt, ReadyFor, Sound, Shape;
      BuiltIsSound();
      ShapeCounts();
      ghost var on := Built() && Splits(target, f);
      var left: nat, right: nat := 0, numRestarts - 1;
      while left < right
        invariant 0 <= left <= right < numRestarts && Shape() && (on ==> StartsBefore(left, f)) &&
          corrupt == old(corrupt)
      {
        var mid := (left + right + 1) / 2;
        if on {
          RestartExists(mid);
        }
        var midKey := RestartKey(mid);
        if midKey.None? {
          CorruptionError();
          return;
        }
        if less(midKey.value, target) {
          left := mid;
        } else {
          right := mid - 1;
        }
      }
      SeekToRestartPoint(left);
      ghost var k: nat := if on then plan.firsts[left] else 0;
      while true
        invariant Shape() && restartIndex < numRestarts && (on ==> ReadyFor(k) && k <= f && corrupt == old(corrupt))
        decreases |data| - (valueAt + valueLength)
      {
        var ok := ParseNextKey(k);
        if on && ok {
          NextIsReady(k);
          Shown(k);
        }
        if !ok || !less(key, target) {
          return;
        }
        ShapeCounts();
        k := k + 1;
      }
    }

    ghost predicate StartsBefore(index: nat, f: nat) {
      Built() && index < |plan.firsts| && plan.firsts[index] <= f
    }

    lemma ShapeCounts()
      requires Shape()
      ensures numRestarts > 0 && restartsAt + 4 * numRestarts <= |data| &&
        (Valid() ==> restartIndex < numRestarts && valueAt + valueLength <= restartsAt)
      ensures Built() ==> |plan.firsts| == numRestarts && plan.firsts[0] == 0
    {
    }

    lemma RestartExists(index: nat)
      requires Built() && 0 < index < numRestarts
      ensures index < |plan.firsts| && plan.firsts[index] < |plan.pairs|
    {
    }

    lemma Shown(k: nat)
      requires IsAt(k)
      ensures k < |plan.pairs| && key == plan.pairs[k].key && Valid()
      ensures valueAt + valueLength <= |data| && data[valueAt..valueAt + valueLength] == plan.pairs[k].value
    {
      hide Encoded, HoldsPairs, HoldsRestarts, SharesPrefix;
      OffsetsGrow(plan, k, k + 1);
      OffsetsGrow(plan, k + 1, |plan.pairs|);
    }

    /** The pair the iterator shows. */
    method Current(ghost i: nat) returns (pair: Pair)
      requires Shape() && Valid()
      ensures IsAt(i) ==> i < |plan.pairs| && pair == plan.pairs[i]
    {
      hide Holds, SharesPrefix, Encoded, End, RestartOffset, At, IsAt;
      if IsAt(i) {
        Shown(i);
      }
      pair := Pair(key, data[valueAt..valueAt + valueLength]);
    }
  }

  /** The header of pair i is where the layout says. */
  ghost predicate HeaderOf(data: Bytes, plan: Plan, i: nat, h: Header)
    requires Sound(plan) && i < |plan.pairs|
  {
    SharesPrefix(plan, i) && h.shared == plan.shared[i] && h.nonShared == |plan.pairs[i].key| - h.shared &&
    h.valueLength == |plan.pairs[i].value| &&
    h.keyAt + h.nonShared + h.valueLength == plan.at[i + 1] &&
    At(data, h.keyAt, plan.pairs[i].key[h.shared..]) && At(data, h.keyAt + h.nonShared, plan.pairs[i].value)
  }

  lemma PairIsNext(data: Bytes, plan: Plan, i: nat)
    requires Holds(data, plan) && i <= |plan.pairs|
    ensures plan.at[i] <= End(plan) && (plan.at[i] == End(plan) <==> i == |plan.pairs|)
    ensures i < |plan.pairs| ==>
      EntryHeader(data, plan.at[i], End(plan)).Some? &&
      HeaderOf(data, plan, i, EntryHeader(data, plan.at[i], End(plan)).value)
  {
    hide Encoded, HoldsRestarts, EntryHeader, At;
    OffsetsGrow(plan, i, |plan.pairs|);
    if i < |plan.pairs| {
      EntryIsHeld(data, plan, i);
      OffsetsGrow(plan, i + 1, |plan.pairs|);
      EntryDecodes(data, plan.at[i], End(plan), plan.shared[i], plan.pairs[i]);
    }
  }

  lemma EntryIsHeld(data: Bytes, plan: Plan, i: nat)
    requires Holds(data, plan) && i < |plan.pairs|
    ensures SharesPrefix(plan, i) && At(data, plan.at[i], Encoded(plan.shared[i], plan.pairs[i]))
    ensures plan.at[i + 1] == plan.at[i] + |Encoded(plan.shared[i], plan.pairs[i])|
  {
    hide Encoded, HoldsRestarts, At;
    assert SharesPrefix(plan, i);
  }

  lemma RestartIsReady(data: Bytes, plan: Plan, index: nat)
    requires Sound(plan) && index < |plan.firsts|
    ensures var i := plan.firsts[index];
      i <= |plan.pairs| && RestartOffset(plan, index) == plan.at[i] &&
      (i < |plan.pairs| ==> SharesPrefix(plan, i) && plan.shared[i] == 0)
  {
    FirstsInRange(plan, index);
  }

  lemma KeyIsWhole(data: Bytes, plan: Plan, i: nat, key: Bytes, h: Header)
    requires Sound(plan) && i < |plan.pairs| && HeaderOf(data, plan, i, h) && h.shared <= |key| &&
      key[..h.shared] == plan.pairs[i].key[..h.shared]
    ensures h.keyAt + h.nonShared <= |data| &&
      key[..h.shared] + data[h.keyAt..h.keyAt + h.nonShared] == plan.pairs[i].key
  {
    var k := plan.pairs[i].key;
    assert k == k[..h.shared] + k[h.shared..];
  }

  // ---- round trip ------------------------------------------------------------------------------------

  /** Builds a block out of any pairs. */
  method Build(interval: nat, pairs: seq<Pair>) returns (data: Bytes, ghost plan: Plan)
    requires interval >= 1 && forall p :: p in pairs ==> |p.key| < WORD32 && |p.value| < WORD32
    ensures plan.pairs == pairs && (|data| < WORD32 ==> Holds(data, plan))
  {
    hide Holds, Building, Encoded;
    var builder := new BlockBuilder(interval);
    for i := 0 to |pairs|
      invariant builder.Valid() && fresh(builder) && !builder.finished && builder.plan.pairs == pairs[..i]
    {
      builder.Add(pairs[i].key, pairs[i].value);
    }
    assert pairs[..|pairs|] == pairs;
    plan := builder.plan;
    builder.IsSound();
    builder.Sizes();
    data := builder.Finish();
  }

  /** Iterating over a block that was built gives its pairs back, in order. */
  method ReadAll(data: Bytes, less: (Bytes, Bytes) -> bool, ghost plan: Plan) returns (out: seq<Pair>)
    requires Holds(data, plan)
    ensures out == plan.pairs
  {
    hide Holds, Encoded, SharesPrefix, End;
    var found := OpenBuilt(data, plan);
    var it := new Iter(data, found.0, found.1, less, plan);
    it.SeekToFirst();
    out := [];
    while it.Valid()
      invariant it.Shape() && fresh(it) && it.Built() && it.plan == plan && |out| <= |plan.pairs| &&
        out == plan.pairs[..|out|]
      invariant if |out| < |plan.pairs| then it.IsAt(|out|) else it.AtEnd()
      decreases |plan.pairs| - |out|
    {
      var pair := it.Current(|out|);
      it.Next(|out|);
      out := out + [pair];
    }
    if |out| < |plan.pairs| {
      it.Shown(|out|);
    }
  }

  lemma CountIsLast(data: Bytes, plan: Plan)
    requires Holds(data, plan)
    ensures Sound(plan) && |data| == End(plan) + 4 * |plan.firsts| + 4 &&
      Unfixed(data[|data| - 4..|data|]) == |plan.firsts|
  {
    hide HoldsPairs, HoldsRestarts, Sound, Unfixed;
    FixedAt(data, |data| - 4, |plan.firsts|);
  }

  method OpenBuilt(data: Bytes, ghost plan: Plan) returns (r: (nat, nat))
    requires Holds(data, plan)
    ensures r == (End(plan), |plan.firsts|) && r.1 > 0 && r.0 + 4 * r.1 <= |data|
  {
    var found := Open(data);
    r := found.value;
  }
}
