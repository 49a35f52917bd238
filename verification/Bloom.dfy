/** The Bloom filter policy: util/bloom.cc.  The hash is any function from keys to 32-bit numbers. */
module Bloom {
  import opened Coding

  type Word = n: nat | n < WORD32
  type Hash = Bytes -> Word

  // ---- bits ----------------------------------------------------------------------------------

  /** b & (1 << i). */
  predicate BitOf(b: nat, i: nat)
    decreases i
  {
    if i == 0 then b % 2 == 1 else BitOf(b / 2, i - 1)
  }

  /** b | (1 << i). */
  function WithBit(b: nat, i: nat): nat
    decreases i
  {
    if i == 0 then b - b % 2 + 1 else b % 2 + 2 * WithBit(b / 2, i - 1)
  }

  /** Setting a bit sets it and touches no other. */
  lemma {:induction false} WithBitIs(b: nat, i: nat, j: nat)
    ensures BitOf(WithBit(b, i), j) <==> BitOf(b, j) || i == j
    decreases i
  {
    var r := WithBit(b, i);
    if i > 0 {
      assert r / 2 == WithBit(b / 2, i - 1) && r % 2 == b % 2;
      if j > 0 {
        WithBitIs(b / 2, i - 1, j - 1);
      }
    } else {
      assert r / 2 == b / 2;
    }
  }

  function Power2(n: nat): (p: nat)
    ensures p > 0
  {
    if n == 0 then 1 else 2 * Power2(n - 1)
  }

  lemma {:induction false} WithBitFits(b: nat, i: nat, width: nat)
    requires b < Power2(width) && i < width
    ensures WithBit(b, i) < Power2(width)
  {
    if i > 0 {
      WithBitFits(b / 2, i - 1, width - 1);
    }
  }

  lemma {:induction false} ZeroHasNoBits(i: nat)
    ensures !BitOf(0, i)
  {
    if i > 0 {
      ZeroHasNoBits(i - 1);
    }
  }

  function ByteWithBit(b: Byte, i: nat): Byte
    requires i < 8
  {
    assert Power2(4) == 16 && Power2(8) == 16 * Power2(4);
    WithBitFits(b, i, 8);
    WithBit(b, i)
  }

  predicate BitAt(a: Bytes, p: nat)
    requires p < 8 * |a|
  {
    BitOf(a[p / 8], p % 8)
  }

  function SetBit(a: Bytes, p: nat): (r: Bytes)
    requires p < 8 * |a|
    ensures |r| == |a|
  {
    a[p / 8 := ByteWithBit(a[p / 8], p % 8)]
  }

  lemma SetBitIs(a: Bytes, p: nat, q: nat)
    requires p < 8 * |a| && q < 8 * |a|
    ensures BitAt(SetBit(a, p), q) <==> BitAt(a, q) || p == q
  {
    hide BitOf, WithBit;
    if p / 8 == q / 8 {
      WithBitIs(a[p / 8], p % 8, q % 8);
    }
  }

  // ---- probing ----------------------------------------------------------------------------------

  /** Rotate right 17 bits. */
  function Delta(h: Word): (d: nat)
    ensures d < WORD32
  {
    h / 0x2_0000 + h % 0x2_0000 * 0x8000
  }

  /** The j-th hash of double hashing, with 32-bit wrap-around. */
  function Probe(h: Word, j: nat): (r: Word) {
    (h + j * Delta(h)) % WORD32
  }

  /** Where the j-th probe for a key looks. */
  function Position(hash: Hash, key: Bytes, j: nat, bits: nat): (p: nat)
    requires bits > 0
    ensures p < bits
  {
    Probe(hash(key), j) % bits
  }

  lemma NextProbe(h: Word, j: nat)
    ensures Probe(h, j + 1) == (Probe(h, j) + Delta(h)) % WORD32
  {
    var a := h + j * Delta(h);
    assert (j + 1) * Delta(h) == j * Delta(h) + Delta(h);
    WrapOnce(a, Delta(h));
  }

  lemma WrapOnce(a: nat, d: nat)
    ensures (a + d) % WORD32 == (a % WORD32 + d) % WORD32
  {
  }

  /** The bits a filter over these keys must have set, and may have set. */
  ghost predicate Probed(hash: Hash, keys: seq<Bytes>, k: nat, bits: nat, p: nat)
    requires bits > 0
  {
    exists i, j :: 0 <= i < |keys| && 0 <= j < k && Position(hash, keys[i], j, bits) == p
  }

  function FilterBytes(n: nat, bitsPerKey: nat): (bytes: nat)
    ensures bytes >= 8
  {
    var bits := n * bitsPerKey;
    ((if bits < 64 then 64 else bits) + 7) / 8
  }

  /** A filter of a set of keys: exactly the probed bits, and the number of probes behind them. */
  ghost predicate IsFilter(hash: Hash, keys: seq<Bytes>, bitsPerKey: nat, k: nat, filter: Bytes) {
    |filter| == FilterBytes(|keys|, bitsPerKey) + 1 && filter[|filter| - 1] == k &&
    forall p :: 0 <= p < 8 * (|filter| - 1) ==> (BitAt(filter, p) <==> Probed(hash, keys, k, 8 * (|filter| - 1), p))
  }

  /** Appends the filter to what dst already holds. */
  method CreateFilter(hash: Hash, bitsPerKey: nat, k: nat, keys: seq<Bytes>, dst: Bytes) returns (r: Bytes)
    requires 1 <= k <= 30
    ensures |dst| <= |r| && r[..|dst|] == dst && IsFilter(hash, keys, bitsPerKey, k, r[|dst|..])
  {
    hide BitOf, Position, Probe, SetBit;
    var bits := |keys| * bitsPerKey;
    if bits < 64 {
      bits := 64;
    }
    var bytes := (bits + 7) / 8;
    bits := bytes * 8;
    var data := new Byte[bytes](i => 0);
    ZeroHasNoBits(0);
    forall p | 0 <= p < bits ensures !BitAt(data[..], p) {
      ZeroHasNoBits(p % 8);
    }
    for i := 0 to |keys|
      invariant forall p :: 0 <= p < bits ==> (BitAt(data[..], p) <==> ProbedSoFar(hash, keys, k, bits, i, 0, p))
    {
      var h := hash(keys[i]);
      var delta := Delta(h);
      FirstProbe(hash, keys[i], bits);
      for j := 0 to k
        invariant h == Probe(hash(keys[i]), j) && delta == Delta(hash(keys[i]))
        invariant forall p :: 0 <= p < bits ==> (BitAt(data[..], p) <==> ProbedSoFar(hash, keys, k, bits, i, j, p))
      {
        var bitpos := h % bits;
        ghost var before := data[..];
        data[bitpos / 8] := ByteWithBit(data[bitpos / 8], bitpos % 8);
        assert data[..] == SetBit(before, bitpos) by { Replaced(before, bitpos, data[..]); }
        assert bitpos == Position(hash, keys[i], j, bits) by { PositionIs(hash, keys[i], j, bits); }
        forall p | 0 <= p < bits ensures BitAt(data[..], p) <==> ProbedSoFar(hash, keys, k, bits, i, j + 1, p) {
          SetBitIs(before, bitpos, p);
          OneMoreProbe(hash, keys, k, bits, i, j, p);
        }
        NextProbe(hash(keys[i]), j);
        h := (h + delta) % WORD32;
      }
      forall p | 0 <= p < bits
        ensures ProbedSoFar(hash, keys, k, bits, i, k, p) <==> ProbedSoFar(hash, keys, k, bits, i + 1, 0, p)
      {
        NextKey(hash, keys, k, bits, i, p);
      }
    }
    r := dst + (data[..] + [k]);
    Finished(hash, keys, bitsPerKey, k, data[..], r[|dst|..]);
  }

  /** Probed by one of the first i keys, or by one of the first j probes of key i. */
  ghost predicate ProbedSoFar(hash: Hash, keys: seq<Bytes>, k: nat, bits: nat, i: nat, j: nat, p: nat)
    requires bits > 0 && i <= |keys|
  {
    Probed(hash, keys[..i], k, bits, p) ||
    (i < |keys| && exists m :: 0 <= m < j && Position(hash, keys[i], m, bits) == p)
  }

  lemma FirstProbe(hash: Hash, key: Bytes, bits: nat)
    ensures Probe(hash(key), 0) == hash(key)
  {
  }

  lemma PositionIs(hash: Hash, key: Bytes, j: nat, bits: nat)
    requires bits > 0
    ensures Position(hash, key, j, bits) == Probe(hash(key), j) % bits
  {
  }

  lemma Replaced(before: Bytes, p: nat, after: Bytes)
    requires p < 8 * |before| && |after| == |before| && after[p / 8] == ByteWithBit(before[p / 8], p % 8)
    requires forall i :: 0 <= i < |before| && i != p / 8 ==> after[i] == before[i]
    ensures after == SetBit(before, p)
  {
  }

  lemma OneMoreProbe(hash: Hash, keys: seq<Bytes>, k: nat, bits: nat, i: nat, j: nat, p: nat)
    requires bits > 0 && i < |keys| && p < bits
    ensures ProbedSoFar(hash, keys, k, bits, i, j + 1, p) <==>
      ProbedSoFar(hash, keys, k, bits, i, j, p) || Position(hash, keys[i], j, bits) == p
  {
    hide Probed, Position;
  }

  lemma NextKey(hash: Hash, keys: seq<Bytes>, k: nat, bits: nat, i: nat, p: nat)
    requires bits > 0 && i < |keys|
    ensures ProbedSoFar(hash, keys, k, bits, i, k, p) <==> ProbedSoFar(hash, keys, k, bits, i + 1, 0, p)
  {
    hide Position;
    var a, b := keys[..i], keys[..i + 1];
    assert b == a + [keys[i]];
    if Probed(hash, a, k, bits, p) {
      var x, y :| 0 <= x < |a| && 0 <= y < k && Position(hash, a[x], y, bits) == p;
      assert b[x] == a[x];
    }
    if m :| 0 <= m < k && Position(hash, keys[i], m, bits) == p {
      assert b[i] == keys[i];
    }
    if Probed(hash, b, k, bits, p) {
      var x, y :| 0 <= x < |b| && 0 <= y < k && Position(hash, b[x], y, bits) == p;
      assert x < i ==> a[x] == b[x];
    }
  }

  lemma Finished(hash: Hash, keys: seq<Bytes>, bitsPerKey: nat, k: nat, data: Bytes, filter: Bytes)
    requires 1 <= k <= 30 && |data| == FilterBytes(|keys|, bitsPerKey) && filter == data + [k]
    requires forall p :: 0 <= p < 8 * |data| ==>
      (BitAt(data, p) <==> ProbedSoFar(hash, keys, k, 8 * |data|, |keys|, 0, p))
    ensures IsFilter(hash, keys, bitsPerKey, k, filter)
  {
    hide BitOf, Probed;
    assert keys[..|keys|] == keys;
    forall p | 0 <= p < 8 * |data| ensures BitAt(filter, p) <==> Probed(hash, keys, k, 8 * |data|, p) {
      assert filter[p / 8] == data[p / 8];
      assert BitAt(data, p) <==> ProbedSoFar(hash, keys, k, 8 * |data|, |keys|, 0, p);
    }
  }

  /** What KeyMayMatch tests.  More than 30 probes is an encoding from the future, and always matches. */
  ghost predicate Matches(hash: Hash, key: Bytes, filter: Bytes) {
    |filter| >= 2 &&
    var k, bits := filter[|filter| - 1], 8 * (|filter| - 1);
    k <= 30 ==> forall j :: 0 <= j < k ==> BitAt(filter, Position(hash, key, j, bits))
  }

  lemma NoMatch(hash: Hash, key: Bytes, filter: Bytes, j: nat)
    requires |filter| >= 2 && j < filter[|filter| - 1] <= 30 &&
      !BitAt(filter, Position(hash, key, j, 8 * (|filter| - 1)))
    ensures !Matches(hash, key, filter)
  {
    hide BitAt, Position;
  }

  /** A filter matches a key exactly if each of the key's probes hits where a probe of some key it was made for hit. */
  lemma FilterMatches(hash: Hash, keys: seq<Bytes>, bitsPerKey: nat, k: nat, filter: Bytes, key: Bytes)
    requires IsFilter(hash, keys, bitsPerKey, k, filter)
    ensures Matches(hash, key, filter) <==> k > 30 || AllProbed(hash, keys, bitsPerKey, k, key)
  {
    hide Position, BitAt, Probed;
    var bits := 8 * FilterBytes(|keys|, bitsPerKey);
    forall j | 0 <= j < k
      ensures BitAt(filter, Position(hash, key, j, bits)) <==>
        Probed(hash, keys, k, bits, Position(hash, key, j, bits))
    {
    }
  }

  ghost predicate AllProbed(hash: Hash, keys: seq<Bytes>, bitsPerKey: nat, k: nat, key: Bytes) {
    var bits := 8 * FilterBytes(|keys|, bitsPerKey);
    forall j :: 0 <= j < k ==> Probed(hash, keys, k, bits, Position(hash, key, j, bits))
  }

  method KeyMayMatch(hash: Hash, key: Bytes, filter: Bytes) returns (r: bool)
    ensures r <==> Matches(hash, key, filter)
  {
    hide BitOf, Position, Probe;
    if |filter| < 2 {
      return false;
    }
    var bits, k := 8 * (|filter| - 1), filter[|filter| - 1];
    if k > 30 {
      return true;
    }
    var h := hash(key);
    var delta := Delta(h);
    FirstProbe(hash, key, bits);
    for j := 0 to k
      invariant h == Probe(hash(key), j) && delta == Delta(hash(key))
      invariant forall m :: 0 <= m < j ==> BitAt(filter, Position(hash, key, m, bits))
    {
      var bitpos := h % bits;
      assert bitpos == Position(hash, key, j, bits) by { PositionIs(hash, key, j, bits); }
      if !BitOf(filter[bitpos / 8], bitpos % 8) {
        NoMatch(hash, key, filter, j);
        return false;
      }
      NextProbe(hash(key), j);
      h := (h + delta) % WORD32;
    }
    r := true;
  }

  /** No false negatives: a filter matches every key it was made for. */
  lemma NoFalseNegatives(hash: Hash, keys: seq<Bytes>, bitsPerKey: nat, k: nat, filter: Bytes, key: Bytes)
    requires IsFilter(hash, keys, bitsPerKey, k, filter) && key in keys
    ensures Matches(hash, key, filter)
  {
    hide Position, BitAt;
    var bits := 8 * (|filter| - 1);
    var i :| 0 <= i < |keys| && keys[i] == key;
    forall j | 0 <= j < k ensures BitAt(filter, Position(hash, key, j, bits)) {
      assert Probed(hash, keys, k, bits, Position(hash, key, j, bits)) by {
        assert Position(hash, keys[i], j, bits) == Position(hash, key, j, bits);
      }
    }
  }
}
