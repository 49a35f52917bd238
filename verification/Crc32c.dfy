/** CRC-32C: util/crc32c.cc and util/crc32c.h.  The checksum of section 12.1 of RFC 3720 is defined bit by
  bit; the tables are any functions that satisfy their defining relation. */
module Crc32c {

  const ONES: bv32 := 0xffff_ffff
  const POLYNOMIAL: bv32 := 0x82f6_3b78
  const MASK_DELTA: bv32 := 0xa282_ead8

  type Bytes = seq<bv8>

  // ---- words as vectors over GF(2) ----------------------------------------------------------

  function Xor(a: bv32, b: bv32): bv32 {
    a ^ b
  }

  predicate Odd(x: bv32) {
    x & 1 == 1
  }

  function Half(x: bv32): bv32 {
    x >> 1
  }

  /** x << 8. */
  function Up(x: bv32): bv32 {
    x << 8
  }

  lemma XorAlgebra(a: bv32, b: bv32, c: bv32)
    ensures Xor(Xor(a, b), c) == Xor(a, Xor(b, c)) && Xor(a, b) == Xor(b, a) && Xor(a, a) == 0 && Xor(a, 0) == a
  {
  }

  lemma OddXor(a: bv32, b: bv32)
    ensures Odd(Xor(a, b)) <==> Odd(a) != Odd(b)
  {
    assert (a ^ b) & 1 == (a & 1) ^ (b & 1);
    assert a & 1 == 0 || a & 1 == 1;
    assert b & 1 == 0 || b & 1 == 1;
  }

  lemma HalfXor(a: bv32, b: bv32)
    ensures Half(Xor(a, b)) == Xor(Half(a), Half(b))
  {
  }

  lemma XorSwap(a: bv32, b: bv32, p: bv32)
    ensures Xor(Xor(a, b), p) == Xor(Xor(a, p), b) == Xor(a, Xor(b, p)) && Xor(Xor(a, p), Xor(b, p)) == Xor(a, b)
  {
    hide Xor;
    XorAlgebra(a, b, p);
    XorAlgebra(a, p, b);
    XorAlgebra(p, b, a);
    XorAlgebra(a, p, Xor(b, p));
    XorAlgebra(b, p, p);
    XorAlgebra(p, Xor(b, p), a);
    XorAlgebra(p, p, b);
    XorAlgebra(b, p, a);
  }

  // ---- one bit, then n bits ------------------------------------------------------------------

  /** Division by the reflected polynomial takes in one zero bit. */
  function Bit(x: bv32): bv32 {
    if Odd(x) then Xor(Half(x), POLYNOMIAL) else Half(x)
  }

  function Shift(x: bv32, n: nat): bv32
    decreases n
  {
    if n == 0 then x else Shift(Bit(x), n - 1)
  }

  lemma BitIsLinear(x: bv32, y: bv32)
    ensures Bit(Xor(x, y)) == Xor(Bit(x), Bit(y))
  {
    hide Xor, Odd, Half;
    OddXor(x, y);
    HalfXor(x, y);
    XorSwap(Half(x), Half(y), POLYNOMIAL);
  }

  /** Shifting is linear over GF(2). */
  lemma {:induction false} ShiftIsLinear(x: bv32, y: bv32, n: nat)
    ensures Shift(Xor(x, y), n) == Xor(Shift(x, n), Shift(y, n))
    decreases n
  {
    hide Bit, Xor;
    if n > 0 {
      BitIsLinear(x, y);
      ShiftIsLinear(Bit(x), Bit(y), n - 1);
    }
  }

  lemma {:induction false} ShiftAdds(x: bv32, m: nat, n: nat)
    ensures Shift(Shift(x, m), n) == Shift(x, m + n)
    decreases m
  {
    hide Bit;
    if m > 0 {
      ShiftAdds(Bit(x), m - 1, n);
    }
  }

  function Double(x: bv32): bv32 {
    x << 1
  }

  /** Doubling is undone by one bit step, as long as no bit falls out at the top. */
  lemma BitOfDouble(x: bv32)
    requires x <= 0x7fff_ffff
    ensures Bit(Double(x)) == x
  {
    hide Odd, Half, Xor, Double;
    DoubleIsEven(x);
    HalfOfDouble(x);
  }

  lemma DoubleIsEven(x: bv32)
    ensures !Odd(Double(x))
  {
  }

  lemma HalfOfDouble(x: bv32)
    requires x <= 0x7fff_ffff
    ensures Half(Double(x)) == x
  {
  }

  lemma DoubleBound(x: bv32, bound: bv32)
    requires x <= bound <= 0x7fff_ffff
    ensures Double(x) <= Double(bound) | 1
  {
  }

  function Times16(x: bv32): bv32 {
    Double(Double(Double(Double(x))))
  }

  lemma ShiftTimes16(x: bv32)
    requires x <= 0xfff_ffff
    ensures Shift(Times16(x), 4) == x
  {
    hide Bit, Double;
    var a, b, c := Double(x), Double(Double(x)), Double(Double(Double(x)));
    DoubleBounds(x, 0xfff_ffff);
    BitOfDouble(x);
    BitOfDouble(a);
    BitOfDouble(b);
    BitOfDouble(c);
    var z := Times16(x);
    assert Shift(z, 4) == Shift(Bit(z), 3) == Shift(Bit(Bit(z)), 2) == Shift(Bit(Bit(Bit(z))), 1);
  }

  lemma DoubleBounds(x: bv32, bound: bv32)
    requires x <= bound == 0xfff_ffff
    ensures Double(x) <= 0x1fff_ffff && Double(Double(x)) <= 0x3fff_ffff && Double(Double(Double(x))) <= 0x7fff_ffff
  {
    DoubleBound(x, 0xfff_ffff);
    DoubleBound(Double(x), 0x1fff_ffff);
    DoubleBound(Double(Double(x)), 0x3fff_ffff);
  }

  lemma UpIsTwice16(y: bv32)
    requires y <= 0xff_ffff
    ensures Up(y) == Times16(Times16(y)) && Times16(y) <= 0xfff_ffff
  {
  }

  /** A word that was moved up by a byte comes back down without touching the polynomial. */
  lemma ShiftBack(y: bv32)
    requires y <= 0xff_ffff
    ensures Shift(Up(y), 8) == y
  {
    hide Bit, Up, Times16;
    UpIsTwice16(y);
    ShiftTimes16(Times16(y));
    ShiftTimes16(y);
    ShiftAdds(Up(y), 4, 4);
  }

  // ---- bytes and words --------------------------------------------------------------------------

  /** Takes in one byte. */
  function Step(l: bv32, b: bv8): bv32 {
    Shift(Xor(l, b as bv32), 8)
  }

  /** Takes in a string, one byte at a time. */
  function Fold(l: bv32, data: Bytes): bv32 {
    if |data| == 0 then l else Step(Fold(l, data[..|data| - 1]), data[|data| - 1])
  }

  lemma {:induction false} FoldConcat(l: bv32, a: Bytes, b: Bytes)
    ensures Fold(l, a + b) == Fold(Fold(l, a), b)
  {
    hide Step;
    if |b| == 0 {
      assert a + b == a;
    } else {
      var n := |b| - 1;
      assert (a + b)[..|a| + n] == a + b[..n];
      FoldConcat(l, a, b[..n]);
    }
  }

  /** The checksum, pre- and post-conditioned. */
  function Crc(crc: bv32, data: Bytes): bv32 {
    Xor(Fold(Xor(crc, ONES), data), ONES)
  }

  /** A checksum can be taken in pieces, as the log writer does with the type byte and the payload. */
  lemma CrcConcat(crc: bv32, a: Bytes, b: Bytes)
    ensures Crc(Crc(crc, a), b) == Crc(crc, a + b)
  {
    hide Fold, Xor;
    var x := Fold(Xor(crc, ONES), a);
    XorAlgebra(x, ONES, ONES);
    XorAlgebra(ONES, ONES, ONES);
    XorAlgebra(x, x, ONES);
    FoldConcat(Xor(crc, ONES), a, b);
  }

  /** ReadUint32LE. */
  function Word(b0: bv8, b1: bv8, b2: bv8, b3: bv8): bv32 {
    (b0 as bv32) | ((b1 as bv32) << 8) | ((b2 as bv32) << 16) | ((b3 as bv32) << 24)
  }

  function WordAt(data: Bytes, p: nat): bv32
    requires p + 4 <= |data|
  {
    Word(data[p], data[p + 1], data[p + 2], data[p + 3])
  }

  /** What lies above the low byte goes in before the eight shifts or, a byte lower, after them. */
  lemma LaterByte(x: bv32, y: bv32)
    requires y <= 0xff_ffff
    ensures Shift(Xor(x, Up(y)), 8) == Xor(Shift(x, 8), y)
  {
    hide Xor, Up, Bit, Shift;
    ShiftBack(y);
    ShiftIsLinear(x, Up(y), 8);
  }

  lemma WordParts(b0: bv8, b1: bv8, b2: bv8, b3: bv8)
    ensures var r2 := Xor(b2 as bv32, Up(b3 as bv32)); var r1 := Xor(b1 as bv32, Up(r2));
      Word(b0, b1, b2, b3) == Xor(b0 as bv32, Up(r1)) && r1 <= 0xff_ffff && r2 <= 0xff_ffff && (b3 as bv32) <= 0xff_ffff
  {
  }

  /** Four bytes at once. */
  lemma WordIsFourBytes(l: bv32, b0: bv8, b1: bv8, b2: bv8, b3: bv8)
    ensures Fold(l, [b0, b1, b2, b3]) == Shift(Xor(l, Word(b0, b1, b2, b3)), 32)
  {
    hide Bit, Shift, Word, Xor, Up;
    var r3 := b3 as bv32;
    var r2 := Xor(b2 as bv32, Up(r3));
    var r1 := Xor(b1 as bv32, Up(r2));
    WordParts(b0, b1, b2, b3);
    var w := Word(b0, b1, b2, b3);
    OneByte(l, b0, r1, w);
    var l1 := Step(l, b0);
    OneByte(l1, b1, r2, r1);
    var l2 := Step(l1, b1);
    OneByte(l2, b2, r3, r2);
    var l3 := Step(l2, b2);
    FourSteps(l, b0, b1, b2, b3);
    ShiftTwice(Xor(l, w), Xor(l1, r1), Xor(l2, r2), Xor(l3, r3));
  }

  lemma OneByte(l: bv32, b: bv8, r: bv32, w: bv32)
    requires w == Xor(b as bv32, Up(r)) && r <= 0xff_ffff
    ensures Shift(Xor(l, w), 8) == Xor(Step(l, b), r)
  {
    hide Bit, Shift, Xor, Up;
    XorAlgebra(l, b as bv32, Up(r));
    LaterByte(Xor(l, b as bv32), r);
  }

  lemma ShiftTwice(x0: bv32, x1: bv32, x2: bv32, x3: bv32)
    requires Shift(x0, 8) == x1 && Shift(x1, 8) == x2 && Shift(x2, 8) == x3
    ensures Shift(x3, 8) == Shift(x0, 32)
  {
    hide Bit, Shift;
    ShiftAdds(x0, 8, 8);
    ShiftAdds(x0, 16, 8);
    ShiftAdds(x0, 24, 8);
  }

  lemma FourSteps(l: bv32, b0: bv8, b1: bv8, b2: bv8, b3: bv8)
    ensures Fold(l, [b0, b1, b2, b3]) == Step(Step(Step(Step(l, b0), b1), b2), b3)
  {
    hide Step;
    assert Fold(l, []) == l;
    assert [b0][..0] == [];
    assert Fold(l, [b0]) == Step(l, b0);
    assert [b0, b1][..1] == [b0];
    assert Fold(l, [b0, b1]) == Step(Step(l, b0), b1);
    assert [b0, b1, b2][..2] == [b0, b1];
    assert Fold(l, [b0, b1, b2]) == Step(Step(Step(l, b0), b1), b2);
    assert [b0, b1, b2, b3][..3] == [b0, b1, b2];
  }

  // ---- the tables -----------------------------------------------------------------------------------

  datatype Tables = Tables(byte: bv8 -> bv32, stride0: bv8 -> bv32, stride1: bv8 -> bv32, stride2: bv8 -> bv32,
                           stride3: bv8 -> bv32)

  function Lane(i: bv8, k: nat): bv32
    requires k <= 3
  {
    if k == 0 then i as bv32 else Up(Lane(i, k - 1))
  }

  /** The byte table takes a byte through eight zero bits; stride table k takes a byte of one lane through
      the sixteen zero bytes of a swath. */
  ghost predicate Correct(t: Tables) {
    (forall i: bv8 :: t.byte(i) == Shift(i as bv32, 8)) &&
    (forall i: bv8 :: t.stride0(i) == Shift(Lane(i, 3), 128)) &&
    (forall i: bv8 :: t.stride1(i) == Shift(Lane(i, 2), 128)) &&
    (forall i: bv8 :: t.stride2(i) == Shift(Lane(i, 1), 128)) &&
    forall i: bv8 :: t.stride3(i) == Shift(Lane(i, 0), 128)
  }

  function Low(x: bv32): bv8 {
    (x & 0xff) as bv8
  }

  function Down(x: bv32): bv32 {
    x >> 8
  }

  lemma Split(x: bv32)
    ensures x == Xor(Low(x) as bv32, Up(Down(x))) && Down(x) <= 0xff_ffff
  {
  }

  lemma LowXor(l: bv32, b: bv8)
    ensures Low(Xor(l, b as bv32)) == Low(l) ^ b && Down(Xor(l, b as bv32)) == Down(l)
  {
  }

  /** One table look-up is eight bit steps. */
  lemma TableStep(t: Tables, x: bv32)
    requires Correct(t)
    ensures Xor(t.byte(Low(x)), Down(x)) == Shift(x, 8) == Xor(Down(x), t.byte(Low(x)))
  {
    hide Bit, Shift, Xor, Up, Low, Down;
    Split(x);
    LaterByte(Low(x) as bv32, Down(x));
    XorAlgebra(t.byte(Low(x)), Down(x), 0);
  }

  /** STEP1. */
  method Step1(t: Tables, l: bv32, b: bv8) returns (r: bv32)
    requires Correct(t)
    ensures r == Step(l, b)
  {
    hide Bit, Shift, Xor, Up, Low, Down, Correct;
    var c := Low(l) ^ b;
    LowXor(l, b);
    TableStep(t, Xor(l, b as bv32));
    r := Xor(t.byte(c), Down(l));
  }

  /** STEP4W. */
  method Step4W(t: Tables, l: bv32, word: bv32) returns (r: bv32)
    requires Correct(t)
    ensures r == Shift(Xor(l, word), 32)
  {
    hide Bit, Shift, Xor, Up, Low, Down, Correct;
    var w := Xor(word, l);
    XorAlgebra(word, l, 0);
    ghost var start := w;
    NoShift(start);
    for i := 0 to 4
      invariant w == Shift(start, 8 * i)
    {
      TableStep(t, w);
      ShiftAdds(start, 8 * i, 8);
      w := Xor(Down(w), t.byte(Low(w)));
    }
    r := w;
  }

  lemma NoShift(x: bv32)
    ensures Shift(x, 0) == x
  {
  }

  lemma Lanes(x: bv32)
    ensures x ==
      Xor(Xor(Xor(Lane(Low(x), 0), Lane(Low(Down(x)), 1)), Lane(Low(Down(Down(x))), 2)),
          Lane(Low(Down(Down(Down(x)))), 3))
  {
    LanesAre(x);
    LaneIs(Low(Down(x)));
    LaneIs(Low(Down(Down(x))));
    LaneIs(Low(Down(Down(Down(x)))));
  }

  lemma LaneIs(i: bv8)
    ensures Lane(i, 1) == Up(i as bv32) && Lane(i, 2) == Up(Up(i as bv32)) && Lane(i, 3) == Up(Up(Up(i as bv32)))
  {
    hide Up;
    assert Lane(i, 1) == Up(Lane(i, 0));
    assert Lane(i, 2) == Up(Lane(i, 1));
    assert Lane(i, 3) == Up(Lane(i, 2));
  }

  lemma LanesAre(x: bv32)
    ensures x == Xor(Xor(Xor(Low(x) as bv32, Up(Low(Down(x)) as bv32)), Up(Up(Low(Down(Down(x))) as bv32))),
                     Up(Up(Up(Low(Down(Down(Down(x)))) as bv32))))
  {
  }

  /** STEP4: the next word of a stride, and the swath before it sixteen bytes further on. */
  method Step4(t: Tables, crc: bv32, word: bv32) returns (r: bv32)
    requires Correct(t)
    ensures r == Xor(word, Shift(crc, 128))
  {
    hide Bit, Shift, Xor, Up, Low, Down, Lane;
    var a, b := t.stride3(Low(crc)), t.stride2(Low(Down(crc)));
    var c, d := t.stride1(Low(Down(Down(crc)))), t.stride0(Low(Down(Down(Down(crc)))));
    var l0, l1, l2, l3 := Lane(Low(crc), 0), Lane(Low(Down(crc)), 1), Lane(Low(Down(Down(crc))), 2),
      Lane(Low(Down(Down(Down(crc)))), 3);
    Lanes(crc);
    ShiftIsLinear(Xor(Xor(l0, l1), l2), l3, 128);
    ShiftIsLinear(Xor(l0, l1), l2, 128);
    ShiftIsLinear(l0, l1, 128);
    XorAlgebra(word, a, b);
    XorAlgebra(word, Xor(a, b), c);
    XorAlgebra(word, Xor(Xor(a, b), c), d);
    r := Xor(Xor(Xor(Xor(word, a), b), c), d);
  }

  // ---- four strides ---------------------------------------------------------------------------------------

  /** The last four words of a string, each with what came before it in its stride. */
  datatype Strides = Strides(c0: bv32, c1: bv32, c2: bv32, c3: bv32)

  /** What the strides stand for: the words one after the other. */
  function Combined(s: Strides): bv32 {
    Shift(Xor(Shift(Xor(Shift(Xor(Shift(s.c0, 32), s.c1), 32), s.c2), 32), s.c3), 32)
  }

  /** One more word, in the stride whose turn it is. */
  function Advanced(s: Strides, word: bv32): Strides {
    Strides(s.c1, s.c2, s.c3, Xor(word, Shift(s.c0, 128)))
  }

  lemma Pull(x: bv32, n: nat, c: bv32, rest: bv32)
    ensures Shift(Xor(Xor(Shift(x, n), rest), c), 32) == Xor(Shift(x, n + 32), Shift(Xor(rest, c), 32))
  {
    hide Bit, Shift, Xor;
    XorAlgebra(Shift(x, n), rest, c);
    ShiftIsLinear(Shift(x, n), Xor(rest, c), 32);
    ShiftAdds(x, n, 32);
  }

  /** Advancing the strides takes in the word. */
  lemma AdvancedIs(s: Strides, word: bv32)
    ensures Combined(Advanced(s, word)) == Shift(Xor(Combined(s), word), 32)
  {
    hide Bit, Shift, Xor;
    var a1 := Shift(s.c1, 32);
    var a2 := Shift(Xor(a1, s.c2), 32);
    var a3 := Shift(Xor(a2, s.c3), 32);
    ShiftIsLinear(Shift(s.c0, 32), s.c1, 32);
    ShiftAdds(s.c0, 32, 32);
    assert Shift(Xor(Shift(s.c0, 32), s.c1), 32) == Xor(Shift(s.c0, 64), a1);
    Pull(s.c0, 64, s.c2, a1);
    Pull(s.c0, 96, s.c3, a2);
    var far := Shift(s.c0, 128);
    assert Combined(s) == Xor(far, a3);
    XorAlgebra(far, a3, word);
    XorAlgebra(a3, word, far);
    XorAlgebra(far, Xor(a3, word), 0);
  }

  lemma StartStrides(l: bv32, w0: bv32, w1: bv32, w2: bv32, w3: bv32)
    ensures Combined(Strides(Xor(w0, l), w1, w2, w3)) ==
      Shift(Xor(Shift(Xor(Shift(Xor(Shift(Xor(l, w0), 32), w1), 32), w2), 32), w3), 32)
  {
    hide Bit, Shift, Xor;
    XorAlgebra(l, w0, 0);
  }

  /** The next word of the string. */
  lemma NextWord(l: bv32, data: Bytes, p: nat)
    requires p + 4 <= |data|
    ensures Fold(l, data[..p + 4]) == Shift(Xor(Fold(l, data[..p]), WordAt(data, p)), 32)
  {
    hide Bit, Shift, Xor, Word;
    var four := [data[p], data[p + 1], data[p + 2], data[p + 3]];
    assert data[..p + 4] == data[..p] + four;
    FoldConcat(l, data[..p], four);
    WordIsFourBytes(Fold(l, data[..p]), data[p], data[p + 1], data[p + 2], data[p + 3]);
  }

  /** Extend: bytes up to an aligned address, then four interleaved strides of words, then bytes.  It is the
      checksum that one byte at a time gives, whatever the address. */
  method Extend(t: Tables, crc: bv32, data: Bytes, address: nat) returns (r: bv32)
    requires Correct(t)
    ensures r == Crc(crc, data)
  {
    hide Bit, Shift, Xor, Step, Fold, Correct, WordAt, Combined;
    var p, e := 0, |data|;
    var l := Xor(crc, ONES);
    ghost var start := l;
    FoldNothing(start, data);
    var x := (4 - address % 4) % 4;
    if x <= e {
      while p != x
        invariant 0 <= p <= x && l == Fold(start, data[..p])
        decreases x - p
      {
        FoldByte(start, data, p);
        l := Step1(t, l, data[p]);
        p := p + 1;
      }
    }
    if e - p >= 16 {
      l, p := Swaths(t, l, start, data, p);
    }
    while p != e
      invariant 0 <= p <= e && l == Fold(start, data[..p])
      decreases e - p
    {
      FoldByte(start, data, p);
      l := Step1(t, l, data[p]);
      p := p + 1;
    }
    assert data[..|data|] == data;
    r := Xor(l, ONES);
  }

  lemma FoldNothing(l: bv32, data: Bytes)
    ensures Fold(l, data[..0]) == l
  {
  }

  lemma FoldByte(l: bv32, data: Bytes, p: nat)
    requires p < |data|
    ensures Fold(l, data[..p + 1]) == Step(Fold(l, data[..p]), data[p])
  {
    hide Step;
    assert data[..p + 1][..p] == data[..p];
  }

  /** The part of Extend that works on words. */
  method Swaths(t: Tables, l: bv32, ghost start: bv32, data: Bytes, from: nat) returns (r: bv32, p: nat)
    requires Correct(t) && from + 16 <= |data| && l == Fold(start, data[..from])
    ensures from <= p <= |data| && r == Fold(start, data[..p])
  {
    hide Bit, Shift, Xor, Step, Fold, Correct, WordAt;
    p := from;
    var crc0 := Xor(WordAt(data, p), l);
    var crc1, crc2, crc3 := WordAt(data, p + 4), WordAt(data, p + 8), WordAt(data, p + 12);
    StartStrides(l, WordAt(data, p), crc1, crc2, crc3);
    FourWords(start, data, p);
    p := p + 16;
    while |data| - p >= 16
      invariant from <= p <= |data| && Combined(Strides(crc0, crc1, crc2, crc3)) == Fold(start, data[..p])
    {
      ghost var s := Strides(crc0, crc1, crc2, crc3);
      Step16Is(s, start, data, p);
      crc0 := Step4(t, crc0, WordAt(data, p));
      crc1 := Step4(t, crc1, WordAt(data, p + 4));
      crc2 := Step4(t, crc2, WordAt(data, p + 8));
      crc3 := Step4(t, crc3, WordAt(data, p + 12));
      p := p + 16;
    }
    while |data| - p >= 4
      invariant from <= p <= |data| && Combined(Strides(crc0, crc1, crc2, crc3)) == Fold(start, data[..p])
    {
      AdvancedIs(Strides(crc0, crc1, crc2, crc3), WordAt(data, p));
      NextWord(start, data, p);
      crc0 := Step4(t, crc0, WordAt(data, p));
      crc0, crc1, crc2, crc3 := crc1, crc2, crc3, crc0;
      p := p + 4;
    }
    r := 0;
    XorAlgebra(crc0, 0, 0);
    XorAlgebra(0, crc0, 0);
    r := Step4W(t, r, crc0);
    r := Step4W(t, r, crc1);
    r := Step4W(t, r, crc2);
    r := Step4W(t, r, crc3);
  }

  lemma FourWords(l: bv32, data: Bytes, p: nat)
    requires p + 16 <= |data|
    ensures Fold(l, data[..p + 16]) ==
      Shift(Xor(Shift(Xor(Shift(Xor(Shift(Xor(Fold(l, data[..p]), WordAt(data, p)), 32), WordAt(data, p + 4)), 32),
                          WordAt(data, p + 8)), 32), WordAt(data, p + 12)), 32)
  {
    hide Bit, Shift, Xor, Fold, WordAt;
    NextWord(l, data, p);
    NextWord(l, data, p + 4);
    NextWord(l, data, p + 8);
    NextWord(l, data, p + 12);
  }

  /** A swath is four words, one for each stride. */
  lemma Step16Is(s: Strides, l: bv32, data: Bytes, p: nat)
    requires p + 16 <= |data| && Combined(s) == Fold(l, data[..p])
    ensures Combined(Strides(Xor(WordAt(data, p), Shift(s.c0, 128)), Xor(WordAt(data, p + 4), Shift(s.c1, 128)),
                             Xor(WordAt(data, p + 8), Shift(s.c2, 128)),
                               Xor(WordAt(data, p + 12), Shift(s.c3, 128)))) == Fold(l, data[..p + 16])
  {
    hide Bit, Shift, Xor, Fold, WordAt, Combined;
    FourWords(l, data, p);
    var s1 := Advanced(s, WordAt(data, p));
    var s2 := Advanced(s1, WordAt(data, p + 4));
    var s3 := Advanced(s2, WordAt(data, p + 8));
    AdvancedIs(s, WordAt(data, p));
    AdvancedIs(s1, WordAt(data, p + 4));
    AdvancedIs(s2, WordAt(data, p + 8));
    AdvancedIs(s3, WordAt(data, p + 12));
  }

  // ---- masking ------------------------------------------------------------------------------------------

  function Mask(crc: bv32): bv32 {
    ((crc >> 15) | (crc << 17)) + MASK_DELTA
  }

  function Unmask(masked: bv32): bv32 {
    var rot := masked - MASK_DELTA;
    (rot >> 17) | (rot << 15)
  }

  lemma MaskRoundTrip(crc: bv32)
    ensures Unmask(Mask(crc)) == crc
  {
    var rot := (crc >> 15) | (crc << 17);
    assert Mask(crc) - MASK_DELTA == rot;
    Rotate(crc);
  }

  lemma Rotate(crc: bv32)
    ensures var rot := (crc >> 15) | (crc << 17); (rot >> 17) | (rot << 15) == crc
  {
  }
}
