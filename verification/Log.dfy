/** The log file format: db/log_writer.cc and db/log_reader.cc.  The checksum is any function from the
  bytes it covers to four bytes. */
module Log {
  import opened Coding

  const BLOCK: nat := 32768
  const HEADER: nat := 7

  const ZERO_TYPE: Byte := 0
  const FULL: Byte := 1
  const FIRST: Byte := 2
  const MIDDLE: Byte := 3
  const LAST: Byte := 4
  /** The two extra codes of the reader; a type byte in the file can collide with them. */
  const EOF: Byte := 5
  const BAD_RECORD: Byte := 6

  type Word = w: seq<Byte> | |w| == 4 witness [0, 0, 0, 0]
  type Checksum = seq<Byte> -> Word

  /** Where the next header goes: fewer than seven bytes at the end of a block are left as a trailer. */
  function RoundUp(p: nat): (q: nat)
    ensures p <= q < p + HEADER && q % BLOCK + HEADER <= BLOCK
    ensures q != p ==> q % BLOCK == 0
  {
    if BLOCK - p % BLOCK < HEADER then p + BLOCK - p % BLOCK else p
  }

  function Room(q: nat): nat
    requires q % BLOCK + HEADER <= BLOCK
  {
    BLOCK - q % BLOCK - HEADER
  }

  function TypeOf(begin: bool, end: bool): Byte {
    if begin && end then FULL else if begin then FIRST else if end then LAST else MIDDLE
  }

  /** One physical record. */
  function Physical(sum: Checksum, t: Byte, payload: seq<Byte>): (r: seq<Byte>)
    requires |payload| <= BLOCK - HEADER
    ensures |r| == HEADER + |payload|
  {
    sum([t] + payload) + [|payload| % 256, |payload| / 256, t] + payload
  }

  function Zeros(n: nat): (z: seq<Byte>)
    ensures |z| == n
  {
    seq(n, i => 0)
  }

  function FragmentLength(p: nat, left: nat): nat {
    if left < Room(RoundUp(p)) then left else Room(RoundUp(p))
  }

  /** What the file of length p grows by when a record, or the rest of one, is added. */
  function Emitted(sum: Checksum, p: nat, data: seq<Byte>, begin: bool): (r: seq<Byte>)
    ensures |r| >= HEADER
    decreases |data|, Room(RoundUp(p)) == 0
  {
    var head, n := Fragment(sum, p, data, begin), FragmentLength(p, |data|);
    if n == |data| then head else head + Emitted(sum, p + |head|, data[n..], false)
  }

  /** The trailer of the old block, if it is left behind, and one physical record. */
  function Fragment(sum: Checksum, p: nat, data: seq<Byte>, begin: bool): (r: seq<Byte>)
    ensures |r| == RoundUp(p) - p + HEADER + FragmentLength(p, |data|)
  {
    var n := FragmentLength(p, |data|);
    Zeros(RoundUp(p) - p) + Physical(sum, TypeOf(begin, n == |data|), data[..n])
  }

  lemma FirstFragment(sum: Checksum, p: nat, data: seq<Byte>, begin: bool, before: seq<Byte>)
    requires |before| == p
    ensures var n, after := FragmentLength(p, |data|), before + Fragment(sum, p, data, begin);
      before + Emitted(sum, p, data, begin) ==
        after + (if n == |data| then [] else Emitted(sum, |after|, data[n..], false)) &&
      (n == 0 && |data| > 0 ==> Room(RoundUp(p)) == 0 && Room(RoundUp(|after|)) > 0)
  {
    hide RoundUp, Room, Fragment;
    if Room(RoundUp(p)) == 0 {
      FullBlock(RoundUp(p));
    }
  }

  /** Behind a header that fills its block a whole block is free. */
  lemma FullBlock(q: nat)
    requires q % BLOCK + HEADER <= BLOCK && Room(q) == 0
    ensures Room(RoundUp(q + HEADER)) > 0
  {
    NextBlock(q + HEADER);
  }

  lemma NextBlock(p: nat)
    requires p % BLOCK == 0
    ensures RoundUp(p) == p && Room(p) == BLOCK - HEADER
  {
  }

  /** The file after all the records. */
  function FileOf(sum: Checksum, records: seq<seq<Byte>>): seq<Byte> {
    if |records| == 0 then []
    else
      var before := FileOf(sum, records[..|records| - 1]);
      before + Emitted(sum, |before|, records[|records| - 1], true)
  }

  lemma Leftover(p: nat, blockOffset: nat)
    requires blockOffset <= BLOCK && blockOffset % BLOCK == p % BLOCK
    ensures BLOCK - blockOffset < HEADER ==> RoundUp(p) == p + BLOCK - blockOffset && RoundUp(p) % BLOCK == 0
    ensures BLOCK - blockOffset >= HEADER ==> RoundUp(p) == p
    ensures Room(RoundUp(p)) == BLOCK - (if BLOCK - blockOffset < HEADER then 0 else blockOffset) - HEADER
  {
    if blockOffset == BLOCK {
      NextBlock(p);
    }
  }

  class Writer {
    const sum: Checksum
    var dest: seq<Byte>
    var blockOffset: nat

    ghost predicate Valid()
      reads this
    {
      blockOffset <= BLOCK && blockOffset % BLOCK == |dest| % BLOCK
    }

    /** A new file has length 0; an old one is continued where it ends. */
    constructor (sum: Checksum, dest: seq<Byte>)
      ensures Valid() && this.dest == dest && this.sum == sum
    {
      this.sum, this.dest, blockOffset := sum, dest, |dest| % BLOCK;
    }

    /** One round of the loop per fragment; an empty record still emits one. */
    method AddRecord(slice: seq<Byte>)
      requires Valid()
      modifies this
      ensures Valid() && dest == old(dest) + Emitted(sum, |old(dest)|, slice, true)
    {
      hide Emitted, RoundUp, Room, Physical, Valid;
      var ptr: nat, left: nat, begin := 0, |slice|, true;
      ghost var all := dest + Emitted(sum, |dest|, slice, true);
      while true
        invariant Valid() && ptr + left == |slice|
        invariant all == dest + Emitted(sum, |dest|, slice[ptr..], begin)
        decreases left, Room(RoundUp(|dest|)) == 0
      {
        ghost var start, rest := dest, slice[ptr..];
        SwitchBlock();
        var avail := BLOCK - blockOffset - HEADER;
        var fragmentLength := if left < avail then left else avail;
        var end := left == fragmentLength;
        var t := if begin && end then FULL else if begin then FIRST else if end then LAST else MIDDLE;
        assert slice[ptr..ptr + fragmentLength] == rest[..fragmentLength] &&
          slice[ptr + fragmentLength..] == rest[fragmentLength..];
        EmitPhysicalRecord(t, slice[ptr..ptr + fragmentLength]);
        assert dest == start + Fragment(sum, |start|, rest, begin);
        FirstFragment(sum, |start|, rest, begin, start);
        ptr, left, begin := ptr + fragmentLength, left - fragmentLength, false;
        if left == 0 {
          break;
        }
      }
    }

    /** Fills the trailer of a block that has no room for a header. */
    method SwitchBlock()
      requires Valid()
      modifies this
      ensures Valid() && blockOffset + HEADER <= BLOCK && dest == old(dest) + Zeros(RoundUp(|old(dest)|) - |old(dest)|)
      ensures BLOCK - blockOffset - HEADER == Room(RoundUp(|old(dest)|))
    {
      hide RoundUp, Room, Zeros;
      Leftover(|dest|, blockOffset);
      var leftover := BLOCK - blockOffset;
      if leftover < HEADER {
        dest := dest + Zeros(leftover);
        blockOffset := 0;
      } else {
        assert dest + Zeros(0) == dest;
      }
    }

    method EmitPhysicalRecord(t: Byte, payload: seq<Byte>)
      requires Valid() && blockOffset + HEADER + |payload| <= BLOCK
      modifies this
      ensures Valid() && dest == old(dest) + Physical(sum, t, payload) &&
        blockOffset == old(blockOffset) + HEADER + |payload|
    {
      var crc := sum([t] + payload);
      dest := dest + (crc + [|payload| % 256, |payload| / 256, t]);
      dest := dest + payload;
      blockOffset := blockOffset + HEADER + |payload|;
    }
  }

  // ---- reading ----------------------------------------------------------------------------------

  function BlockEnd(p: nat): (e: nat)
    ensures p < e && e % BLOCK == 0 && e - p <= BLOCK
  {
    p + BLOCK - p % BLOCK
  }

  /** How far the block that holds p can be read. */
  function BufferEnd(file: seq<Byte>, p: nat): nat {
    if BlockEnd(p) <= |file| then BlockEnd(p) else |file|
  }

  /** A type code, the payload, where the reader goes on, and the sizes it reports as dropped. */
  datatype Parsed = Parsed(t: Byte, payload: seq<Byte>, next: nat, dropped: seq<nat>)

  /** What a file holds at p, without any buffer: a whole record, the torn end of the file, or damage. */
  function Parse(file: seq<Byte>, sum: Checksum, p: nat): (r: Parsed)
    ensures r.next <= |file| && (p + HEADER <= |file| ==> p < r.next)
  {
    if p + HEADER > |file| then Parsed(EOF, [], |file|, [])
    else
      var end, length: nat, t := BufferEnd(file, p), (file[p + 4] as nat) + 256 * (file[p + 5] as nat), file[p + 6];
      if p + HEADER + length > end then
        if |file| < BlockEnd(p) then Parsed(EOF, [], end, []) else Parsed(BAD_RECORD, [], end, [end - p])
      else if t == ZERO_TYPE && length == 0 then Parsed(BAD_RECORD, [], end, [])
      else
        var payload := file[p + HEADER..p + HEADER + length];
        if file[p..p + 4] != sum([t] + payload) then Parsed(BAD_RECORD, [], end, [end - p])
        else Parsed(t, payload, p + HEADER + length, [])
  }

  /** The file from c on begins with the bytes, as far as it goes. */
  ghost predicate Agrees(file: seq<Byte>, c: nat, bytes: seq<Byte>) {
    forall i :: 0 <= i < |bytes| && c + i < |file| ==> file[c + i] == bytes[i]
  }

  lemma AgreesParts(file: seq<Byte>, c: nat, a: seq<Byte>, b: seq<Byte>)
    requires Agrees(file, c, a + b)
    ensures Agrees(file, c, a) && Agrees(file, c + |a|, b)
  {
    forall i | 0 <= i < |a| && c + i < |file| ensures file[c + i] == a[i] {
      assert (a + b)[i] == a[i];
    }
    forall i | 0 <= i < |b| && c + |a| + i < |file| ensures file[c + |a| + i] == b[i] {
      assert (a + b)[|a| + i] == b[i] && file[c + (|a| + i)] == (a + b)[|a| + i];
    }
  }

  lemma AgreesWhole(file: seq<Byte>, c: nat, bytes: seq<Byte>)
    requires Agrees(file, c, bytes) && c + |bytes| <= |file|
    ensures file[c..c + |bytes|] == bytes
  {
  }

  /** A physical record that was written parses as itself, and one that is torn off parses as the end of the file. */
  lemma PhysicalParses(file: seq<Byte>, sum: Checksum, q: nat, t: Byte, payload: seq<Byte>)
    requires q % BLOCK + HEADER + |payload| <= BLOCK && t != ZERO_TYPE
    requires Agrees(file, q, Physical(sum, t, payload))
    ensures Parse(file, sum, q) ==
      if q + HEADER + |payload| <= |file| then Parsed(t, payload, q + HEADER + |payload|, [])
          else Parsed(EOF, [], |file|, [])
  {
    var r := Physical(sum, t, payload);
    if q + HEADER <= |file| {
      assert r[4] == |payload| % 256 && r[5] == |payload| / 256 && r[6] == t;
      assert file[q + 4] == r[4] && file[q + 5] == r[5] && file[q + 6] == r[6];
      if q + HEADER + |payload| <= |file| {
        AgreesWhole(file, q, r);
        assert file[q..q + 4] == r[..4] == sum([t] + payload);
        assert file[q + HEADER..q + HEADER + |payload|] == r[HEADER..] == payload;
      }
    }
  }

  /** The first fragment of a record, or of what is left of one. */
  lemma FragmentParses(file: seq<Byte>, sum: Checksum, c: nat, data: seq<Byte>, begin: bool)
    requires Agrees(file, c, Emitted(sum, c, data, begin))
    ensures var n, next := FragmentLength(c, |data|), c + |Fragment(sum, c, data, begin)|;
      Parse(file, sum, RoundUp(c)) ==
        (if next <= |file| then Parsed(TypeOf(begin, n == |data|), data[..n], next, [])
         else Parsed(EOF, [], |file|, [])) &&
      (n < |data| ==> Agrees(file, next, Emitted(sum, next, data[n..], false))) &&
      |Emitted(sum, c, data, begin)| == next - c + (if n < |data| then |Emitted(sum, next, data[n..], false)| else 0)
  {
    hide Physical, RoundUp, Agrees, Parse, Zeros;
    var n := FragmentLength(c, |data|);
    var head, t := Fragment(sum, c, data, begin), TypeOf(begin, n == |data|);
    var tail := if n < |data| then Emitted(sum, c + |head|, data[n..], false) else [];
    assert Emitted(sum, c, data, begin) == head + tail;
    AgreesParts(file, c, head, tail);
    AgreesParts(file, c, Zeros(RoundUp(c) - c), Physical(sum, t, data[..n]));
    PhysicalParses(file, sum, RoundUp(c), t, data[..n]);
  }

  class Reader {
    const file: seq<Byte>
    const sum: Checksum
    /** How much of the file was read, and the part of it not used yet. */
    var pos: nat
    var buffer: seq<Byte>
    /** The last read came back short. */
    var eof: bool
    var drops: seq<nat>

    ghost predicate Valid()
      reads this`pos, this`buffer, this`eof
    {
      |buffer| <= pos <= |file| && buffer == file[pos - |buffer|..pos] &&
      if eof then pos == |file| && |buffer| <= pos % BLOCK else pos % BLOCK == 0 && |buffer| <= BLOCK
    }

    ghost function Consumed(): nat
      requires Valid()
      reads this`pos, this`buffer, this`eof
    {
      pos - |buffer|
    }

    constructor (file: seq<Byte>, sum: Checksum)
      ensures Valid() && Consumed() == 0 && drops == [] && this.file == file && this.sum == sum
    {
      this.file, this.sum := file, sum;
      pos, buffer, eof, drops := 0, [], false, [];
    }

    /** Read of the next block; short only at the end of the file. */
    method Fill()
      requires Valid() && !eof
      modifies this`pos, this`buffer, this`eof
      ensures Valid() && Consumed() == old(pos) && (pos > old(pos) || eof)
      ensures pos == BufferEnd(file, old(pos)) && (eof <==> |file| < BlockEnd(old(pos)))
    {
      var n := if pos + BLOCK <= |file| then BLOCK else |file| - pos;
      buffer := file[pos..pos + n];
      pos := pos + n;
      if n < BLOCK {
        eof := true;
      }
    }

    /** The buffer at hand holds the rest of its block, and the next header is at its start, unless it is a trailer. */
    lemma Window()
      requires Valid()
      ensures |buffer| >= HEADER ==>
        RoundUp(Consumed()) == Consumed() && BufferEnd(file, Consumed()) == pos &&
        (eof <==> |file| < BlockEnd(Consumed()))
      ensures |buffer| < HEADER && !eof ==> RoundUp(Consumed()) == RoundUp(pos) == pos
      ensures |buffer| < HEADER && eof ==> |file| < RoundUp(Consumed()) + HEADER
    {
    }

    method ReadPhysicalRecord() returns (t: Byte, fragment: seq<Byte>)
      requires Valid()
      modifies this`pos, this`buffer, this`eof, this`drops
      ensures Valid()
      ensures var r := Parse(file, sum, RoundUp(old(Consumed())));
        t == r.t && fragment == r.payload && Consumed() == r.next && drops == old(drops) + r.dropped
    {
      hide RoundUp, BufferEnd, BlockEnd;
      Window();
      while |buffer| < HEADER
        invariant Valid() && RoundUp(Consumed()) == RoundUp(old(Consumed())) && drops == old(drops)
        decreases |file| - pos + (if eof then 0 else 1)
      {
        Window();
        if eof {
          buffer := [];
          return EOF, [];
        }
        Fill();
      }
      Window();
      t, fragment := ParseHeader();
    }

    /** The part of ReadPhysicalRecord that looks at a whole header. */
    method ParseHeader() returns (t: Byte, fragment: seq<Byte>)
      requires Valid() && |buffer| >= HEADER && BufferEnd(file, Consumed()) == pos &&
        (eof <==> |file| < BlockEnd(Consumed()))
      modifies this`buffer, this`drops
      ensures Valid()
      ensures var r := Parse(file, sum, old(Consumed()));
        t == r.t && fragment == r.payload && Consumed() == r.next && drops == old(drops) + r.dropped
    {
      hide RoundUp, BufferEnd, BlockEnd, Parse;
      ParseOfBuffer(file, sum, Consumed(), pos, buffer);
      var a, b, recordType := buffer[4] as nat, buffer[5] as nat, buffer[6];
      var length := a + 256 * b;
      if HEADER + length > |buffer| {
        var dropSize := |buffer|;
        buffer := [];
        if !eof {
          drops := drops + [dropSize];
          return BAD_RECORD, [];
        }
        return EOF, [];
      }
      if recordType == ZERO_TYPE && length == 0 {
        buffer := [];
        return BAD_RECORD, [];
      }
      if buffer[..4] != sum(buffer[6..HEADER + length]) {
        var dropSize := |buffer|;
        buffer := [];
        drops := drops + [dropSize];
        return BAD_RECORD, [];
      }
      t, fragment := recordType, buffer[HEADER..HEADER + length];
      buffer := buffer[HEADER + length..];
    }

    /** Puts the fragments of the next record together.  next is any record the file may go on with: if the
        file agrees with it as far as it goes, then the record is read if it is all there, and the end of
        the file is reported, without complaint, if it is torn. */
    method ReadRecord(ghost next: seq<Byte>) returns (ok: bool, record: seq<Byte>)
      requires Valid()
      modifies this`pos, this`buffer, this`eof, this`drops
      ensures Valid()
      ensures var c := old(Consumed()); var bytes := Emitted(sum, c, next, true);
        Agrees(file, c, bytes) ==>
          drops == old(drops) && (ok <==> c + |bytes| <= |file|) && (ok ==> record == next && Consumed() == c + |bytes|)
    {
      hide Emitted, Agrees, Parse, RoundUp, Valid, Halfway, TypeOf;
      record := [];
      var scratch, inFragmentedRecord := [], false;
      ghost var start := Consumed();
      ghost var on := Agrees(file, start, Emitted(sum, start, next, true));
      ghost var rest := next;
      NothingReadYet(file, sum, start, next);
      while true
        invariant Valid() && (on ==> drops == old(drops))
        invariant on ==> Halfway(file, sum, start, next, Consumed(), scratch, rest, inFragmentedRecord)
        decreases |file| - Consumed()
      {
        ghost var c := Consumed();
        if on {
          rest := ReadOn(file, sum, start, next, c, scratch, rest, inFragmentedRecord);
        }
        ParseMoves(file, sum, c);
        var t, fragment := ReadPhysicalRecord();
        if t == FULL {
          if inFragmentedRecord && |scratch| > 0 {
            drops := drops + [|scratch|];
          }
          return true, fragment;
        } else if t == FIRST {
          if inFragmentedRecord && |scratch| > 0 {
            drops := drops + [|scratch|];
          }
          scratch, inFragmentedRecord := fragment, true;
        } else if t == MIDDLE {
          if !inFragmentedRecord {
            drops := drops + [|fragment|];
          } else {
            scratch := scratch + fragment;
          }
        } else if t == LAST {
          if !inFragmentedRecord {
            drops := drops + [|fragment|];
          } else {
            return true, scratch + fragment;
          }
        } else if t == EOF {
          return false, [];
        } else {
          if t == BAD_RECORD {
            if inFragmentedRecord {
              drops := drops + [|scratch|];
            }
          } else {
            drops := drops + [|fragment| + if inFragmentedRecord then |scratch| else 0];
          }
          scratch, inFragmentedRecord := [], false;
        }
      }
    }
  }

  /** The reader has put scratch together, and the file goes on at c with the rest of the record. */
  ghost predicate Halfway(file: seq<Byte>, sum: Checksum, start: nat, next: seq<Byte>, c: nat, scratch: seq<Byte>,
                          rest: seq<Byte>, inside: bool) {
    Agrees(file, c, Emitted(sum, c, rest, !inside)) &&
    start + |Emitted(sum, start, next, true)| == c + |Emitted(sum, c, rest, !inside)| &&
    next == scratch + rest && (!inside ==> scratch == [])
  }

  lemma NothingReadYet(file: seq<Byte>, sum: Checksum, start: nat, next: seq<Byte>)
    ensures Agrees(file, start, Emitted(sum, start, next, true)) ==>
      Halfway(file, sum, start, next, start, [], next, false)
  {
    hide Emitted, Agrees;
  }

  /** What the next physical record brings. */
  lemma ReadOn(file: seq<Byte>, sum: Checksum, start: nat, next: seq<Byte>, c: nat, scratch: seq<Byte>,
               rest: seq<Byte>, inside: bool)
      returns (rest': seq<Byte>)
    requires Halfway(file, sum, start, next, c, scratch, rest, inside)
    ensures var r, end := Parse(file, sum, RoundUp(c)), start + |Emitted(sum, start, next, true)|;
      r.dropped == [] &&
      (if r.t == EOF then end > |file|
       else if r.t == FULL then !inside && r.payload == next && r.next == end <= |file|
       else if r.t == LAST then inside && scratch + r.payload == next && r.next == end <= |file|
       else if r.t == FIRST then !inside && Halfway(file, sum, start, next, r.next, r.payload, rest', true)
       else r.t == MIDDLE && inside && Halfway(file, sum, start, next, r.next, scratch + r.payload, rest', true))
  {
    hide Emitted, Agrees, Parse, RoundUp, Room, Fragment;
    FragmentParses(file, sum, c, rest, !inside);
    var n := FragmentLength(c, |rest|);
    rest' := rest[n..];
    assert rest == rest[..n] + rest'  && (n == |rest| ==> rest[..n] == rest);
    assert (scratch + rest[..n]) + rest' == scratch + rest;
  }

  /** Unless it reports the end of the file, the parser moves on. */
  lemma ParseMoves(file: seq<Byte>, sum: Checksum, c: nat)
    ensures Parse(file, sum, RoundUp(c)).t != EOF ==> Parse(file, sum, RoundUp(c)).next > c
  {
  }

  lemma HeaderBytes(file: seq<Byte>, c: nat, pos: nat, buffer: seq<Byte>, length: nat)
    requires c <= pos <= |file| && buffer == file[c..pos] && |buffer| >= HEADER
    ensures buffer[4] == file[c + 4] && buffer[5] == file[c + 5] && buffer[6] == file[c + 6] &&
      buffer[..4] == file[c..c + 4]
    ensures HEADER + length <= |buffer| ==> buffer[HEADER..HEADER + length] == file[c + HEADER..c + HEADER + length]
    ensures HEADER + length <= |buffer| ==>
      buffer[6..HEADER + length] == [file[c + 6]] + file[c + HEADER..c + HEADER + length]
    ensures HEADER + length <= |buffer| ==> buffer[HEADER + length..] == file[c + HEADER + length..pos]
  {
    if HEADER + length <= |buffer| {
      var head := buffer[6..HEADER + length];
      var stored := file[c + 6..c + HEADER + length];
      forall i | 0 <= i < |head| ensures head[i] == stored[i] {
        assert buffer[6 + i] == file[c + (6 + i)] == stored[i];
      }
      assert head == stored;
      assert file[c + 6..c + HEADER + length] == [file[c + 6]] + file[c + HEADER..c + HEADER + length];
    }
  }

  /** Parsing what is left of the file, said of the buffer the reader holds. */
  lemma ParseOfBuffer(file: seq<Byte>, sum: Checksum, c: nat, pos: nat, buffer: seq<Byte>)
    requires c <= pos <= |file| && buffer == file[c..pos] && |buffer| >= HEADER && BufferEnd(file, c) == pos
    ensures var length: nat := (buffer[4] as nat) + 256 * (buffer[5] as nat);
      Parse(file, sum, c) ==
        if HEADER + length > |buffer| then
          if |file| < BlockEnd(c) then Parsed(EOF, [], pos, []) else Parsed(BAD_RECORD, [], pos, [|buffer|])
        else if buffer[6] == ZERO_TYPE && length == 0 then Parsed(BAD_RECORD, [], pos, [])
        else if buffer[..4] != sum(buffer[6..HEADER + length]) then Parsed(BAD_RECORD, [], pos, [|buffer|])
        else Parsed(buffer[6], buffer[HEADER..HEADER + length], c + HEADER + length, [])
  {
    hide BufferEnd, BlockEnd, RoundUp;
    var length: nat := (buffer[4] as nat) + 256 * (buffer[5] as nat);
    HeaderBytes(file, c, pos, buffer, length);
  }

  // ---- whole logs -----------------------------------------------------------------------------------

  lemma {:induction false} PrefixOfFile(sum: Checksum, records: seq<seq<Byte>>, m: nat)
    requires m <= |records|
    ensures FileOf(sum, records[..m]) <= FileOf(sum, records)
    decreases |records|
  {
    hide Emitted;
    var n := |records| - 1;
    if m <= n {
      PrefixOfFile(sum, records[..n], m);
      assert records[..n][..m] == records[..m];
    } else {
      assert records[..m] == records;
    }
  }

  /** Behind the first m records the file goes on with record m, as far as it goes. */
  lemma RecordFollows(sum: Checksum, records: seq<seq<Byte>>, m: nat, file: seq<Byte>)
    requires m < |records| && file <= FileOf(sum, records) && |FileOf(sum, records[..m])| <= |file|
    ensures var c := |FileOf(sum, records[..m])|;
      Agrees(file, c, Emitted(sum, c, records[m], true)) &&
      |FileOf(sum, records[..m + 1])| == c + |Emitted(sum, c, records[m], true)|
  {
    hide Emitted;
    var before, after, whole := FileOf(sum, records[..m]), FileOf(sum, records[..m + 1]), FileOf(sum, records);
    PrefixOfFile(sum, records, m + 1);
    assert records[..m + 1][..m] == records[..m];
    var bytes := Emitted(sum, |before|, records[m], true);
    assert after == before + bytes;
    forall i | 0 <= i < |bytes| && |before| + i < |file| ensures file[|before| + i] == bytes[i] {
      assert after[|before| + i] == bytes[i];
    }
  }

  /** m is how many records lie wholly within the first length bytes. */
  ghost predicate WhollyKept(sum: Checksum, records: seq<seq<Byte>>, length: nat, m: nat) {
    m <= |records| && |FileOf(sum, records[..m])| <= length &&
    (m < |records| ==> length < |FileOf(sum, records[..m + 1])|)
  }

  lemma {:induction false} FilesGrow(sum: Checksum, records: seq<seq<Byte>>, m: nat, n: nat)
    requires m <= n <= |records|
    ensures |FileOf(sum, records[..m])| <= |FileOf(sum, records[..n])|
  {
    PrefixOfFile(sum, records[..n], m);
    assert records[..n][..m] == records[..m];
  }

  lemma WhollyKeptIsUnique(sum: Checksum, records: seq<seq<Byte>>, length: nat, m: nat, n: nat)
    requires WhollyKept(sum, records, length, m) && WhollyKept(sum, records, length, n)
    ensures m == n
  {
    if m < n {
      FilesGrow(sum, records, m + 1, n);
    } else if n < m {
      FilesGrow(sum, records, n + 1, m);
    }
  }

  /** Reading a log that was cut anywhere, as a crash may leave it: exactly the records that are wholly in the
      file come back, in order, and nothing is reported as corrupt. */
  method ReadLog(file: seq<Byte>, sum: Checksum, ghost records: seq<seq<Byte>>)
      returns (out: seq<seq<Byte>>, drops: seq<nat>)
    requires file <= FileOf(sum, records)
    ensures WhollyKept(sum, records, |file|, |out|) && out == records[..|out|] && drops == []
  {
    hide Emitted, FileOf, Agrees;
    out := [];
    var reader := new Reader(file, sum);
    EmptyFile(sum, records);
    while true
      invariant reader.Valid() && fresh(reader) && reader.file == file && reader.sum == sum && reader.drops == []
      invariant |out| <= |records| && out == records[..|out|] && reader.Consumed() == |FileOf(sum, records[..|out|])|
      decreases |file| - reader.Consumed()
    {
      ghost var next, c := [], reader.Consumed();
      if |out| < |records| {
        next := records[|out|];
        RecordFollows(sum, records, |out|, file);
      } else {
        AtTheEnd(sum, records, file, c);
      }
      var ok, record := reader.ReadRecord(next);
      if !ok {
        break;
      }
      assert records[..|out| + 1] == records[..|out|] + [records[|out|]];
      out := out + [record];
    }
    drops := reader.drops;
  }

  lemma EmptyFile(sum: Checksum, records: seq<seq<Byte>>)
    ensures FileOf(sum, records[..0]) == []
  {
  }

  lemma AtTheEnd(sum: Checksum, records: seq<seq<Byte>>, file: seq<Byte>, c: nat)
    requires file <= FileOf(sum, records) && c == |FileOf(sum, records[..|records|])| <= |file|
    ensures c == |file| && forall bytes :: Agrees(file, c, bytes)
  {
    assert records[..|records|] == records;
  }

  /** Writing and reading: a writer that adds to an intact log, fresh or reopened, gives the log of all the records. */
  method AddRecords(sum: Checksum, ghost earlier: seq<seq<Byte>>, file: seq<Byte>, added: seq<seq<Byte>>)
      returns (file': seq<Byte>)
    requires file == FileOf(sum, earlier)
    ensures file' == FileOf(sum, earlier + added)
  {
    hide Emitted;
    var writer := new Writer(sum, file);
    assert earlier + added[..0] == earlier;
    for i := 0 to |added|
      invariant writer.Valid() && fresh(writer) && writer.sum == sum && writer.dest == FileOf(sum, earlier + added[..i])
    {
      writer.AddRecord(added[i]);
      assert (earlier + added[..i + 1])[..|earlier| + i] == earlier + added[..i];
    }
    assert earlier + added[..|added|] == earlier + added;
    file' := writer.dest;
  }
}
