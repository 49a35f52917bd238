/** Write batches as bytes: db/write_batch.cc. A 12-byte header with a sequence number and a count, then the records. */
module WriteBatches {
  import opened Options
  import opened Coding
  import opened MemTables

  const HEADER: nat := 12

  datatype Record = Put(key: Bytes, value: Bytes) | Delete(key: Bytes)

  datatype Corruption = TooSmall | BadPut | BadDelete | UnknownTag | WrongCount

  ghost predicate Fits(r: Record) {
    |r.key| + 8 < WORD32 && (r.Put? ==> |r.value| < WORD32)
  }

  function RecordBytes(r: Record): Bytes {
    match r
    case Put(key, value) => [VALUE] + Prefixed(key) + Prefixed(value)
    case Delete(key) => [DELETION] + Prefixed(key)
  }

  function RecordsBytes(rs: seq<Record>): Bytes {
    if |rs| == 0 then [] else RecordsBytes(rs[..|rs| - 1]) + RecordBytes(rs[|rs| - 1])
  }

  lemma {:induction false} RecordsBytesBoth(a: seq<Record>, b: seq<Record>)
    ensures RecordsBytes(a + b) == RecordsBytes(a) + RecordsBytes(b)
  {
    hide RecordBytes;
    if |b| == 0 {
      assert a + b == a;
    } else {
      var n := |b| - 1;
      RecordsBytesBoth(a, b[..n]);
      assert (a + b)[..|a| + n] == a + b[..n] && (a + b)[|a| + n] == b[n];
    }
  }

  lemma {:induction false} FirstRecord(rs: seq<Record>)
    requires |rs| > 0
    ensures RecordsBytes(rs) == RecordBytes(rs[0]) + RecordsBytes(rs[1..])
  {
    hide RecordBytes;
    RecordsBytesBoth([rs[0]], rs[1..]);
    assert [rs[0]] + rs[1..] == rs && [rs[0]][..0] == [];
  }

  // ---- parsing -----------------------------------------------------------------------------------

  /** One record, or what is wrong with it. */
  function ReadRecord(data: Bytes, p: nat): (r: (Option<Read<Record>>, Corruption))
    requires p < |data|
    ensures r.0.Some? ==> p < r.0.value.next <= |data|
  {
    if data[p] == VALUE then
      match GetPrefixed(data, p + 1)
      case None => (None, BadPut)
      case Some(Read(key, q)) =>
        (match GetPrefixed(data, q)
         case None => (None, BadPut)
         case Some(Read(value, next)) => (Some(Read(Put(key, value), next)), BadPut))
    else if data[p] == DELETION then
      match GetPrefixed(data, p + 1)
      case None => (None, BadDelete)
      case Some(Read(key, next)) => (Some(Read(Delete(key), next)), BadDelete)
    else (None, UnknownTag)
  }

  /** The records up to the end, or up to the first bad one. */
  function ReadRecords(data: Bytes, p: nat): (seq<Record>, Option<Corruption>)
    requires p <= |data|
    decreases |data| - p
  {
    if p == |data| then ([], None)
    else
      var (r, error) := ReadRecord(data, p);
      if r.None? then ([], Some(error))
      else var (rest, e) := ReadRecords(data, r.value.next); ([r.value.value] + rest, e)
  }

  lemma RecordComesBack(data: Bytes, p: nat, r: Record)
    requires Fits(r) && At(data, p, RecordBytes(r)) && p < |data|
    ensures ReadRecord(data, p).0 == Some(Read(r, p + |RecordBytes(r)|))
  {
    hide Prefixed, GetPrefixed;
    assert data[p..p + |RecordBytes(r)|][0] == data[p];
    match r
    case Put(key, value) =>
      AtParts(data, p, [VALUE] + Prefixed(key), Prefixed(value));
      AtParts(data, p, [VALUE], Prefixed(key));
      PrefixedRoundTrip(data, p + 1, key);
      PrefixedRoundTrip(data, p + 1 + |Prefixed(key)|, value);
    case Delete(key) =>
      AtParts(data, p, [DELETION], Prefixed(key));
      PrefixedRoundTrip(data, p + 1, key);
  }

  /** Reading the bytes of any records gives the records. */
  lemma {:induction false} RecordsComeBack(data: Bytes, p: nat, rs: seq<Record>)
    requires p <= |data| && data[p..] == RecordsBytes(rs) && forall r :: r in rs ==> Fits(r)
    ensures ReadRecords(data, p) == (rs, None)
    decreases |rs|
  {
    hide RecordBytes, ReadRecord, At;
    if |rs| > 0 {
      FirstRecord(rs);
      RecordIsLong(rs[0]);
      var q := p + |RecordBytes(rs[0])|;
      assert data[p..][|RecordBytes(rs[0])|..] == data[q..];
      StandsAt(data, p, RecordBytes(rs[0]), RecordsBytes(rs[1..]));
      RecordComesBack(data, p, rs[0]);
      RecordsComeBack(data, q, rs[1..]);
      assert [rs[0]] + rs[1..] == rs;
    }
  }

  lemma StandsAt(data: Bytes, p: nat, a: Bytes, b: Bytes)
    requires p <= |data| && data[p..] == a + b
    ensures At(data, p, a)
  {
    assert data[p..][..|a|] == data[p..p + |a|];
  }

  lemma RecordIsLong(r: Record)
    ensures |RecordBytes(r)| > 0
  {
  }

  // ---- batches -------------------------------------------------------------------------------------

  /** These bytes are a batch with these records. */
  ghost predicate IsBatch(rep: Bytes, records: seq<Record>) {
    |rep| >= HEADER && |records| < WORD32 && rep[8..12] == Fixed(|records|, 4) && rep[12..] == RecordsBytes(records) &&
    forall r :: r in records ==> Fits(r)
  }

  class WriteBatch {
    var rep: Bytes
    ghost var records: seq<Record>

    ghost predicate Valid()
      reads this
    {
      IsBatch(rep, records)
    }

    ghost function Sequence(): nat
      requires |rep| >= HEADER
      reads this
    {
      Unfixed(rep[..8])
    }

    constructor ()
      ensures Valid() && records == [] && Sequence() == 0
    {
      rep := seq(HEADER, _ => 0);
      records := [];
      new;
      assert rep[8..12] == [0, 0, 0, 0] && rep[..8] == [0, 0, 0, 0, 0, 0, 0, 0];
      ZeroHeader();
    }

    method Count() returns (n: nat)
      requires |rep| >= HEADER
      ensures n == Unfixed(rep[8..12]) && (Valid() ==> n == |records|)
    {
      assert rep[8..][..4] == rep[8..12];
      n := DecodeFixed32(rep[8..]);
      if Valid() {
        Widths();
        FixedRoundTrip(|records|, 4);
      }
    }

    method SetCount(n: nat)
      requires |rep| >= HEADER && n < WORD32
      modifies this`rep
      ensures |rep| == old(|rep|) && rep[..8] == old(rep[..8]) && rep[8..12] == Fixed(n, 4) &&
        rep[12..] == old(rep[12..])
    {
      var count := EncodeFixed32(n);
      rep := rep[..8] + count + rep[12..];
    }

    method SetSequence(sequence: nat)
      requires Valid() && sequence < WORD64
      modifies this`rep
      ensures Valid() && Sequence() == sequence
    {
      rep := Fixed(sequence, 8) + rep[8..];
      assert rep[..8] == Fixed(sequence, 8) && rep[8..12] == old(rep[8..12]) && rep[12..] == old(rep[12..]);
      Widths();
      FixedRoundTrip(sequence, 8);
    }

    /** The bytes of a batch that was written before. */
    method SetContents(contents: Bytes, ghost rs: seq<Record>)
      requires |contents| >= HEADER
      modifies this
      ensures rep == contents && records == rs
    {
      rep, records := contents, rs;
    }

    /** Put and Delete: one more record behind the others. */
    method Add(r: Record)
      requires Valid() && Fits(r) && |records| + 1 < WORD32
      modifies this
      ensures Valid() && records == old(records) + [r] && Sequence() == old(Sequence())
    {
      hide Prefixed, Fixed, Unfixed, RecordsBytes;
      var n := Count();
      SetCount(n + 1);
      var tail := EncodeRecord(r);
      Extend(rep, tail);
      OneRecord(records, r);
      rep := rep + tail;
      records := records + [r];
    }

    /** The records of the source behind the ones here. */
    method Append(source: WriteBatch)
      requires Valid() && source.Valid() && |records| + |source.records| < WORD32
      modifies this
      ensures Valid() && records == old(records) + old(source.records) && Sequence() == old(Sequence())
    {
      hide Fixed, Unfixed, RecordsBytes;
      var a := Count();
      var b := source.Count();
      ghost var more := source.records;
      var tail := source.rep[12..];
      SetCount(a + b);
      RecordsBytesBoth(records, more);
      Extend(rep, tail);
      rep := rep + tail;
      records := records + more;
    }

    /** Hands out the records one by one; a batch made by the other methods has nothing wrong. */
    method Iterate() returns (handled: seq<Record>, error: Option<Corruption>)
      ensures if |rep| < HEADER then handled == [] && error == Some(TooSmall)
              else var (rs, e) := ReadRecords(rep, HEADER);
              handled == rs && error == if e.None? && |rs| != Unfixed(rep[8..12]) then Some(WrongCount) else e
      ensures Valid() ==> handled == records && error == None
    {
      hide ReadRecord, GetPrefixed, RecordBytes, Unfixed, Fixed;
      handled := [];
      if |rep| < HEADER {
        return [], Some(TooSmall);
      }
      if Valid() {
        RecordsComeBack(rep, HEADER, records);
      }
      var p := HEADER;
      var found := 0;
      assert handled + ReadRecords(rep, p).0 == ReadRecords(rep, HEADER).0;
      while p < |rep|
        invariant HEADER <= p <= |rep| && found == |handled|
        invariant handled + ReadRecords(rep, p).0 == ReadRecords(rep, HEADER).0 &&
          ReadRecords(rep, p).1 == ReadRecords(rep, HEADER).1
        decreases |rep| - p
      {
        found := found + 1;
        var r, e := ParseRecord(rep, p);
        if r.None? {
          assert handled + [] == handled;
          return handled, Some(e);
        }
        assert handled + ([r.value.value] + ReadRecords(rep, r.value.next).0) ==
          (handled + [r.value.value]) + ReadRecords(rep, r.value.next).0;
        handled := handled + [r.value.value];
        p := r.value.next;
      }
      assert handled + [] == handled;
      var n := Count();
      error := if found != n then Some(WrongCount) else None;
    }

    /** InsertInto: the records go into the memtable with consecutive sequence numbers from that of the batch. */
    method InsertInto(mem: MemTable) returns (error: Option<Corruption>)
      requires Valid() && mem.Valid() && Sequence() + |records| <= MAX_SEQUENCE + 1
      requires forall x :: x in mem.entries ==> x.sequence < Sequence()
      modifies mem
      ensures Valid() && mem.Valid() && error == None
      ensures Inserted(old(mem.entries), mem.entries, records, |records|, Sequence())
    {
      hide Fixed, Unfixed, RecordsBytes, Valid, Inserted, Ascending, EntryBytes, ReadRecords, Storable, Fits, Sequence;
      ReadSequence();
      var sequence := DecodeFixed64(rep);
      ghost var first, before := sequence, mem.entries;
      var handled, e := Iterate();
      error := e;
      AllFit();
      NothingInserted(before, handled, first);
      for i := 0 to |handled|
        invariant mem.Valid() && sequence == first + i && Inserted(before, mem.entries, handled, i, first)
      {
        var r := handled[i];
        ghost var was := mem.entries;
        OlderThan(before, was, handled, i, first);
        BecomesStorable(r, sequence);
        mem.Add(sequence, if r.Put? then VALUE else DELETION, r.key, if r.Put? then r.value else []);
        OneMoreInserted(before, was, mem.entries, handled, i, first);
        sequence := sequence + 1;
      }
    }

    lemma AllFit()
      requires Valid()
      ensures forall i :: 0 <= i < |records| ==> Fits(records[i])
    {
    }

    lemma ReadSequence()
      requires Valid()
      ensures |rep| >= HEADER && Sequence() == Unfixed(rep[..8])
    {
    }
  }

  method EncodeRecord(r: Record) returns (bytes: Bytes)
    requires Fits(r)
    ensures bytes == RecordBytes(r)
  {
    hide Prefixed;
    var k := PutLengthPrefixedSlice(r.key);
    match r
    case Put(_, value) =>
      var v := PutLengthPrefixedSlice(value);
      bytes := [VALUE] + k + v;
    case Delete(_) => bytes := [DELETION] + k;
  }

  /** Bytes behind a batch leave its header alone. */
  lemma Extend(rep: Bytes, tail: Bytes)
    requires |rep| >= HEADER
    ensures var longer := rep + tail;
      longer[..8] == rep[..8] && longer[8..12] == rep[8..12] && longer[12..] == rep[12..] + tail
  {
  }

  lemma OneRecord(rs: seq<Record>, r: Record)
    ensures RecordsBytes(rs + [r]) == RecordsBytes(rs) + RecordBytes(r)
  {
    hide RecordBytes;
    assert (rs + [r])[..|rs|] == rs;
  }

  lemma ZeroHeader()
    ensures Fixed(0, 4) == [0, 0, 0, 0] && Unfixed([0, 0, 0, 0, 0, 0, 0, 0]) == 0
  {
    assert Fixed(0, 3) == [0] + Fixed(0, 2) && Fixed(0, 2) == [0] + Fixed(0, 1) && Fixed(0, 1) == [0] + Fixed(0, 0);
    ZeroBytes(8);
    assert seq(8, _ => 0) == [0, 0, 0, 0, 0, 0, 0, 0];
  }

  lemma {:induction false} ZeroBytes(n: nat)
    ensures Unfixed(seq(n, _ => 0)) == 0
  {
    if n > 0 {
      ZeroBytes(n - 1);
      assert seq(n, _ => 0)[1..] == seq(n - 1, _ => 0);
    }
  }

  /** The entry a record becomes. */
  function EntryOf(r: Record, sequence: nat): MemEntry {
    MemEntry(sequence, if r.Put? then VALUE else DELETION, r.key, if r.Put? then r.value else [])
  }

  lemma OneMoreIn(was: seq<MemEntry>, now: seq<MemEntry>, e: MemEntry)
    requires exists i :: 0 <= i <= |was| && now == was[..i] + [e] + was[i..]
    ensures forall x :: x in now <==> x in was || x == e
  {
    var i :| 0 <= i <= |was| && now == was[..i] + [e] + was[i..];
    assert was == was[..i] + was[i..];
  }

  /** The first n records have gone in, numbered from first on, and nothing else has changed. */
  ghost predicate Inserted(before: seq<MemEntry>, now: seq<MemEntry>, rs: seq<Record>, n: nat, first: nat)
    requires n <= |rs|
  {
    forall x :: x in now <==> x in before || exists j :: 0 <= j < n && x == EntryOf(rs[j], first + j)
  }

  lemma NothingInserted(before: seq<MemEntry>, rs: seq<Record>, first: nat)
    ensures Inserted(before, before, rs, 0, first)
  {
  }

  lemma BecomesStorable(r: Record, sequence: nat)
    requires Fits(r) && sequence <= MAX_SEQUENCE
    ensures Storable(EntryOf(r, sequence))
  {
  }

  lemma OlderThan(before: seq<MemEntry>, now: seq<MemEntry>, rs: seq<Record>, n: nat, first: nat)
    requires n <= |rs| && Inserted(before, now, rs, n, first) && forall x :: x in before ==> x.sequence < first
    ensures forall x :: x in now ==> x.sequence < first + n
  {
  }

  lemma OneMoreInserted(before: seq<MemEntry>, was: seq<MemEntry>, now: seq<MemEntry>, rs: seq<Record>, n: nat,
                        first: nat)
    requires n < |rs| && Inserted(before, was, rs, n, first)
    requires exists i :: 0 <= i <= |was| && now == was[..i] + [EntryOf(rs[n], first + n)] + was[i..]
    ensures Inserted(before, now, rs, n + 1, first)
  {
    OneMoreIn(was, now, EntryOf(rs[n], first + n));
  }

  method ParseRecord(data: Bytes, p: nat) returns (r: Option<Read<Record>>, error: Corruption)
    requires p < |data|
    ensures (r, error) == ReadRecord(data, p)
  {
    hide GetPrefixed;
    if data[p] == VALUE {
      var key := GetLengthPrefixedSlice(data, p + 1);
      if key.None? {
        return None, BadPut;
      }
      var value := GetLengthPrefixedSlice(data, key.value.next);
      if value.None? {
        return None, BadPut;
      }
      return Some(Read(Put(key.value.value, value.value.value), value.value.next)), BadPut;
    } else if data[p] == DELETION {
      var key := GetLengthPrefixedSlice(data, p + 1);
      if key.None? {
        return None, BadDelete;
      }
      return Some(Read(Delete(key.value.value), key.value.next)), BadDelete;
    }
    return None, UnknownTag;
  }
}
