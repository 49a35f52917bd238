/** DBImpl::RecoverLogFile: what a crash leaves of the last writes. The log of any batches, cut off anywhere, gives
  back every batch that is wholly there and nothing of any other. */
module Recovery {
  import opened Coding
  import opened MemTables
  import opened WriteBatches
  import Log

  datatype Batch = Batch(sequence: nat, records: seq<Record>)

  /** The bytes of a batch, which are one record of the log. */
  function Rep(b: Batch): Bytes {
    Fixed(b.sequence, 8) + Fixed(|b.records|, 4) + RecordsBytes(b.records)
  }

  function Reps(bs: seq<Batch>): (reps: seq<Bytes>)
    ensures |reps| == |bs|
  {
    seq(|bs|, i requires 0 <= i < |bs| => Rep(bs[i]))
  }

  ghost predicate Well(b: Batch) {
    |b.records| < WORD32 && 0 < b.sequence && b.sequence + |b.records| <= MAX_SEQUENCE + 1 &&
    forall r :: r in b.records ==> Fits(r)
  }

  /** Batches as the writers number them: one after the other, without overlap. */
  ghost predicate Numbered(bs: seq<Batch>) {
    (forall i :: 0 <= i < |bs| ==> Well(bs[i])) &&
    forall i, j :: 0 <= i < j < |bs| ==> bs[i].sequence + |bs[i].records| <= bs[j].sequence
  }

  /** The entry comes from this batch. */
  ghost predicate From(b: Batch, x: MemEntry) {
    exists j :: 0 <= j < |b.records| && x == EntryOf(b.records[j], b.sequence + j)
  }

  ghost predicate InSome(tables: seq<seq<MemEntry>>, x: MemEntry) {
    exists t :: 0 <= t < |tables| && x in tables[t]
  }

  /** The entry comes from one of the first m batches. */
  ghost predicate FromFirst(bs: seq<Batch>, m: nat, x: MemEntry)
    requires m <= |bs|
  {
    exists k :: 0 <= k < m && From(bs[k], x)
  }

  /** The tables together hold the entries of the first m batches, and no others. */
  ghost predicate Restored(bs: seq<Batch>, m: nat, tables: seq<seq<MemEntry>>)
    requires m <= |bs|
  {
    forall x :: InSome(tables, x) <==> FromFirst(bs, m, x)
  }

  /** Everything in a later table is newer. */
  ghost predicate Aged(tables: seq<seq<MemEntry>>) {
    forall s, t, x, y :: 0 <= s < t < |tables| && x in tables[s] && y in tables[t] ==> x.sequence < y.sequence
  }

  /** The largest sequence number the first m batches use, if it is above the start. */
  function LastSequence(bs: seq<Batch>, m: nat, start: nat): nat
    requires m <= |bs|
  {
    if m == 0 then start
    else
      var last, before := bs[m - 1].sequence + |bs[m - 1].records| - 1, LastSequence(bs, m - 1, start);
      if last > before then last else before
  }

  /** Nothing that was recovered is newer than the sequence number to go on from. */
  lemma {:induction false} LastIsLast(bs: seq<Batch>, m: nat, start: nat, x: MemEntry, k: nat)
    requires m <= |bs| && k < m && From(bs[k], x)
    ensures x.sequence <= LastSequence(bs, m, start)
  {
    if k < m - 1 {
      LastIsLast(bs, m - 1, start, x, k);
    }
  }

  lemma RepIsBatch(b: Batch)
    requires Well(b)
    ensures IsBatch(Rep(b), b.records) && Unfixed(Rep(b)[..8]) == b.sequence
  {
    hide Fixed, Unfixed, RecordsBytes;
    Widths();
    FixedRoundTrip(b.sequence, 8);
    assert Rep(b)[..8] == Fixed(b.sequence, 8) && Rep(b)[8..12] == Fixed(|b.records|, 4) &&
      Rep(b)[12..] == RecordsBytes(b.records);
  }

  /** Every batch that Put, Delete, Append and SetSequence can make has these bytes. */
  lemma BatchIsRep(rep: Bytes, records: seq<Record>)
    requires IsBatch(rep, records)
    ensures rep == Rep(Batch(Unfixed(rep[..8]), records))
  {
    hide Fixed, Unfixed, RecordsBytes;
    UnfixedIsBounded(rep[..8]);
    assert rep == rep[..8] + rep[8..12] + rep[12..];
  }

  // ---- one batch more -----------------------------------------------------------------------

  /** The tables written so far, and the entries of the memtable behind them. */
  ghost predicate SoFar(bs: seq<Batch>, m: nat, tables: seq<seq<MemEntry>>, mem: seq<MemEntry>) {
    m <= |bs| && Restored(bs, m, tables + [mem]) && Aged(tables + [mem])
  }

  lemma NothingYet(bs: seq<Batch>)
    ensures SoFar(bs, 0, [], [])
  {
  }

  /** What was recovered before is older than the next batch. */
  lemma OlderThanNext(bs: seq<Batch>, m: nat, tables: seq<seq<MemEntry>>, mem: seq<MemEntry>)
    requires SoFar(bs, m, tables, mem) && Numbered(bs) && m < |bs|
    ensures forall x :: x in mem ==> x.sequence < bs[m].sequence
    ensures forall t, x :: 0 <= t < |tables| && x in tables[t] ==> x.sequence < bs[m].sequence
  {
    hide Aged, Well;
    var all := tables + [mem];
    forall t, x: MemEntry | 0 <= t < |all| && x in all[t] ensures x.sequence < bs[m].sequence {
      assert InSome(all, x);
      var k :| 0 <= k < m && From(bs[k], x);
    }
    assert all[|tables|] == mem;
    forall t, x: MemEntry | 0 <= t < |tables| && x in tables[t] ensures x.sequence < bs[m].sequence {
      assert all[t] == tables[t];
    }
  }

  lemma InTables(tables: seq<seq<MemEntry>>, mem: seq<MemEntry>, x: MemEntry)
    ensures InSome(tables + [mem], x) <==> x in mem || InSome(tables, x)
  {
    var all := tables + [mem];
    if x in mem {
      assert x in all[|tables|];
    }
    if t :| 0 <= t < |tables| && x in tables[t] {
      assert x in all[t];
    }
  }

  lemma OneBatchMore(bs: seq<Batch>, m: nat, tables: seq<seq<MemEntry>>, mem: seq<MemEntry>, now: seq<MemEntry>)
    requires SoFar(bs, m, tables, mem) && Numbered(bs) && m < |bs|
    requires Inserted(mem, now, bs[m].records, |bs[m].records|, bs[m].sequence)
    ensures SoFar(bs, m + 1, tables, now)
  {
    hide Well, Numbered;
    assert Restored(bs, m + 1, tables + [now]) by {
      RestoredMore(bs, m, tables, mem, now);
    }
    assert Aged(tables + [now]) by {
      OlderThanNext(bs, m, tables, mem);
      AgedMore(tables, mem, now, bs[m]);
    }
  }

  lemma RestoredMore(bs: seq<Batch>, m: nat, tables: seq<seq<MemEntry>>, mem: seq<MemEntry>, now: seq<MemEntry>)
    requires m < |bs| && Restored(bs, m, tables + [mem]) &&
      Inserted(mem, now, bs[m].records, |bs[m].records|, bs[m].sequence)
    ensures Restored(bs, m + 1, tables + [now])
  {
    hide InSome;
    forall x ensures InSome(tables + [now], x) <==> FromFirst(bs, m + 1, x) {
      InTables(tables, mem, x);
      InTables(tables, now, x);
      assert x in now <==> x in mem || From(bs[m], x);
      assert FromFirst(bs, m + 1, x) <==> From(bs[m], x) || FromFirst(bs, m, x);
    }
  }

  lemma AgedMore(tables: seq<seq<MemEntry>>, mem: seq<MemEntry>, now: seq<MemEntry>, b: Batch)
    requires Aged(tables + [mem]) && Inserted(mem, now, b.records, |b.records|, b.sequence)
    requires forall t, x :: 0 <= t < |tables| && x in tables[t] ==> x.sequence < b.sequence
    ensures Aged(tables + [now])
  {
    var was, all := tables + [mem], tables + [now];
    forall s, t, x: MemEntry, y: MemEntry | 0 <= s < t < |all| && x in all[s] && y in all[t]
      ensures x.sequence < y.sequence
    {
      assert was[s] == all[s] == tables[s];
      if t < |tables| {
        assert was[t] == all[t];
      } else if y in mem {
        assert y in was[t];
      }
    }
  }

  lemma TableWritten(bs: seq<Batch>, m: nat, tables: seq<seq<MemEntry>>, mem: seq<MemEntry>)
    requires SoFar(bs, m, tables, mem)
    ensures SoFar(bs, m, tables + [mem], [])
  {
    hide InSome, FromFirst;
    var all := tables + [mem];
    forall x ensures InSome(all + [[]], x) <==> InSome(all, x) {
      InTables(all, [], x);
    }
    AgedWithNone(all);
  }

  lemma AgedWithNone(tables: seq<seq<MemEntry>>)
    ensures Aged(tables + [[]]) <==> Aged(tables)
  {
    var all := tables + [[]];
    assert forall t :: 0 <= t < |tables| ==> all[t] == tables[t];
    assert all[|tables|] == [];
  }

  lemma AllWritten(bs: seq<Batch>, m: nat, tables: seq<seq<MemEntry>>)
    requires SoFar(bs, m, tables, [])
    ensures m <= |bs| && Restored(bs, m, tables) && Aged(tables)
  {
    hide InSome, FromFirst;
    forall x ensures InSome(tables + [[]], x) <==> InSome(tables, x) {
      InTables(tables, [], x);
    }
    AgedWithNone(tables);
  }

  // ---- the log file ---------------------------------------------------------------------------

  ghost predicate Tables(tables: seq<MemTable>, held: seq<seq<MemEntry>>)
    reads tables
  {
    |held| == |tables| && forall t :: 0 <= t < |tables| ==> tables[t].Valid() && tables[t].entries == held[t]
  }

  lemma NoTables()
    ensures Tables([], [])
  {
  }

  lemma OneTableMore(tables: seq<MemTable>, held: seq<seq<MemEntry>>, mem: MemTable)
    requires Tables(tables, held) && mem.Valid()
    ensures Tables(tables + [mem], held + [mem.entries])
  {
  }

  /** One record of the log: the batch goes into the memtable, and the sequence number to go on from moves up. */
  method ReplayBatch(batch: WriteBatch, mem: MemTable, record: Bytes, maxSequence0: nat, ghost b: Batch)
      returns (maxSequence: nat)
    requires Well(b) && record == Rep(b) && mem.Valid() && forall x :: x in mem.entries ==> x.sequence < b.sequence
    modifies batch, mem
    ensures mem.Valid() && Inserted(old(mem.entries), mem.entries, b.records, |b.records|, b.sequence)
    ensures var last := b.sequence + |b.records| - 1; maxSequence == if last > maxSequence0 then last else maxSequence0
  {
    hide Inserted, IsBatch, Unfixed, Rep, Ascending, EntryBytes;
    RepIsBatch(b);
    RepIsLong(b);
    batch.SetContents(record, b.records);
    var error := batch.InsertInto(mem);
    var sequence := DecodeFixed64(batch.rep);
    var count := batch.Count();
    maxSequence := maxSequence0;
    var lastSeq := sequence + count - 1;
    if lastSeq > maxSequence {
      maxSequence := lastSeq;
    }
  }

  lemma RepIsLong(b: Batch)
    ensures |Rep(b)| >= HEADER
  {
    hide Fixed, RecordsBytes;
  }

  /** Behind which of the first m batches a memtable is full. */
  ghost function Ends(full: nat -> bool, m: nat): seq<nat> {
    if m == 0 then [] else Ends(full, m - 1) + (if full(m - 1) then [m] else [])
  }

  ghost function LastEnd(full: nat -> bool, m: nat): nat {
    var ends := Ends(full, m); if |ends| == 0 then 0 else ends[|ends| - 1]
  }

  /** The entries of the batches from a on and in front of b. */
  ghost predicate HoldsBetween(bs: seq<Batch>, a: nat, b: nat, table: seq<MemEntry>)
    requires b <= |bs|
  {
    forall x :: x in table <==> exists k :: a <= k < b && From(bs[k], x)
  }

  /** Each table holds the batches between two of the ends. */
  ghost predicate PartsAre(bs: seq<Batch>, ends: seq<nat>, held: seq<seq<MemEntry>>) {
    |held| == |ends| && forall t :: 0 <= t < |held| ==> PartIs(bs, ends, t, held[t])
  }

  ghost predicate PartIs(bs: seq<Batch>, ends: seq<nat>, t: nat, table: seq<MemEntry>)
    requires t < |ends|
  {
    ends[t] <= |bs| && HoldsBetween(bs, if t == 0 then 0 else ends[t - 1], ends[t], table)
  }

  lemma NoParts(bs: seq<Batch>)
    ensures PartsAre(bs, [], []) && HoldsBetween(bs, 0, 0, [])
  {
    NothingBetween(bs, 0);
  }

  lemma OnePartMore(bs: seq<Batch>, ends: seq<nat>, held: seq<seq<MemEntry>>, end: nat, table: seq<MemEntry>)
    requires PartsAre(bs, ends, held) && end <= |bs|
    requires HoldsBetween(bs, if |ends| == 0 then 0 else ends[|ends| - 1], end, table)
    ensures PartsAre(bs, ends + [end], held + [table])
  {
    hide HoldsBetween;
    var ends', held' := ends + [end], held + [table];
    forall t | 0 <= t < |held'| ensures PartIs(bs, ends', t, held'[t]) {
      if t < |held| {
        assert PartIs(bs, ends, t, held[t]);
        assert ends'[t] == ends[t] && held'[t] == held[t] && (t > 0 ==> ends'[t - 1] == ends[t - 1]);
      }
    }
  }

  lemma NextBetween(bs: seq<Batch>, a: nat, m: nat, mem: seq<MemEntry>, now: seq<MemEntry>)
    requires m < |bs| && a <= m && HoldsBetween(bs, a, m, mem)
    requires Inserted(mem, now, bs[m].records, |bs[m].records|, bs[m].sequence)
    ensures HoldsBetween(bs, a, m + 1, now)
  {
    forall x ensures x in now <==> exists k :: a <= k < m + 1 && From(bs[k], x) {
      assert x in now <==> x in mem || From(bs[m], x);
    }
  }

  lemma EndsMore(full: nat -> bool, m: nat)
    ensures LastEnd(full, m) <= m
    ensures full(m) ==> Ends(full, m + 1) == Ends(full, m) + [m + 1] && LastEnd(full, m + 1) == m + 1
    ensures !full(m) ==> Ends(full, m + 1) == Ends(full, m) && LastEnd(full, m + 1) == LastEnd(full, m)
  {
    if m > 0 {
      EndsMore(full, m - 1);
    }
  }

  lemma NoEnds(full: nat -> bool)
    ensures Ends(full, 0) == [] && LastEnd(full, 0) == 0
  {
  }

  lemma PartEnds(bs: seq<Batch>, full: nat -> bool, i: nat, held: seq<seq<MemEntry>>, table: seq<MemEntry>)
    requires i < |bs| && full(i) && PartsAre(bs, Ends(full, i), held) &&
      HoldsBetween(bs, LastEnd(full, i), i + 1, table)
    ensures PartsAre(bs, Ends(full, i + 1), held + [table]) &&
      HoldsBetween(bs, LastEnd(full, i + 1), i + 1, [])
  {
    hide PartsAre, HoldsBetween;
    EndsMore(full, i);
    OnePartMore(bs, Ends(full, i), held, i + 1, table);
    NothingBetween(bs, i + 1);
  }

  lemma LastPartEnds(bs: seq<Batch>, full: nat -> bool, m: nat, held: seq<seq<MemEntry>>, table: seq<MemEntry>)
    requires m <= |bs| && PartsAre(bs, Ends(full, m), held) && HoldsBetween(bs, LastEnd(full, m), m, table)
    ensures PartsAre(bs, Ends(full, m) + [m], held + [table])
  {
    hide PartsAre, HoldsBetween;
    OnePartMore(bs, Ends(full, m), held, m, table);
  }

  lemma NothingBetween(bs: seq<Batch>, a: nat)
    requires a <= |bs|
    ensures HoldsBetween(bs, a, a, [])
  {
    hide From;
    var none: seq<MemEntry> := [];
    assert HoldsBetween(bs, a, a, none);
  }

  /** Reads the log batch by batch into memtables; one that is full is written out, and so is the last one.  full says
      after which batch a memtable is full, maxSequence0 is the largest sequence number known before. */
  method RecoverLogFile(file: Bytes, sum: Log.Checksum, full: nat -> bool, maxSequence0: nat, ghost bs: seq<Batch>)
      returns (tables: seq<MemTable>, maxSequence: nat, ghost held: seq<seq<MemEntry>>, ghost m: nat)
    requires Numbered(bs) && file <= Log.FileOf(sum, Reps(bs))
    ensures Log.WhollyKept(sum, Reps(bs), |file|, m) && m <= |bs|
    ensures Tables(tables, held) && Restored(bs, m, held) && Aged(held) &&
      maxSequence == LastSequence(bs, m, maxSequence0)
    ensures PartsAre(bs, Ends(full, m) + (if LastEnd(full, m) < m then [m] else []), held)
  {
    hide PartsAre, HoldsBetween, Ends, LastEnd;
    hide Restored, Aged, Numbered, SoFar, Inserted, IsBatch, Rep, Unfixed, Tables, Well, Log.WhollyKept, Log.FileOf;
    hide Ascending, EntryBytes;
    var records, drops := Log.ReadLog(file, sum, Reps(bs));
    m := |records|;
    AllKept(sum, bs, |file|, m);
    tables, maxSequence, held := [], maxSequence0, [];
    var batch := new WriteBatch();
    var mem: MemTable? := null;
    ghost var inMem: seq<MemEntry> := [];
    NothingYet(bs);
    NoTables();
    NoParts(bs);
    NoEnds(full);
    for i := 0 to |records|
      invariant fresh(batch) && fresh(tables) &&
        (mem != null ==> fresh(mem) && mem !in tables && mem.Valid() && mem.entries == inMem)
      invariant (mem == null ==> inMem == []) && Tables(tables, held)
      invariant SoFar(bs, i, held, inMem) && maxSequence == LastSequence(bs, i, maxSequence0)
      invariant PartsAre(bs, Ends(full, i), held) && HoldsBetween(bs, LastEnd(full, i), i, inMem)
      invariant LastEnd(full, i) <= i && (mem == null <==> LastEnd(full, i) == i)
    {
      assert records[i] == Reps(bs)[i] == Rep(bs[i]);
      BatchIsWell(bs, i);
      LastMore(bs, i, maxSequence0);
      if mem == null {
        mem := new MemTable();
      }
      OlderThanNext(bs, i, held, inMem);
      maxSequence := ReplayBatch(batch, mem, records[i], maxSequence, bs[i]);
      OneBatchMore(bs, i, held, inMem, mem.entries);
      NextBetween(bs, LastEnd(full, i), i, inMem, mem.entries);
      inMem := mem.entries;
      EndsMore(full, i);
      if full(i) {
        PartEnds(bs, full, i, held, inMem);
        TableWritten(bs, i + 1, held, inMem);
        OneTableMore(tables, held, mem);
        tables, held := tables + [mem], held + [inMem];
        mem, inMem := null, [];
      }
    }
    if mem != null {
      LastPartEnds(bs, full, m, held, inMem);
      TableWritten(bs, m, held, inMem);
      OneTableMore(tables, held, mem);
      tables, held := tables + [mem], held + [inMem];
    }
    AllWritten(bs, m, held);
    assert Ends(full, m) + [] == Ends(full, m);
  }

  lemma AllKept(sum: Log.Checksum, bs: seq<Batch>, length: nat, m: nat)
    requires Log.WhollyKept(sum, Reps(bs), length, m)
    ensures m <= |bs|
  {
  }

  lemma LastMore(bs: seq<Batch>, i: nat, start: nat)
    requires i < |bs|
    ensures var last, before := bs[i].sequence + |bs[i].records| - 1, LastSequence(bs, i, start);
      LastSequence(bs, i + 1, start) == if last > before then last else before
  {
  }

  lemma BatchIsWell(bs: seq<Batch>, i: nat)
    requires Numbered(bs) && i < |bs|
    ensures Well(bs[i]) && bs[i].sequence > 0
  {
  }
}
