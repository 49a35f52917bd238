/** Opening the database after a crash, from the bytes that are left: the manifest and the logs together read like the
  map behind some of the writes, and the logs say which. */
module CrashRecovery {
  import opened Options
  import opened Coding
  import opened InternalKeys
  import opened ReadSpec
  import opened Versions
  import opened VersionEdits
  import opened Compactions
  import opened Install
  import opened Database
  import opened MapRefinement
  import opened ManifestReplay
  import opened ManifestRuns
  import opened ManifestFile
  import opened RunRecovery
  import opened CrashConsistency
  import Log
  import MemTables
  import Batches = WriteBatches
  import LogRecovery = Recovery

  // ---- writes as they are stored -----------------------------------------------------------------------

  /** Values are text in the model and byte strings in the log. */
  datatype Texts = Texts(encode: string -> Bytes, decode: Bytes -> string)

  /** The log can store the write, and what it stores can be told from other writes. */
  ghost predicate Spelled(names: Naming, texts: Texts, op: Op) {
    Named(names, op.user) &&
    if op.kind.Value? then texts.decode(texts.encode(op.value)) == op.value &&
        |texts.encode(op.value)| < WORD32 else op.value == ""
  }

  function RecordOfOp(names: Naming, texts: Texts, op: Op): Batches.Record {
    if op.kind.Value? then Batches.Put(names.encode(op.user), texts.encode(op.value))
        else Batches.Delete(names.encode(op.user))
  }

  /** The entry a recovered memtable holds, read as an entry of the model. */
  function EntryBack(names: Naming, texts: Texts, x: MemTables.MemEntry): Entry {
    var sequence := if x.sequence <= MAX_SEQUENCE then x.sequence else 0;
    if x.kind == MemTables.VALUE then Entry(IKey(names.decode(x.key), sequence, Value), texts.decode(x.value))
    else Entry(IKey(names.decode(x.key), sequence, Deletion), "")
  }

  lemma OpBack(names: Naming, texts: Texts, op: Op, sequence: SequenceNumber)
    requires Spelled(names, texts, op)
    ensures Batches.Fits(RecordOfOp(names, texts, op))
    ensures EntryBack(names, texts, Batches.EntryOf(RecordOfOp(names, texts, op), sequence)) == EntryOf(op, sequence)
  {
  }

  function BatchOf(names: Naming, texts: Texts, ops: seq<Op>, last: nat): (b: LogRecovery.Batch)
    ensures |b.records| == |ops|
  {
    LogRecovery.Batch(last + 1, seq(|ops|, i requires 0 <= i < |ops| => RecordOfOp(names, texts, ops[i])))
  }

  /** The batches that events i to j append to the log. */
  function BatchesOf(names: Naming, texts: Texts, states: seq<State>, events: seq<Event>, i: nat,
                     j: nat): seq<LogRecovery.Batch>
    requires |states| == |events| + 1 && i <= j <= |events|
    decreases j
  {
    if i == j then []
    else
      BatchesOf(names, texts, states, events, i, j - 1) +
      (if events[j - 1].Write? then [BatchOf(names, texts, events[j - 1].ops, states[j - 1].lastSequence)] else [])
  }

  /** The entries that events i to j write. */
  ghost function WrittenIn(states: seq<State>, events: seq<Event>, i: nat, j: nat): set<Entry>
    requires |states| == |events| + 1 && i <= j <= |events|
    decreases j
  {
    if i == j then {}
    else
      WrittenIn(states, events, i, j - 1) +
      (if events[j - 1].Write? then OpsEntries(events[j - 1].ops, states[j - 1].lastSequence) else {})
  }

  // ---- what the memtables hold ---------------------------------------------------------------------------

  lemma StepMem(st: State, ev: Event, st': State)
    requires Inv(st) && Next(st, ev, st')
    ensures Elements(st'.mem) == if ev.Switch? then {}
      else Elements(st.mem) + (if ev.Write? then OpsEntries(ev.ops, st.lastSequence) else {})
    ensures ev.Switch? ==> st.imm == None && st'.imm == Some(st.mem)
    ensures ev.Flush? ==> st'.imm == None
  {
    hide CompactStep, MoveStep, WriteAll, Inv, OpsEntries, Elements;
    match ev
    case Write(ops) => WriteAddsOps(st, ops);
    case Switch => NoElements();
    case Compact(level, inputs0, inputs1, input, outputs) =>
      CompactSettings(st, level, inputs0, inputs1, input, outputs, st');
    case Move(level, file) => MoveSettings(st, level, file, st');
    case _ =>
  }

  /** The memtable holds what was written since the last switch, the immutable one what was written before it and is
    not flushed. */
  lemma {:induction false} MemtablesHold(states: seq<State>, events: seq<Event>, n: nat)
    requires Run(states, events) && Inv(states[0]) && states[0].mem == [] && states[0].imm == None && n <= |events|
    ensures Elements(states[n].mem) == WrittenIn(states, events, SealedPart(events, n), n)
    ensures Elements(ImmEntries(states[n])) == WrittenIn(states, events, FlushedPart(events, n), SealedPart(events, n))
    ensures states[n].imm == None ==> FlushedPart(events, n) == SealedPart(events, n)
    decreases n
  {
    hide Inv, Next, OpsEntries, Elements;
    if n == 0 {
      NoElements();
    } else {
      var st, ev, st' := states[n - 1], events[n - 1], states[n];
      assert Next(states[n - 1], events[n - 1], states[n - 1 + 1]);
      MemtablesHold(states, events, n - 1);
      RunIsLayered(states, events, n - 1);
      StepMem(st, ev, st');
      StepMoves(st, ev, st');
      NoElements();
      if ev.Switch? {
        assert WrittenIn(states, events, n - 1, n) == {} + {};
      }
    }
  }

  lemma {:induction false} WrittenConcat(states: seq<State>, events: seq<Event>, i: nat, j: nat, k: nat)
    requires |states| == |events| + 1 && i <= j <= k <= |events|
    ensures WrittenIn(states, events, i, k) == WrittenIn(states, events, i, j) + WrittenIn(states, events, j, k)
    decreases k
  {
    hide OpsEntries;
    if j < k {
      WrittenConcat(states, events, i, j, k - 1);
    }
  }

  /** What events i to j write has the sequence numbers that these events use up. */
  lemma {:induction false} WrittenBetween(states: seq<State>, events: seq<Event>, i: nat, j: nat)
    requires Run(states, events) && i <= j <= |events|
    ensures forall e :: e in WrittenIn(states, events, i, j) ==>
      states[i].lastSequence < e.key.sequence <= states[j].lastSequence
    decreases j
  {
    hide Next, OpsEntries;
    if i < j {
      WrittenBetween(states, events, i, j - 1);
      assert Next(states[j - 1], events[j - 1], states[j - 1 + 1]);
      StepMoves(states[j - 1], events[j - 1], states[j]);
      SequencesGrow(states, events, i, j - 1);
      if events[j - 1].Write? {
        OpsBetween(states[j - 1], events[j - 1], states[j]);
      }
    }
  }

  lemma OpsBetween(st: State, ev: Event, st': State)
    requires Next(st, ev, st') && ev.Write?
    ensures forall e :: e in OpsEntries(ev.ops, st.lastSequence) ==>
      st.lastSequence < e.key.sequence <= st'.lastSequence
  {
    hide WriteAll;
    WriteMoves(st, ev.ops);
  }

  /** What a crash leaves of the memtables behind n steps, if it takes every write behind the first j. */
  lemma LeftIsWritten(states: seq<State>, events: seq<Event>, n: nat, j: nat)
    requires Run(states, events) && Inv(states[0]) && states[0].mem == [] && states[0].imm == None
    requires j <= n <= |events| && FlushedPart(events, n) <= j
    ensures Below(MemSet(states[n]), states[j].lastSequence) == WrittenIn(states, events, FlushedPart(events, n), j)
  {
    hide Inv, Next, WrittenIn, Elements;
    var f, i, s := FlushedPart(events, n), SealedPart(events, n), states[j].lastSequence;
    MemtablesHold(states, events, n);
    WrittenConcat(states, events, f, i, n);
    WrittenConcat(states, events, f, j, n);
    WrittenBetween(states, events, f, j);
    WrittenBetween(states, events, j, n);
  }

  // ---- what the logs give back --------------------------------------------------------------------------

  ghost predicate AllSpelled(names: Naming, texts: Texts, events: seq<Event>) {
    forall k, op :: 0 <= k < |events| && events[k].Write? && op in events[k].ops ==> Spelled(names, texts, op)
  }

  ghost predicate SmallWrites(events: seq<Event>) {
    forall k :: 0 <= k < |events| && events[k].Write? ==> |events[k].ops| < WORD32
  }

  lemma BatchIsWell(names: Naming, texts: Texts, ops: seq<Op>, last: nat)
    requires |ops| < WORD32 && last + |ops| < MAX_SEQUENCE && forall op :: op in ops ==> Spelled(names, texts, op)
    ensures LogRecovery.Well(BatchOf(names, texts, ops, last))
  {
    hide Spelled;
    var b := BatchOf(names, texts, ops, last);
    forall r | r in b.records ensures Batches.Fits(r) {
      var i :| 0 <= i < |ops| && b.records[i] == r;
      OpBack(names, texts, ops[i], 0);
    }
  }

  /** Every batch ends where the step that wrote it ends. */
  lemma {:induction false} BatchesAreNumbered(names: Naming, texts: Texts, states: seq<State>, events: seq<Event>,
                                              i: nat, j: nat)
    requires Run(states, events) && AllSpelled(names, texts, events) && SmallWrites(events) && i <= j <= |events|
    ensures var bs := BatchesOf(names, texts, states, events, i, j);
      LogRecovery.Numbered(bs) &&
      forall k :: 0 <= k < |bs| ==> bs[k].sequence + |bs[k].records| <= states[j].lastSequence + 1
    decreases j
  {
    hide Next, LogRecovery.Well, BatchOf, Spelled;
    if i < j {
      var st, ev, st' := states[j - 1], events[j - 1], states[j];
      BatchesAreNumbered(names, texts, states, events, i, j - 1);
      assert Next(states[j - 1], events[j - 1], states[j - 1 + 1]);
      StepMoves(st, ev, st');
      if ev.Write? {
        WriteFits(st, ev, st');
        BatchIsWell(names, texts, ev.ops, st.lastSequence);
        BatchFields(names, texts, ev.ops, st.lastSequence);
      }
    }
  }

  lemma WriteFits(st: State, ev: Event, st': State)
    requires Next(st, ev, st') && ev.Write?
    ensures st.lastSequence + |ev.ops| < MAX_SEQUENCE && st'.lastSequence == st.lastSequence + |ev.ops|
  {
    hide WriteAll;
    WriteMoves(st, ev.ops);
  }

  lemma BatchFields(names: Naming, texts: Texts, ops: seq<Op>, last: nat)
    ensures var b := BatchOf(names, texts, ops, last);
      b.sequence == last + 1 && |b.records| == |ops| &&
      forall p :: 0 <= p < |ops| ==> b.records[p] == RecordOfOp(names, texts, ops[p])
  {
  }

  /** Some entry of the batches reads as e. */
  ghost predicate Says(names: Naming, texts: Texts, bs: seq<LogRecovery.Batch>, e: Entry) {
    exists x :: LogRecovery.FromFirst(bs, |bs|, x) && EntryBack(names, texts, x) == e
  }

  ghost predicate SaysOne(names: Naming, texts: Texts, b: LogRecovery.Batch, e: Entry) {
    exists x :: LogRecovery.From(b, x) && EntryBack(names, texts, x) == e
  }

  lemma BatchSays(names: Naming, texts: Texts, ops: seq<Op>, last: nat, e: Entry)
    requires last + |ops| < MAX_SEQUENCE && forall op :: op in ops ==> Spelled(names, texts, op)
    ensures SaysOne(names, texts, BatchOf(names, texts, ops, last), e) <==> e in OpsEntries(ops, last)
  {
    hide Spelled, EntryOf, EntryBack, Batches.EntryOf, RecordOfOp, BatchOf;
    var b := BatchOf(names, texts, ops, last);
    BatchFields(names, texts, ops, last);
    if e in OpsEntries(ops, last) {
      var p :| 0 <= p < |ops| && last + 1 + p <= MAX_SEQUENCE && e == EntryOf(ops[p], last + 1 + p);
      OpBack(names, texts, ops[p], last + 1 + p);
      assert LogRecovery.From(b, Batches.EntryOf(b.records[p], b.sequence + p));
    }
    if SaysOne(names, texts, b, e) {
      var x :| LogRecovery.From(b, x) && EntryBack(names, texts, x) == e;
      var p :| 0 <= p < |b.records| && x == Batches.EntryOf(b.records[p], b.sequence + p);
      OpBack(names, texts, ops[p], last + 1 + p);
      assert e == EntryOf(ops[p], last + 1 + p);
    }
  }

  lemma SaysMore(names: Naming, texts: Texts, bs: seq<LogRecovery.Batch>, b: LogRecovery.Batch, e: Entry)
    ensures Says(names, texts, bs + [b], e) <==> Says(names, texts, bs, e) || SaysOne(names, texts, b, e)
  {
    hide LogRecovery.From, EntryBack;
    var all := bs + [b];
    if Says(names, texts, all, e) {
      var x :| LogRecovery.FromFirst(all, |all|, x) && EntryBack(names, texts, x) == e;
      var k :| 0 <= k < |all| && LogRecovery.From(all[k], x);
      assert k < |bs| ==> LogRecovery.From(bs[k], x) && LogRecovery.FromFirst(bs, |bs|, x);
    }
    if Says(names, texts, bs, e) {
      var x :| LogRecovery.FromFirst(bs, |bs|, x) && EntryBack(names, texts, x) == e;
      var k :| 0 <= k < |bs| && LogRecovery.From(bs[k], x);
      assert LogRecovery.From(all[k], x);
      assert LogRecovery.FromFirst(all, |all|, x);
    }
    if SaysOne(names, texts, b, e) {
      var x :| LogRecovery.From(b, x) && EntryBack(names, texts, x) == e;
      assert LogRecovery.From(all[|bs|], x);
      assert LogRecovery.FromFirst(all, |all|, x);
    }
  }

  /** The batches say exactly what the events write. */
  lemma {:induction false} BatchesSay(names: Naming, texts: Texts, states: seq<State>, events: seq<Event>, i: nat,
                                      j: nat, e: Entry)
    requires Run(states, events) && AllSpelled(names, texts, events) && i <= j <= |events|
    ensures Says(names, texts, BatchesOf(names, texts, states, events, i, j), e) <==>
      e in WrittenIn(states, events, i, j)
    decreases j
  {
    hide Next, BatchOf, Spelled, OpsEntries, Says, SaysOne, EntryBack;
    if i < j {
      var st, ev, st' := states[j - 1], events[j - 1], states[j];
      BatchesSay(names, texts, states, events, i, j - 1, e);
      assert Next(states[j - 1], events[j - 1], states[j - 1 + 1]);
      if ev.Write? {
        WriteFits(st, ev, st');
        BatchSays(names, texts, ev.ops, st.lastSequence, e);
        SaysMore(names, texts, BatchesOf(names, texts, states, events, i, j - 1),
                 BatchOf(names, texts, ev.ops, st.lastSequence), e);
      } else {
        assert BatchesOf(names, texts, states, events, i, j) == BatchesOf(names, texts, states, events, i, j - 1);
      }
    } else {
      NothingSaid(names, texts, e);
    }
  }

  lemma NothingSaid(names: Naming, texts: Texts, e: Entry)
    ensures !Says(names, texts, [], e)
  {
  }

  /** Every part of the batches is what the events up to some point wrote. */
  lemma {:induction false} PartIsPrefix(names: Naming, texts: Texts, states: seq<State>, events: seq<Event>, i: nat,
                                        n: nat, m: nat)
      returns (j: nat)
    requires |states| == |events| + 1 && i <= n <= |events| && m <= |BatchesOf(names, texts, states, events, i, n)|
    ensures i <= j <= n &&
      BatchesOf(names, texts, states, events, i, j) == BatchesOf(names, texts, states, events, i, n)[..m]
    ensures m == |BatchesOf(names, texts, states, events, i, n)| ==> j == n
    decreases n
  {
    hide BatchOf;
    var all := BatchesOf(names, texts, states, events, i, n);
    if m == |all| {
      j := n;
      assert all[..m] == all;
    } else {
      j := PartIsPrefix(names, texts, states, events, i, n - 1, m);
      assert all[..|BatchesOf(names, texts, states, events, i, n - 1)|][..m] == all[..m];
    }
  }

  /** The entries of the recovered memtables, read as entries of the model. */
  ghost function FoundIn(names: Naming, texts: Texts, held: seq<seq<MemTables.MemEntry>>): set<Entry> {
    set t, p | 0 <= t < |held| && 0 <= p < |held[t]| :: EntryBack(names, texts, held[t][p])
  }

  lemma FoundIsWritten(names: Naming, texts: Texts, states: seq<State>, events: seq<Event>, i: nat, n: nat, m: nat,
                       j: nat, held: seq<seq<MemTables.MemEntry>>)
    requires Run(states, events) && AllSpelled(names, texts, events) && i <= j <= n <= |events|
    requires m <= |BatchesOf(names, texts, states, events, i, n)|
    requires BatchesOf(names, texts, states, events, i, j) == BatchesOf(names, texts, states, events, i, n)[..m]
    requires LogRecovery.Restored(BatchesOf(names, texts, states, events, i, n), m, held)
    ensures FoundIn(names, texts, held) == WrittenIn(states, events, i, j)
  {
    hide Next, BatchesOf, WrittenIn, EntryBack, LogRecovery.From, AllSpelled;
    var bs, part := BatchesOf(names, texts, states, events, i, n), BatchesOf(names, texts, states, events, i, j);
    forall x ensures LogRecovery.FromFirst(part, |part|, x) <==> LogRecovery.InSome(held, x) {
      SamePart(bs, m, part, x);
    }
    forall e ensures e in FoundIn(names, texts, held) <==> e in WrittenIn(states, events, i, j) {
      BatchesSay(names, texts, states, events, i, j, e);
      if e in FoundIn(names, texts, held) {
        var t, p :| 0 <= t < |held| && 0 <= p < |held[t]| && EntryBack(names, texts, held[t][p]) == e;
        assert LogRecovery.InSome(held, held[t][p]);
      }
      if x :| LogRecovery.FromFirst(part, |part|, x) && EntryBack(names, texts, x) == e {
        assert LogRecovery.InSome(held, x);
        var t :| 0 <= t < |held| && x in held[t];
        var p :| 0 <= p < |held[t]| && held[t][p] == x;
        assert EntryBack(names, texts, held[t][p]) == e;
      }
    }
  }

  lemma SamePart(bs: seq<LogRecovery.Batch>, m: nat, part: seq<LogRecovery.Batch>, x: MemTables.MemEntry)
    requires m <= |bs| && part == bs[..m]
    ensures LogRecovery.FromFirst(part, |part|, x) <==> LogRecovery.FromFirst(bs, m, x)
  {
    hide LogRecovery.From;
    if LogRecovery.FromFirst(bs, m, x) {
      var k :| 0 <= k < m && LogRecovery.From(bs[k], x);
      assert LogRecovery.From(part[k], x);
    }
  }

  /** An entry of a log of the run: its key is the name of a user key. */
  ghost predicate Spelt(names: Naming, x: MemTables.MemEntry) {
    x.sequence <= MAX_SEQUENCE && x.kind <= MemTables.VALUE && Named(names, names.decode(x.key)) &&
    names.encode(names.decode(x.key)) == x.key
  }

  ghost predicate AllSpelt(names: Naming, held: seq<seq<MemTables.MemEntry>>) {
    forall t, x :: 0 <= t < |held| && x in held[t] ==> Spelt(names, x)
  }

  lemma BatchIsSpelt(names: Naming, texts: Texts, ops: seq<Op>, last: nat, x: MemTables.MemEntry)
    requires last + |ops| < MAX_SEQUENCE && forall op :: op in ops ==> Spelled(names, texts, op)
    requires LogRecovery.From(BatchOf(names, texts, ops, last), x)
    ensures Spelt(names, x)
  {
    hide BatchOf;
    BatchFields(names, texts, ops, last);
    var b := BatchOf(names, texts, ops, last);
    var p :| 0 <= p < |b.records| && x == Batches.EntryOf(b.records[p], b.sequence + p);
    assert Spelled(names, texts, ops[p]);
  }

  lemma {:induction false} BatchesAreSpelt(names: Naming, texts: Texts, states: seq<State>, events: seq<Event>,
                                           i: nat, j: nat, k: nat, x: MemTables.MemEntry)
    requires Run(states, events) && AllSpelled(names, texts, events) && i <= j <= |events|
    requires k < |BatchesOf(names, texts, states, events, i, j)| &&
      LogRecovery.From(BatchesOf(names, texts, states, events, i, j)[k], x)
    ensures Spelt(names, x)
    decreases j
  {
    hide Next, BatchOf, Spelled, Spelt, LogRecovery.From;
    if k < |BatchesOf(names, texts, states, events, i, j - 1)| {
      BatchesAreSpelt(names, texts, states, events, i, j - 1, k, x);
    } else {
      assert Next(states[j - 1], events[j - 1], states[j - 1 + 1]);
      WriteFits(states[j - 1], events[j - 1], states[j]);
      BatchIsSpelt(names, texts, events[j - 1].ops, states[j - 1].lastSequence, x);
    }
  }

  lemma HeldIsSpelt(names: Naming, texts: Texts, states: seq<State>, events: seq<Event>, i: nat, n: nat, m: nat,
                    held: seq<seq<MemTables.MemEntry>>)
    requires Run(states, events) && AllSpelled(names, texts, events) && i <= n <= |events|
    requires m <= |BatchesOf(names, texts, states, events, i, n)|
    requires LogRecovery.Restored(BatchesOf(names, texts, states, events, i, n), m, held)
    ensures AllSpelt(names, held)
  {
    hide Next, BatchesOf, AllSpelled, Spelt, LogRecovery.From;
    var bs := BatchesOf(names, texts, states, events, i, n);
    forall t, x | 0 <= t < |held| && x in held[t] ensures Spelt(names, x) {
      assert LogRecovery.InSome(held, x);
      var k :| 0 <= k < m && LogRecovery.From(bs[k], x);
      BatchesAreSpelt(names, texts, states, events, i, n, k, x);
    }
  }

  // ---- where to go on ------------------------------------------------------------------------------------

  lemma {:induction false} LastOfPart(bs: seq<LogRecovery.Batch>, m: nat, n: nat, start: nat)
    requires m <= n <= |bs|
    ensures LogRecovery.LastSequence(bs[..n], m, start) == LogRecovery.LastSequence(bs, m, start)
  {
    if m > 0 {
      LastOfPart(bs, m - 1, n, start);
    }
  }

  function Larger(s: nat, t: nat): nat {
    if s < t then t else s
  }

  /** The last sequence number known before, or the largest in the log: nothing left is newer. */
  lemma {:induction false} LastCovers(names: Naming, texts: Texts, states: seq<State>, events: seq<Event>, i: nat,
                                      j: nat, start: nat, known: nat)
    requires Run(states, events) && i <= j <= |events| && states[i].lastSequence <= Larger(known, start)
    ensures var bs := BatchesOf(names, texts, states, events, i, j);
      states[j].lastSequence <= Larger(known, LogRecovery.LastSequence(bs, |bs|, start))
    decreases j
  {
    hide Next, BatchOf;
    if i < j {
      var st, ev, st' := states[j - 1], events[j - 1], states[j];
      LastCovers(names, texts, states, events, i, j - 1, start, known);
      assert Next(states[j - 1], events[j - 1], states[j - 1 + 1]);
      StepMoves(st, ev, st');
      if ev.Write? {
        WriteFits(st, ev, st');
        BatchFields(names, texts, ev.ops, st.lastSequence);
        var before, bs := BatchesOf(names, texts, states, events, i, j - 1),
          BatchesOf(names, texts, states, events, i, j);
        LastOfPart(bs, |before|, |before|, start);
        assert bs[..|before|] == before;
      } else {
        assert BatchesOf(names, texts, states, events, i, j) == BatchesOf(names, texts, states, events, i, j - 1);
      }
    }
  }

  /** And no larger than what the run had used up. */
  lemma {:induction false} LastIsUsed(bs: seq<LogRecovery.Batch>, m: nat, start: nat, last: nat)
    requires m <= |bs| && start <= last && forall k :: 0 <= k < |bs| ==> bs[k].sequence + |bs[k].records| <= last + 1
    ensures LogRecovery.LastSequence(bs, m, start) <= last
  {
    if m > 0 {
      LastIsUsed(bs, m - 1, start, last);
    }
  }

  /** No flush behind the last logged step. */
  lemma {:induction false} NotFlushedSince(first: seq<Record>, states: seq<State>, events: seq<Event>, k: nat, n: nat)
    requires |states| == |events| + 1 && k <= n <= |events|
    requires LoggedBefore(first, states, events, k) == LoggedBefore(first, states, events, n)
    ensures FlushedPart(events, n) <= k
    decreases n
  {
    hide LoggedBefore, RecordAt;
    if k < n {
      LoggedStep(first, states, events, n - 1);
      OneRecordAtMost(states, events, n - 1);
      LoggedGrows(first, states, events, k, n - 1);
      NotFlushedSince(first, states, events, k, n - 1);
    }
  }

  // ---- opening ---------------------------------------------------------------------------------------------

  lemma FoundBoth(names: Naming, texts: Texts, a: seq<seq<MemTables.MemEntry>>, b: seq<seq<MemTables.MemEntry>>)
    ensures FoundIn(names, texts, a + b) == FoundIn(names, texts, a) + FoundIn(names, texts, b)
  {
    hide EntryBack;
    var all := a + b;
    forall e | e in FoundIn(names, texts, a) ensures e in FoundIn(names, texts, all) {
      var t, p :| 0 <= t < |a| && 0 <= p < |a[t]| && EntryBack(names, texts, a[t][p]) == e;
      assert all[t][p] == a[t][p];
    }
    forall e | e in FoundIn(names, texts, b) ensures e in FoundIn(names, texts, all) {
      var t, p :| 0 <= t < |b| && 0 <= p < |b[t]| && EntryBack(names, texts, b[t][p]) == e;
      assert all[|a| + t][p] == b[t][p];
    }
  }

  lemma {:induction false} LastGrows(bs: seq<LogRecovery.Batch>, m: nat, start: nat)
    requires m <= |bs|
    ensures start <= LogRecovery.LastSequence(bs, m, start)
  {
    if m > 0 {
      LastGrows(bs, m - 1, start);
    }
  }

  /** One log of the run: from the write behind step i to the one behind step n, cut off anywhere. */
  method ReadLog(file: Bytes, sum: Log.Checksum, full: nat -> bool, maxSequence0: nat, ghost names: Naming,
                 ghost texts: Texts, ghost states: seq<State>, ghost events: seq<Event>, ghost i: nat, ghost n: nat,
                 ghost known: nat)
      returns (tables: seq<MemTables.MemTable>, maxSequence: nat, ghost held: seq<seq<MemTables.MemEntry>>,
               ghost j: nat)
    requires Run(states, events) && AllSpelled(names, texts, events) && SmallWrites(events) && i <= n <= |events|
    requires file <= Log.FileOf(sum, LogRecovery.Reps(BatchesOf(names, texts, states, events, i, n)))
    ensures i <= j <= n && maxSequence0 <= maxSequence && LogRecovery.Tables(tables, held) &&
      FoundIn(names, texts, held) == WrittenIn(states, events, i, j)
    ensures Log.WhollyKept(sum, LogRecovery.Reps(BatchesOf(names, texts, states, events, i, n)), |file|,
                           |BatchesOf(names, texts, states, events, i, j)|)
    ensures file == Log.FileOf(sum, LogRecovery.Reps(BatchesOf(names, texts, states, events, i, n))) ==> j == n
    ensures states[i].lastSequence <= Larger(known, maxSequence0) ==>
      states[j].lastSequence <= Larger(known, maxSequence)
    ensures LogRecovery.Aged(held) && AllSpelt(names, held)
    ensures maxSequence0 <= states[n].lastSequence ==> maxSequence <= states[n].lastSequence
  {
    hide Spelt, AllSpelt;
    hide Next, BatchesOf, WrittenIn, FoundIn, Log.FileOf, LogRecovery.Numbered, LogRecovery.Restored, AllSpelled;
    hide LogRecovery.Aged, Log.WhollyKept;
    hide LogRecovery.Tables, LogRecovery.LastSequence;
    ghost var m;
    BatchesAreNumbered(names, texts, states, events, i, n);
    ghost var bs := BatchesOf(names, texts, states, events, i, n);
    tables, maxSequence, held, m := LogRecovery.RecoverLogFile(file, sum, full, maxSequence0, bs);
    j := PartIsPrefix(names, texts, states, events, i, n, m);
    FoundIsWritten(names, texts, states, events, i, n, m, j, held);
    HeldIsSpelt(names, texts, states, events, i, n, m, held);
    if maxSequence0 <= states[n].lastSequence {
      LastIsUsed(bs, m, maxSequence0, states[n].lastSequence);
    }
    if states[i].lastSequence <= Larger(known, maxSequence0) {
      LastCovers(names, texts, states, events, i, j, maxSequence0, known);
    }
    LastOfPart(bs, m, m, maxSequence0);
    LastGrows(bs, m, maxSequence0);
    if file == Log.FileOf(sum, LogRecovery.Reps(bs)) {
      AllKept(sum, LogRecovery.Reps(bs), m);
    }
  }

  /** The first records of the manifest are there if those of the first n steps are. */
  lemma FirstRecords(names: Naming, sum: Log.Checksum, written: seq<Written>, first: seq<Record>, states: seq<State>,
                     events: seq<Event>, n: nat, length: nat)
    requires |states| == |events| + 1 && n <= |events|
    requires Log.WhollyKept(sum, AllBytes(names, written), length, |LoggedBefore(first, states, events, n)|)
    ensures |first| <= |written| && |Log.FileOf(sum, AllBytes(names, written[..|first|]))| <= length
  {
    hide LoggedBefore, Log.FileOf, BytesOf;
    OnlyFirst(first, states, events);
    LoggedGrows(first, states, events, 0, n);
    var all, m := AllBytes(names, written), |LoggedBefore(first, states, events, n)|;
    Log.FilesGrow(sum, all, |first|, m);
    assert AllBytes(names, written[..|first|]) == all[..|first|];
  }

  /** The step recovery found is the last one that logged before the crash. */
  lemma SameMoment(first: seq<Record>, states: seq<State>, events: seq<Event>, n: nat, k: nat)
    requires Run(states, events) && n <= |events| && k <= |events| && JustLogged(states, events, k)
    requires |LoggedBefore(first, states, events, k)| == |LoggedBefore(first, states, events, n)|
    ensures k <= n && FlushedPart(events, n) <= k && states[k].version == states[n].version
    ensures states[FlushedPart(events, n)].lastSequence <= states[k].lastSequence
  {
    hide LoggedBefore, Next, RecordAt, EditOf;
    if n < k {
      LoggedStep(first, states, events, k - 1);
      OneRecordAtMost(states, events, k - 1);
      LoggedGrows(first, states, events, n, k - 1);
      assert false;
    }
    LoggedGrows(first, states, events, k, n);
    VersionSince(first, states, events, k, n);
    NotFlushedSince(first, states, events, k, n);
    SequencesGrow(states, events, FlushedPart(events, n), k);
  }

  lemma NothingKept(sum: Log.Checksum, records: seq<Bytes>, m: nat)
    requires Log.WhollyKept(sum, records, 0, m)
    ensures m == 0
  {
    FileIsLong(sum, records[..m]);
  }

  lemma FileIsLong(sum: Log.Checksum, records: seq<Bytes>)
    ensures |records| > 0 ==> |Log.FileOf(sum, records)| > 0
  {
  }

  lemma NothingWritten(names: Naming, texts: Texts, states: seq<State>, events: seq<Event>, i: nat, j: nat)
    requires Run(states, events) && AllSpelled(names, texts, events) && i <= j <= |events|
    requires |BatchesOf(names, texts, states, events, i, j)| == 0
    ensures WrittenIn(states, events, i, j) == {}
  {
    hide BatchesOf, WrittenIn, AllSpelled, Next;
    forall e ensures e !in WrittenIn(states, events, i, j) {
      BatchesSay(names, texts, states, events, i, j, e);
      NothingSaid(names, texts, e);
    }
  }

  /** A state without memtables that reads like the map, with a manifest that says what files it has. */
  ghost predicate Starts(first: seq<Record>, st: State, spec: Spec) {
    Inv(st) && ReadsLike(All(st), st.lastSequence, spec.current) && st.mem == [] && st.imm == None && Opens(first, st)
  }

  /** A run from such a state, with nothing the log cannot store and no compaction that a crash could show. */
  ghost predicate Sound(names: Naming, texts: Texts, first: seq<Record>, states: seq<State>, events: seq<Event>,
                        spec: Spec) {
    Run(states, events) && Starts(first, states[0], spec) && AllSpelled(names, texts, events) && SmallWrites(events) &&
    forall i :: 0 <= i < |events| ==> CrashSafe(states[i], events[i])
  }

  /** The log of the immutable memtable behind n steps, or of nothing, and that of the memtable. */
  function ImmLog(names: Naming, texts: Texts, states: seq<State>, events: seq<Event>, n: nat): seq<Bytes>
    requires |states| == |events| + 1 && n <= |events|
  {
    LogRecovery.Reps(BatchesOf(names, texts, states, events, FlushedPart(events, n), SealedPart(events, n)))
  }

  function MemLog(names: Naming, texts: Texts, states: seq<State>, events: seq<Event>, n: nat): seq<Bytes>
    requires |states| == |events| + 1 && n <= |events|
  {
    LogRecovery.Reps(BatchesOf(names, texts, states, events, SealedPart(events, n), n))
  }

  /** The logs DBImpl::Recover replays: of those in the directory the ones that the manifest still needs, oldest
    first. */
  method LogsToReplay(files: seq<nat>, minLog: nat, prevLog: nat) returns (logs: seq<nat>)
    requires forall i, j :: 0 <= i < j < |files| ==> files[i] != files[j]
    ensures forall n :: n in logs <==> n in files && (n >= minLog || n == prevLog)
    ensures forall i, j :: 0 <= i < j < |logs| ==> logs[i] < logs[j]
  {
    logs := [];
    for k := 0 to |files|
      invariant forall n :: n in logs <==> n in files[..k] && (n >= minLog || n == prevLog)
      invariant forall i, j :: 0 <= i < j < |logs| ==> logs[i] < logs[j]
    {
      var number := files[k];
      assert files[..k + 1] == files[..k] + [number];
      if number >= minLog || number == prevLog {
        logs := InOrder(logs, number);
      }
    }
    assert files[..|files|] == files;
  }

  function InOrder(logs: seq<nat>, number: nat): (r: seq<nat>)
    requires number !in logs && forall i, j :: 0 <= i < j < |logs| ==> logs[i] < logs[j]
    ensures forall i, j :: 0 <= i < j < |r| ==> r[i] < r[j]
    ensures forall n :: n in r <==> n in logs || n == number
  {
    if |logs| == 0 || number < logs[0] then [number] + logs
    else
      var rest := InOrder(logs[1..], number);
      assert logs == [logs[0]] + logs[1..];
      assert forall n :: n in logs[1..] ==> logs[0] < n;
      assert forall j :: 0 <= j < |rest| ==> rest[j] in rest;
      [logs[0]] + rest
  }

  /** DBImpl::Recover after a crash behind n steps: the manifest holds the records of these steps and perhaps a torn
    one; each log may be cut off anywhere, but nothing is left of the newer log if the older one is not whole. The
    files of the recovered version and the recovered memtables read like the map behind some j of the n steps, at the
    recovered last sequence number; j comes before no write that is wholly in a log, and it is n if nothing was cut
    off. */
  method Open(manifest: Bytes, immLog: Bytes, memLog: Bytes, sum: Log.Checksum, comparator: Bytes, names: Naming,
              disk: Disk, full: nat -> bool, ghost texts: Texts, ghost written: seq<Written>,
              ghost first: seq<Record>, ghost states: seq<State>, ghost events: seq<Event>, ghost spec: Spec,
              ghost n: nat)
      returns (r: Recovery, tables: seq<MemTables.MemTable>, imms: nat, lastSequence: nat,
               ghost held: seq<seq<MemTables.MemEntry>>, ghost j: nat)
    requires Sound(names, texts, first, states, events, spec) && n <= |events|
    requires ManifestOf(names, disk, comparator, written, first, states, events)
    requires manifest <= Log.FileOf(sum, AllBytes(names, written))
    requires Log.WhollyKept(sum, AllBytes(names, written), |manifest|, |LoggedBefore(first, states, events, n)|)
    requires immLog <= Log.FileOf(sum, ImmLog(names, texts, states, events, n)) &&
      memLog <= Log.FileOf(sum, MemLog(names, texts, states, events, n))
    requires immLog == Log.FileOf(sum, ImmLog(names, texts, states, events, n)) || memLog == []
    ensures r.Recovered? && r.version == states[n].version && LogRecovery.Tables(tables, held)
    ensures LogsBelow(RecordsOf(written)) ==> r.logNumber < r.nextFile
    ensures r.lastSequence <= lastSequence
    ensures imms <= |tables| && NumbersBelow(r.version, r.nextFile) && LogRecovery.Aged(held) && AllSpelt(names, held)
    ensures FlushedPart(events, n) <= j <= n && states[j].lastSequence <= lastSequence <= states[n].lastSequence
    ensures FoundIn(names, texts, held) == WrittenIn(states, events, FlushedPart(events, n), j)
    ensures ReadsLike(FoundIn(names, texts, held) + Stored(r.version), lastSequence, SpecRun(spec, events[..j]).current)
    ensures immLog != Log.FileOf(sum, ImmLog(names, texts, states, events, n)) ==>
      j <= SealedPart(events, n) &&
      Log.WhollyKept(sum, ImmLog(names, texts, states, events, n), |immLog|,
                     |BatchesOf(names, texts, states, events, FlushedPart(events, n), j)|)
    ensures immLog == Log.FileOf(sum, ImmLog(names, texts, states, events, n)) ==>
      SealedPart(events, n) <= j &&
      Log.WhollyKept(sum, MemLog(names, texts, states, events, n), |memLog|,
                     |BatchesOf(names, texts, states, events, SealedPart(events, n), j)|)
    ensures immLog == Log.FileOf(sum, ImmLog(names, texts, states, events, n)) ==>
      memLog == Log.FileOf(sum, MemLog(names, texts, states, events, n)) ==> j == n
  {
    hide Next, Inv, Opens, AllSpelled, SmallWrites, CrashSafe, ManifestOf, Log.FileOf, Log.WhollyKept, LoggedBefore;
    hide BatchesOf, WrittenIn, FoundIn;
    hide LogRecovery.Tables, ReadsLike, JustLogged, Stored, MemSet, AllBytes, LogRecovery.Aged, AllSpelt;
    hide NumbersBelow, LogsBelow;
    ghost var m, k, held1, held2, j2;
    ghost var f, i := FlushedPart(events, n), SealedPart(events, n);
    FirstRecords(names, sum, written, first, states, events, n, |manifest|);
    r, m, k := RecoverRun(manifest, sum, comparator, names, disk, written, first, states, events);
    Log.WhollyKeptIsUnique(sum, AllBytes(names, written), |manifest|, m, |LoggedBefore(first, states, events, n)|);
    SameMoment(first, states, events, n, k);
    RunIsLayered(states, events, k);
    NumbersOfInv(states[k]);
    SequencesGrow(states, events, k, n);
    SequencesGrow(states, events, i, n);
    var tables1, tables2, max1, max2;
    tables1, max1, held1, j := ReadLog(immLog, sum, full, 0, names, texts, states, events, f, i, r.lastSequence);
    tables2, max2, held2, j2 := ReadLog(memLog, sum, full, max1, names, texts, states, events, i, n, r.lastSequence);
    tables, imms, held := tables1 + tables2, |tables1|, held1 + held2;
    lastSequence := if r.lastSequence < max2 then max2 else r.lastSequence;
    FoundBoth(names, texts, held1, held2);
    TablesBoth(tables1, held1, tables2, held2);
    BothSpelt(names, held1, held2);
    BothAged(names, texts, states, events, f, i, j, j2, held1, held2);
    if immLog == Log.FileOf(sum, ImmLog(names, texts, states, events, n)) {
      WrittenConcat(states, events, f, i, j2);
      j := j2;
    } else {
      NothingKept(sum, MemLog(names, texts, states, events, n), |BatchesOf(names, texts, states, events, i, j2)|);
      NothingWritten(names, texts, states, events, i, j2);
    }
    LeftIsWritten(states, events, n, j);
    CrashReadsLike(states, events, spec, n, j, lastSequence);
    assert FoundIn(names, texts, held) == WrittenIn(states, events, f, j);
    assert FoundIn(names, texts, held) + Stored(r.version) == Left(states[n], states[j].lastSequence);
  }

  lemma NumbersOfInv(st: State)
    requires Inv(st)
    ensures NumbersBelow(st.version, st.nextFile)
  {
    hide Sorted, Newer, ValidVersion, NoneAfter, Stored;
  }

  lemma BothSpelt(names: Naming, a: seq<seq<MemTables.MemEntry>>, b: seq<seq<MemTables.MemEntry>>)
    requires AllSpelt(names, a) && AllSpelt(names, b)
    ensures AllSpelt(names, a + b)
  {
    hide Spelt;
  }

  /** What the older log held is older than what the newer one held. */
  lemma BothAged(names: Naming, texts: Texts, states: seq<State>, events: seq<Event>, f: nat, i: nat, j: nat, j2: nat,
                 a: seq<seq<MemTables.MemEntry>>, b: seq<seq<MemTables.MemEntry>>)
    requires Run(states, events) && f <= j <= i <= j2 <= |events|
    requires LogRecovery.Aged(a) && LogRecovery.Aged(b) && AllSpelt(names, a) && AllSpelt(names, b)
    requires FoundIn(names, texts, a) == WrittenIn(states, events, f, j) &&
      FoundIn(names, texts, b) == WrittenIn(states, events, i, j2)
    ensures LogRecovery.Aged(a + b)
  {
    hide Next, WrittenIn;
    WrittenBetween(states, events, f, j);
    WrittenBetween(states, events, i, j2);
    SequencesGrow(states, events, j, i);
    var all := a + b;
    forall s, t, x: MemTables.MemEntry, y: MemTables.MemEntry | 0 <= s < t < |all| && x in all[s] && y in all[t]
      ensures x.sequence < y.sequence
    {
      if s < |a| <= t {
        OneFound(names, texts, a, s, x);
        OneFound(names, texts, b, t - |a|, y);
      } else if t < |a| {
        assert x in a[s] && y in a[t];
      } else {
        assert x in b[s - |a|] && y in b[t - |a|];
      }
    }
  }

  lemma OneFound(names: Naming, texts: Texts, held: seq<seq<MemTables.MemEntry>>, t: nat, x: MemTables.MemEntry)
    requires t < |held| && x in held[t] && AllSpelt(names, held)
    ensures EntryBack(names, texts, x) in FoundIn(names, texts, held)
    ensures EntryBack(names, texts, x).key.sequence == x.sequence
  {
    assert Spelt(names, x);
    var p :| 0 <= p < |held[t]| && held[t][p] == x;
    assert EntryBack(names, texts, held[t][p]) == EntryBack(names, texts, x);
  }

  lemma TablesBoth(a: seq<MemTables.MemTable>, ha: seq<seq<MemTables.MemEntry>>, b: seq<MemTables.MemTable>,
                   hb: seq<seq<MemTables.MemEntry>>)
    requires LogRecovery.Tables(a, ha) && LogRecovery.Tables(b, hb)
    ensures LogRecovery.Tables(a + b, ha + hb)
  {
  }
}
