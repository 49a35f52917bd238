/** The files a running database keeps: every step appends what it must to the log of its memtable and to the
  manifest, so that what a crash leaves of them is what recovery asks for. */
module Durability {
  import opened Options
  import opened Coding
  import opened InternalKeys
  import opened ReadSpec
  import opened Versions
  import opened Overlap
  import opened VersionEdits
  import opened CompactionInputs
  import opened Compactions
  import opened Install
  import opened SnapshotReads
  import opened Database
  import opened MapRefinement
  import opened ManifestReplay
  import opened ManifestRuns
  import opened ManifestFile
  import opened RunRecovery
  import opened CrashConsistency
  import opened CrashRecovery
  import opened Reopening
  import opened DbImpl
  import Log
  import Batches = WriteBatches
  import Codec = VersionEditCodec
  import LogRecovery = Recovery

  // ---- one step more -----------------------------------------------------------------------------------------

  lemma {:induction false} PartsStay(events: seq<Event>, ev: Event, n: nat)
    requires n <= |events|
    ensures SealedPart(events + [ev], n) == SealedPart(events, n) &&
      FlushedPart(events + [ev], n) == FlushedPart(events, n)
    decreases n
  {
    if n > 0 {
      PartsStay(events, ev, n - 1);
    }
  }

  lemma PartsMove(events: seq<Event>, ev: Event)
    ensures var n := |events|;
      SealedPart(events + [ev], n + 1) == (if ev.Switch? then n else SealedPart(events, n)) &&
      FlushedPart(events + [ev], n + 1) == if ev.Flush? then SealedPart(events, n) else FlushedPart(events, n)
  {
    PartsStay(events, ev, |events|);
  }

  lemma {:induction false} BatchesStay(names: Naming, texts: Texts, states: seq<State>, events: seq<Event>, ev: Event,
                                       st: State, i: nat, j: nat)
    requires |states| == |events| + 1 && i <= j <= |events|
    ensures BatchesOf(names, texts, states + [st], events + [ev], i, j) == BatchesOf(names, texts, states, events, i, j)
    decreases j
  {
    hide BatchOf;
    if i < j {
      BatchesStay(names, texts, states, events, ev, st, i, j - 1);
    }
  }

  lemma BatchesMove(names: Naming, texts: Texts, states: seq<State>, events: seq<Event>, ev: Event, st: State, i: nat)
    requires |states| == |events| + 1 && i <= |events|
    ensures var n := |events|;
      BatchesOf(names, texts, states + [st], events + [ev], i, n + 1) == BatchesOf(names, texts, states, events, i, n) +
        if ev.Write? then [BatchOf(names, texts, ev.ops, states[n].lastSequence)] else []
  {
    hide BatchOf;
    BatchesStay(names, texts, states, events, ev, st, i, |events|);
  }

  lemma RunMore(states: seq<State>, events: seq<Event>, ev: Event, st: State)
    requires Run(states, events) && Next(states[|events|], ev, st)
    ensures Run(states + [st], events + [ev])
  {
    hide Next;
  }

  lemma LoggedMore(first: seq<Record>, states: seq<State>, events: seq<Event>, ev: Event, st: State)
    requires |states| == |events| + 1
    ensures var n := |events|;
      LoggedBefore(first, states + [st], events + [ev], n + 1) ==
        LoggedBefore(first, states, events, n) + RecordAt(states + [st], events + [ev], n)
  {
    hide Logged, EditOf, RecordAt;
    var n := |events|;
    LoggedStep(first, states + [st], events + [ev], n);
    assert (states + [st])[..n + 1] == states[..n + 1] && (events + [ev])[..n] == events[..n];
  }

  lemma OneMoreBatch(sum: Log.Checksum, bs: seq<LogRecovery.Batch>, b: LogRecovery.Batch)
    ensures var file := Log.FileOf(sum, LogRecovery.Reps(bs));
      Log.FileOf(sum, LogRecovery.Reps(bs + [b])) == file + Log.Emitted(sum, |file|, LogRecovery.Rep(b), true)
  {
    hide Log.Emitted, LogRecovery.Rep;
    assert LogRecovery.Reps(bs + [b])[..|bs|] == LogRecovery.Reps(bs);
  }

  // ---- the logs ------------------------------------------------------------------------------------------------

  /** The logs hold the writes of the memtable and of the immutable one. */
  ghost predicate LogsKept(sum: Log.Checksum, names: Naming, texts: Texts, states: seq<State>, events: seq<Event>,
                           log: Bytes, older: Bytes)
    requires |states| == |events| + 1
  {
    log == Log.FileOf(sum, MemLog(names, texts, states, events, |events|)) &&
    older == Log.FileOf(sum, ImmLog(names, texts, states, events, |events|))
  }

  /** What a step does to the logs: a write goes to the end of the newer one; behind a switch that is the older one,
    and a flush drops it. */
  function LogAfter(sum: Log.Checksum, names: Naming, texts: Texts, last: nat, ev: Event, log: Bytes): Bytes {
    match ev
    case Write(ops) => log + Log.Emitted(sum, |log|, LogRecovery.Rep(BatchOf(names, texts, ops, last)), true)
    case Switch => []
    case _ => log
  }

  function OlderAfter(ev: Event, log: Bytes, older: Bytes): Bytes {
    match ev
    case Switch => log
    case Flush(_, _) => []
    case _ => older
  }

  lemma NoLog(sum: Log.Checksum, names: Naming, texts: Texts, states: seq<State>, events: seq<Event>, i: nat)
    requires |states| == |events| + 1 && i <= |events|
    ensures Log.FileOf(sum, LogRecovery.Reps(BatchesOf(names, texts, states, events, i, i))) == []
  {
  }

  lemma LogsStayKept(sum: Log.Checksum, names: Naming, texts: Texts, states: seq<State>, events: seq<Event>,
                     ev: Event, st: State, log: Bytes, older: Bytes)
    requires Run(states, events) && Inv(states[0]) && states[0].mem == [] && states[0].imm == None
    requires Next(states[|events|], ev, st) && LogsKept(sum, names, texts, states, events, log, older)
    ensures LogsKept(sum, names, texts, states + [st], events + [ev],
                     LogAfter(sum, names, texts, states[|events|].lastSequence, ev, log), OlderAfter(ev, log, older))
  {
    hide Inv, BatchOf, LogRecovery.Reps, BatchesOf, SealedPart, FlushedPart, Log.Emitted, Log.FileOf, LogRecovery.Rep;
    hide WriteAll, CompactStep, MoveStep, FlushStep;
    var n, states', events' := |events|, states + [st], events + [ev];
    var s, f := SealedPart(events, n), FlushedPart(events, n);
    PartsMove(events, ev);
    BatchesMove(names, texts, states, events, ev, st, s);
    BatchesStay(names, texts, states, events, ev, st, f, s);
    BatchesStay(names, texts, states, events, ev, st, s, s);
    NoLog(sum, names, texts, states', events', n + 1);
    match ev
    case Write(ops) =>
      OneMoreBatch(sum, BatchesOf(names, texts, states, events, s, n),
                   BatchOf(names, texts, ops, states[n].lastSequence));
    case Switch =>
      MemtablesHold(states, events, n);
      BatchesMove(names, texts, states, events, ev, st, n);
      BatchesStay(names, texts, states, events, ev, st, s, n);
      NoLog(sum, names, texts, states, events, n);
      assert BatchesOf(names, texts, states, events, n, n) + [] == BatchesOf(names, texts, states, events, n, n);
    case Flush(_, _) =>
      NoLog(sum, names, texts, states, events, s);
      assert BatchesOf(names, texts, states, events, s, n) + [] == BatchesOf(names, texts, states, events, s, n);
    case _ =>
      assert BatchesOf(names, texts, states, events, s, n) + [] == BatchesOf(names, texts, states, events, s, n);
  }

  // ---- what can be stored ------------------------------------------------------------------------------------------

  /** Every key of the database has a name. */
  ghost predicate AllNamed(names: Naming, st: State) {
    forall e :: e in All(st) ==> Named(names, e.key.user)
  }

  /** A step adds no entry but those it writes. */
  lemma StepAddsOnly(st: State, ev: Event, st': State)
    requires Inv(st) && Next(st, ev, st')
    ensures All(st') <= All(st) + if ev.Write? then OpsEntries(ev.ops, st.lastSequence) else {}
  {
    hide Inv, Stored, FlushStep, CompactStep, MoveStep, Elements, OpsEntries, WriteAll;
    match ev
    case Write(ops) => WriteAddsOps(st, ops); WriteMoves(st, ops);
    case Switch => SwitchKeepsInv(st);
    case Flush(level, size) => FlushKeepsInv(st, level, size, st');
    case Compact(level, inputs0, inputs1, input, outputs) =>
      StepStores(st, ev, st');
      CompactSettings(st, level, inputs0, inputs1, input, outputs, st');
    case Move(level, file) => MoveKeepsInv(st, level, file, st');
    case _ => SameAll(st, st');
  }

  lemma OpsAreNamed(names: Naming, texts: Texts, ops: seq<Op>, last: nat)
    requires forall op :: op in ops ==> Spelled(names, texts, op)
    ensures forall e :: e in OpsEntries(ops, last) ==> Named(names, e.key.user)
  {
    forall e | e in OpsEntries(ops, last) ensures Named(names, e.key.user) {
      var p :| 0 <= p < |ops| && last + 1 + p <= MAX_SEQUENCE && e == EntryOf(ops[p], last + 1 + p);
      assert Spelled(names, texts, ops[p]);
    }
  }

  lemma NamesStay(names: Naming, texts: Texts, st: State, ev: Event, st': State)
    requires Inv(st) && Next(st, ev, st') && AllNamed(names, st)
    requires ev.Write? ==> forall op :: op in ev.ops ==> Spelled(names, texts, op)
    ensures AllNamed(names, st')
  {
    hide Inv, Next, All, Spelled, Named, OpsEntries;
    StepAddsOnly(st, ev, st');
    if ev.Write? {
      OpsAreNamed(names, texts, ev.ops, st.lastSequence);
    }
  }

  /** The sizes of the files a step makes can be stored. */
  ghost predicate SizesFit(files: seq<File>) {
    forall f :: f in files ==> f.size < WORD64
  }

  lemma FileIsStored(names: Naming, st: State, f: File)
    requires AllNamed(names, st) && ValidFile(f) && f.number < WORD64 && f.size < WORD64 &&
      Elements(f.entries) <= All(st)
    ensures StoresFile(names, f)
  {
    hide All, Named;
    EndsOfTable(f);
  }

  lemma EndsOfTable(f: File)
    requires ValidFile(f)
    ensures exists e :: e in Elements(f.entries) && e.key == f.smallest
    ensures exists e :: e in Elements(f.entries) && e.key == f.largest
  {
    assert f.entries[0] in Elements(f.entries) && f.entries[|f.entries| - 1] in Elements(f.entries);
  }

  /** The tables a step makes hold entries the database had. */
  lemma MadeHolds(st: State, ev: Event, st': State, f: File)
    requires Inv(st) && Next(st, ev, st') && f in Made(st, ev)
    ensures ValidFile(f) && Elements(f.entries) <= All(st)
  {
    hide Sorted, Legal, Survivors, Installed, Disjoint, OutputNumbers, ValidVersion, NumbersBelow, Newer, NoneAfter;
    hide Stored;
    match ev
    case Flush(level, size) => TableIsValid(ImmEntries(st), st.nextFile, size);
    case Compact(level, inputs0, inputs1, input, outputs) =>
      CompactionStepRan(st, level, inputs0, inputs1, input, outputs, st');
      MadeFromStored(st, ev, st', f);
    case _ =>
  }

  lemma MadeFromStored(st: State, ev: Event, st': State, f: File)
    requires Inv(st) && ev.Compact? && f in ev.outputs
    requires Ran(st.version, ev.level, ev.inputs0, ev.inputs1, ev.input, SmallestSnapshot(st), ev.outputs, st'.version)
    ensures Elements(f.entries) <= Stored(st.version)
  {
    hide Inv, ValidVersion, Sorted, Survivors, Disjoint, ValidFiles, Legal, Compacted, Stored;
    StoredAfterIsOld(st.version, ev.level, ev.inputs0, ev.inputs1, ev.input, SmallestSnapshot(st), ev.outputs,
                     st'.version);
    InputIsStored(st.version, ev.level, ev.inputs0, ev.inputs1, ev.input);
    forall e | e in f.entries ensures e in Stored(st.version) {
      InFiles(ev.outputs, f, e);
    }
  }

  lemma MadeIsStored(names: Naming, st: State, ev: Event, st': State)
    requires Inv(st) && Next(st, ev, st') && AllNamed(names, st) && st'.nextFile <= WORD64 && SizesFit(Made(st, ev))
    ensures forall f :: f in Made(st, ev) ==> StoresFile(names, f)
  {
    hide Inv, Next, All, AllNamed, StoresFile, Made, ValidFile;
    MadeIsNew(st, ev, st');
    forall f | f in Made(st, ev) ensures StoresFile(names, f) {
      MadeHolds(st, ev, st', f);
      FileIsStored(names, st, f);
    }
  }

  lemma DeletedAreOld(st: State, ev: Event, st': State, d: (nat, nat))
    requires Inv(st) && Next(st, ev, st') && EditOf(st, ev).Some? && d in EditOf(st, ev).value.deleted
    ensures d.0 < NUM_LEVELS && d.1 < st.nextFile
  {
    hide Sorted, Survivors, Installed, Disjoint, ValidFiles, OutputNumbers, LevelsValid, LevelsDisjoint, NumberIsAge;
    hide ShallowerIsNewer, UniqueNumbers, Newer, NoneAfter, Stored, Elements, FileEntries, Hull, Isolated;
    hide SeveredRun, Placed;
    match ev
    case Compact(level, inputs0, inputs1, _, _) => DeletedInputs(st.version, level, inputs0, inputs1, st.nextFile, d);
    case Move(level, file) => DeletedInputs(st.version, level, [file], [], st.nextFile, d);
    case _ =>
  }

  lemma DeletedInputs(v: Version, level: nat, inputs0: seq<File>, inputs1: seq<File>, next: nat, d: (nat, nat))
    requires |v| == NUM_LEVELS && Legal(v, level, inputs0, inputs1) && NumbersBelow(v, next)
    requires d in DeletionsOf(level, inputs0) + DeletionsOf(level + 1, inputs1)
    ensures d.0 < NUM_LEVELS && d.1 < next
  {
    hide Hull, Isolated, SeveredRun;
    SelectedAreFiles(v, level, inputs0, inputs1);
    UpperAreFiles(v, level, inputs0);
    if d in DeletionsOf(level, inputs0) {
      var i :| 0 <= i < |DeletionsOf(level, inputs0)| && DeletionsOf(level, inputs0)[i] == d;
      assert inputs0[i] in inputs0;
    } else {
      var i :| 0 <= i < |DeletionsOf(level + 1, inputs1)| && DeletionsOf(level + 1, inputs1)[i] == d;
      assert inputs1[i] in inputs1;
    }
  }

  lemma AddedInRange(edit: Edit, used: seq<set<nat>>, a: (nat, File))
    requires AddsFresh(edit, used) && a in edit.added
    ensures a.0 < NUM_LEVELS
  {
  }

  /** What a step logs can be stored, and so can what it leads to. */
  lemma StepIsStored(names: Naming, st: State, ev: Event, st': State, used: seq<set<nat>>)
    requires Inv(st) && Next(st, ev, st') && AllNamed(names, st) && st'.nextFile <= WORD64 && SizesFit(Made(st, ev))
    requires StoresVersion(names, st.version) && UsedFits(st.version, used, st.nextFile)
    ensures EditOf(st, ev).Some? ==> StoresEdit(names, EditOf(st, ev).value)
    ensures StoresVersion(names, st'.version)
  {
    hide Inv, Next, AllNamed, StoresFile, Made, EditOf, AddsFresh, Installed, UsedAfter, SizesFit, UsedFits;
    StepEditIsFresh(st, ev, st', used);
    MadeIsNew(st, ev, st');
    MadeIsStored(names, st, ev, st');
    if EditOf(st, ev).Some? {
      var edit := EditOf(st, ev).value;
      forall d | d in edit.deleted ensures d.0 < NUM_LEVELS && d.1 < WORD64 {
        DeletedAreOld(st, ev, st', d);
      }
      forall a | a in edit.added ensures a.0 < NUM_LEVELS && StoresFile(names, a.1) {
        AddedInRange(edit, used, a);
        AddedIsMadeOrMoved(st, ev, st', a);
      }
      VersionIsStored(names, st, edit, used);
    }
  }

  lemma VersionIsStored(names: Naming, st: State, edit: Edit, used: seq<set<nat>>)
    requires Inv(st) && StoresVersion(names, st.version) && StoresEdit(names, edit) && AddsFresh(edit, used)
    requires UsedFits(st.version, used, st.nextFile)
    ensures StoresVersion(names, Installed(st.version, edit))
  {
    hide Inv, StoresVersion, StoresEdit, AddsFresh, Installed, Ordered, Numbers;
    LevelsOfInv(st);
    InstalledIsStored(names, st.version, edit, used);
  }

  // ---- the manifest ---------------------------------------------------------------------------------------------

  /** The manifest file holds the records of the run behind those it started with, as they are in memory too. */
  ghost predicate ManifestKept(names: Naming, sum: Log.Checksum, comparator: Bytes, file: Bytes,
                               written: seq<Written>, first: seq<Record>, states: seq<State>, events: seq<Event>)
    requires |states| == |events| + 1
  {
    file == Log.FileOf(sum, AllBytes(names, written)) && !Refused(comparator, written) && AllStored(names, written) &&
    LogsBelow(RecordsOf(written)) && Alike(RecordsOf(written), LoggedBefore(first, states, events, |events|))
  }

  lemma RecordIsStored(names: Naming, r: Record, edit: Edit, log: nat, next: nat, last: nat)
    requires Tells(r, edit, log, next, last) && StoresEdit(names, edit) && next < WORD64 && last <= MAX_SEQUENCE
    ensures Stores(names, Written(r, None, []))
  {
    hide StoresEdit;
  }

  lemma AlikeMore(a: seq<Record>, b: seq<Record>, x: Record, y: Record)
    requires Alike(a, b) && x.edit == y.edit && x.counters.nextFile == y.counters.nextFile
    requires x.counters.lastSequence == y.counters.lastSequence && x.counters.logNumber.Some? &&
      y.counters.logNumber.Some?
    ensures Alike(a + [x], b + [y])
  {
  }

  lemma RecordsMore(written: seq<Written>, w: Written)
    ensures RecordsOf(written + [w]) == RecordsOf(written) + [w.record]
  {
  }

  lemma StoredMore(names: Naming, written: seq<Written>, w: Written)
    requires AllStored(names, written) && Stores(names, w)
    ensures AllStored(names, written + [w])
  {
    hide Stores;
  }

  lemma LogsBelowMore(records: seq<Record>, r: Record)
    requires LogsBelow(records) && LogBelow(r.counters)
    ensures LogsBelow(records + [r])
  {
  }

  /** A step that logs appends its record. */
  lemma ManifestGrows(names: Naming, sum: Log.Checksum, comparator: Bytes, file: Bytes, written: seq<Written>,
                      first: seq<Record>, states: seq<State>, events: seq<Event>, ev: Event, st: State, r: Record,
                      needed: nat)
    requires |states| == |events| + 1 && EditOf(states[|events|], ev).Some?
    requires ManifestKept(names, sum, comparator, file, written, first, states, events)
    requires Tells(r, EditOf(states[|events|], ev).value, needed, st.nextFile, st.lastSequence) &&
      Stores(names, Written(r, None, []))
    ensures ManifestKept(names, sum, comparator,
                         file + Log.Emitted(sum, |file|, BytesOf(names, Written(r, None, [])), true),
                         written + [Written(r, None, [])], first, states + [st], events + [ev])
  {
    hide Log.FileOf, Log.Emitted, BytesOf, EditOf, LoggedBefore, AllStored, Refused, Stores, LogsBelow, Alike;
    hide RecordsOf;
    var n, w := |events|, Written(r, None, []);
    OneMoreRecord(sum, names, written, w);
    NotRefusedMore(comparator, written, w);
    StoredMore(names, written, w);
    RecordsMore(written, w);
    LogsBelowMore(RecordsOf(written), r);
    LoggedMore(first, states, events, ev, st);
    var records := RecordAt(states + [st], events + [ev], n);
    AlikeMore(RecordsOf(written), LoggedBefore(first, states, events, n), r, records[0]);
  }

  /** Any other step leaves it as it is. */
  lemma ManifestStays(names: Naming, sum: Log.Checksum, comparator: Bytes, file: Bytes, written: seq<Written>,
                      first: seq<Record>, states: seq<State>, events: seq<Event>, ev: Event, st: State)
    requires |states| == |events| + 1 && EditOf(states[|events|], ev).None?
    requires ManifestKept(names, sum, comparator, file, written, first, states, events)
    ensures ManifestKept(names, sum, comparator, file, written, first, states + [st], events + [ev])
  {
    hide Log.FileOf, BytesOf, EditOf, LoggedBefore, AllStored, Refused, Stores, LogsBelow, Alike, RecordsOf;
    LoggedMore(first, states, events, ev, st);
    assert LoggedBefore(first, states, events, |events|) + [] == LoggedBefore(first, states, events, |events|);
  }

  // ---- all of it together ----------------------------------------------------------------------------------------

  /** A run from a state that a manifest opens, all of which can be stored. */
  ghost predicate HistoryOf(names: Naming, texts: Texts, first: seq<Record>, spec: Spec, states: seq<State>,
                            events: seq<Event>) {
    Run(states, events) && Starts(first, states[0], spec) && AllSpelled(names, texts, events) && SmallWrites(events) &&
    AllNamed(names, states[|events|]) && StoresVersion(names, states[|events|].version)
  }

  ghost predicate Storable(names: Naming, texts: Texts, ev: Event) {
    ev.Write? ==> |ev.ops| < WORD32 && forall op :: op in ev.ops ==> Spelled(names, texts, op)
  }

  lemma SpelledMore(names: Naming, texts: Texts, events: seq<Event>, ev: Event)
    requires AllSpelled(names, texts, events) && SmallWrites(events) && Storable(names, texts, ev)
    ensures AllSpelled(names, texts, events + [ev]) && SmallWrites(events + [ev])
  {
    hide Spelled;
  }

  lemma HistoryMore(names: Naming, texts: Texts, first: seq<Record>, spec: Spec, states: seq<State>,
                    events: seq<Event>, ev: Event, st: State)
    requires HistoryOf(names, texts, first, spec, states, events) && Inv(states[|events|])
    requires Next(states[|events|], ev, st) && Storable(names, texts, ev) && StoresVersion(names, st.version)
    ensures HistoryOf(names, texts, first, spec, states + [st], events + [ev])
  {
    hide Inv, Next, Starts, AllSpelled, SmallWrites, AllNamed, StoresVersion, Spelled, Run;
    RunLength(states, events);
    RunMore(states, events, ev, st);
    SpelledMore(names, texts, events, ev);
    NamesStay(names, texts, states[|events|], ev, st);
  }

  lemma RunLength(states: seq<State>, events: seq<Event>)
    requires Run(states, events)
    ensures |states| == |events| + 1
  {
    hide Next;
  }

  /** The files hold what recovery asks for. */
  ghost predicate FilesKept(names: Naming, texts: Texts, sum: Log.Checksum, comparator: Bytes, first: seq<Record>,
                            spec: Spec, states: seq<State>, events: seq<Event>, written: seq<Written>, log: Bytes,
                            older: Bytes, manifest: Bytes) {
    HistoryOf(names, texts, first, spec, states, events) && LogsKept(sum, names, texts, states, events, log, older) &&
    ManifestKept(names, sum, comparator, manifest, written, first, states, events)
  }

  lemma StartFacts(first: seq<Record>, st: State, spec: Spec)
    requires Starts(first, st, spec)
    ensures Inv(st) && st.mem == [] && st.imm == None
  {
  }

  /** A step that writes no record of the manifest. */
  lemma FilesKeptUnlogged(names: Naming, texts: Texts, sum: Log.Checksum, comparator: Bytes, first: seq<Record>,
                          spec: Spec, states: seq<State>, events: seq<Event>, written: seq<Written>, log: Bytes,
                          older: Bytes, manifest: Bytes, ev: Event, st: State)
    requires FilesKept(names, texts, sum, comparator, first, spec, states, events, written, log, older, manifest)
    requires Inv(states[|events|]) && Next(states[|events|], ev, st) && Storable(names, texts, ev)
    requires EditOf(states[|events|], ev).None?
    ensures FilesKept(names, texts, sum, comparator, first, spec, states + [st], events + [ev], written,
                 LogAfter(sum, names, texts, states[|events|].lastSequence, ev, log), OlderAfter(ev, log, older),
                   manifest)
  {
    hide Inv, Next, Starts, AllSpelled, SmallWrites, AllNamed, StoresVersion, Storable, LogsKept, ManifestKept, EditOf;
    hide LogAfter, OlderAfter, Run;
    RunLength(states, events);
    StartFacts(first, states[0], spec);
    UnloggedKeepsVersion(states[|events|], ev, st);
    HistoryMore(names, texts, first, spec, states, events, ev, st);
    LogsStayKept(sum, names, texts, states, events, ev, st, log, older);
    ManifestStays(names, sum, comparator, manifest, written, first, states, events, ev, st);
  }

  /** A step that does, with the record that says what it did. */
  lemma FilesKeptLogged(names: Naming, texts: Texts, sum: Log.Checksum, comparator: Bytes, first: seq<Record>,
                        spec: Spec, states: seq<State>, events: seq<Event>, written: seq<Written>, log: Bytes,
                        older: Bytes, manifest: Bytes, ev: Event, st: State, r: Record, needed: nat,
                        used: seq<set<nat>>)
    requires FilesKept(names, texts, sum, comparator, first, spec, states, events, written, log, older, manifest)
    requires Inv(states[|events|]) && Next(states[|events|], ev, st) && EditOf(states[|events|], ev).Some?
    requires Tells(r, EditOf(states[|events|], ev).value, needed, st.nextFile, st.lastSequence) &&
      st.nextFile < WORD64
    requires SizesFit(Made(states[|events|], ev)) && UsedFits(states[|events|].version, used, states[|events|].nextFile)
    ensures Stores(names, Written(r, None, []))
    ensures FilesKept(names, texts, sum, comparator, first, spec, states + [st], events + [ev],
                      written + [Written(r, None, [])],
                 LogAfter(sum, names, texts, states[|events|].lastSequence, ev, log), OlderAfter(ev, log, older),
                 manifest + Log.Emitted(sum, |manifest|, BytesOf(names, Written(r, None, [])), true))
  {
    hide Inv, Next, Starts, AllSpelled, SmallWrites, AllNamed, StoresVersion, LogsKept, ManifestKept, EditOf, Tells;
    hide LogAfter, OlderAfter, Run, Stores, StoresEdit, SizesFit, UsedFits, Made, Log.Emitted, BytesOf;
    RunLength(states, events);
    StartFacts(first, states[0], spec);
    StepIsStored(names, states[|events|], ev, st, used);
    LoggedIsNoWrite(states[|events|], ev);
    HistoryMore(names, texts, first, spec, states, events, ev, st);
    LogsStayKept(sum, names, texts, states, events, ev, st, log, older);
    RecordIsStored(names, r, EditOf(states[|events|], ev).value, needed, st.nextFile, st.lastSequence);
    ManifestGrows(names, sum, comparator, manifest, written, first, states, events, ev, st, r, needed);
  }

  lemma LoggedIsNoWrite(st: State, ev: Event)
    requires EditOf(st, ev).Some?
    ensures !ev.Write?
  {
  }

  /** The bytes of the batch that a write makes. */
  method MakeBatch(names: Naming, texts: Texts, ops: seq<Op>, last: nat) returns (rep: Bytes)
    requires |ops| < WORD32 && last + 1 < WORD64 && forall op :: op in ops ==> Spelled(names, texts, op)
    ensures rep == LogRecovery.Rep(BatchOf(names, texts, ops, last))
  {
    hide Spelled, LogRecovery.Rep, RecordOfOp, Batches.Fits, Batches.RecordsBytes, Fixed, Unfixed;
    var batch := new Batches.WriteBatch();
    batch.SetSequence(last + 1);
    for i := 0 to |ops|
      invariant batch.Valid() && batch.Sequence() == last + 1 && |batch.records| == i && fresh(batch)
      invariant forall k :: 0 <= k < i ==> batch.records[k] == RecordOfOp(names, texts, ops[k])
    {
      assert ops[i] in ops;
      OpBack(names, texts, ops[i], 0);
      batch.Add(RecordOfOp(names, texts, ops[i]));
    }
    rep := batch.rep;
    LogRecovery.BatchIsRep(rep, batch.records);
    BatchFields(names, texts, ops, last);
    assert batch.records == BatchOf(names, texts, ops, last).records;
  }

  /** What a new manifest holds can be written to its file. */
  ghost predicate CanStart(names: Naming, first: seq<Record>, st: State) {
    AllNamed(names, st) && StoresVersion(names, st.version) && LogsBelow(first) && RecordsFit(names, first)
  }

  ghost predicate RecordsFit(names: Naming, records: seq<Record>) {
    forall i :: 0 <= i < |records| ==> StoresEdit(names, records[i].edit) && StoresCounters(records[i].counters)
  }

  /** A new manifest file: the first record names the comparator. */
  method WriteRecords(writer: Log.Writer, names: Naming, comparator: Bytes, records: seq<Record>)
      returns (ghost written: seq<Written>)
    requires writer.Valid() && writer.dest == [] && |comparator| < WORD32 && RecordsFit(names, records)
    modifies writer
    ensures writer.Valid() && writer.dest == Log.FileOf(writer.sum, AllBytes(names, written))
    ensures RecordsOf(written) == records && AllStored(names, written) && !Refused(comparator, written)
  {
    hide Log.FileOf, Log.Emitted, BytesOf, AllStored, Refused, Stores, StoresEdit, StoresCounters, Codec.Storable;
    written := [];
    NothingWrittenYet(writer.sum, names, comparator);
    for i := 0 to |records|
      invariant writer.Valid() && writer.dest == Log.FileOf(writer.sum, AllBytes(names, written)) && |written| == i
      invariant RecordsOf(written) == records[..i] && AllStored(names, written) && !Refused(comparator, written)
    {
      var r, named := records[i], if i == 0 then Some(comparator) else None;
      ghost var w := Written(r, named, []);
      StartIsStored(names, w);
      var record := Encode(names, r.edit, r.counters, named, []);
      OneMoreRecord(writer.sum, names, written, w);
      NotRefusedMore(comparator, written, w);
      StoredMore(names, written, w);
      RecordsMore(written, w);
      writer.AddRecord(record);
      written := written + [w];
      assert records[..i + 1] == records[..i] + [r];
    }
  }

  lemma NothingWrittenYet(sum: Log.Checksum, names: Naming, comparator: Bytes)
    ensures Log.FileOf(sum, AllBytes(names, [])) == [] && AllStored(names, []) && !Refused(comparator, [])
    ensures RecordsOf([]) == []
  {
  }

  lemma StartIsStored(names: Naming, w: Written)
    requires StoresEdit(names, w.record.edit) && StoresCounters(w.record.counters) && w.pointers == []
    requires w.comparator.Some? ==> |w.comparator.value| < WORD32
    ensures Stores(names, w)
  {
    hide StoresEdit;
  }

  lemma StartIsKept(names: Naming, texts: Texts, sum: Log.Checksum, comparator: Bytes, first: seq<Record>, spec: Spec,
                    st: State, written: seq<Written>, manifest: Bytes)
    requires Starts(first, st, spec) && CanStart(names, first, st) && RecordsOf(written) == first
    requires manifest == Log.FileOf(sum, AllBytes(names, written)) && AllStored(names, written)
    requires !Refused(comparator, written)
    ensures FilesKept(names, texts, sum, comparator, first, spec, [st], [], written, [], [], manifest)
  {
    hide Starts, AllNamed, StoresVersion, LogsBelow, Log.FileOf, AllStored, Refused, RecordsOf, StoresEdit;
    hide LoggedBefore;
    OnlyFirst(first, [st], []);
    NoLog(sum, names, texts, [st], [], 0);
    assert Alike(first, first);
  }

  /** j comes before no write that is wholly in what is left of a log, and it is the end if nothing was lost. */
  ghost predicate RightPart(sum: Log.Checksum, names: Naming, texts: Texts, states: seq<State>, events: seq<Event>,
                            log: Bytes, older: Bytes, left: Bytes, olderLeft: Bytes, j: nat)
    requires |states| == |events| + 1 && FlushedPart(events, |events|) <= j <= |events|
  {
    var n := |events|;
    if olderLeft == older then
      SealedPart(events, n) <= j && (left == log ==> j == n) &&
      Log.WhollyKept(sum, MemLog(names, texts, states, events, n), |left|,
                     |BatchesOf(names, texts, states, events, SealedPart(events, n), j)|)
    else
      j <= SealedPart(events, n) &&
      Log.WhollyKept(sum, ImmLog(names, texts, states, events, n), |olderLeft|,
                     |BatchesOf(names, texts, states, events, FlushedPart(events, n), j)|)
  }

  /** The logs of an object, oldest first: the last is that of the memtable, the one before that of the immutable
    memtable while there is one, and the number recorded last is that of the oldest of these two. */
  ghost predicate LogsMade(logs: seq<nat>, waiting: bool, needed: nat, current: nat) {
    |logs| > 0 && (forall i, j :: 0 <= i < j < |logs| ==> logs[i] < logs[j]) && logs[|logs| - 1] == current &&
    if waiting then |logs| > 1 && logs[|logs| - 2] == needed else current == needed
  }

  // ---- the database and its files ----------------------------------------------------------------------------------

  /** The database object with its files.  states and events are the run so far. */
  class DurableDb {
    const db: DBImpl
    const names: Naming
    const texts: Texts
    const sum: Log.Checksum
    const comparator: Bytes
    /** logfile_ and log_; the file of the log before, while its memtable waits; and the manifest. */
    var log: Log.Writer
    var older: Bytes
    var descriptor: Log.Writer
    ghost var first: seq<Record>
    ghost var spec: Spec
    ghost var states: seq<State>
    ghost var events: seq<Event>
    ghost var written: seq<Written>
    /** The numbers of the logs this object has made. */
    ghost var logs: seq<nat>

    ghost predicate Valid()
      reads this, db, db.versions, log, descriptor
    {
      db.Valid() && db.versions.manifest.Some? && RecordsOf(written) == db.versions.manifest.value &&
      LogsMade(logs, db.imm.Some?, db.versions.logNumber, db.logfileNumber) && log.Valid() && descriptor.Valid() &&
      log.sum == sum == descriptor.sum &&
      log != descriptor && |comparator| < WORD32 &&
      FilesKept(names, texts, sum, comparator, first, spec, states, events, written, log.dest, older,
                descriptor.dest) &&
      states[|events|] == db.State()
    }

    /** DB::Open, behind recovery: a new log, and the manifest that LogAndApply started. */
    constructor (versions: VersionSet, maxFileSize: nat, names: Naming, texts: Texts, sum: Log.Checksum,
                 comparator: Bytes, ghost st: State, ghost spec: Spec)
      requires versions.Valid() && versions.manifest.Some? && versions.logNumber < versions.nextFileNumber
      requires versions.prevLogNumber == 0 && UsedFits(versions.current, versions.used, versions.nextFileNumber)
      requires st == State([], None, versions.current, versions.lastSequence, [], versions.nextFileNumber)
      requires Starts(versions.manifest.value, st, spec) && CanStart(names, versions.manifest.value, st)
      requires |comparator| < WORD32
      ensures Valid() && db.versions == versions && fresh(db) && fresh(log) && fresh(descriptor)
      ensures db.maxFileSize == maxFileSize && db.logfileNumber == versions.logNumber && logs == [versions.logNumber]
      ensures states == [st] && events == [] && this.spec == spec && first == versions.manifest.value
      ensures this.names == names && this.texts == texts && this.sum == sum && this.comparator == comparator
    {
      hide Inv, UsedFits, Starts, CanStart, FilesKept, Stocked, LeadsTo;
      StartFacts(versions.manifest.value, st, spec);
      this.names, this.texts, this.sum, this.comparator, this.spec := names, texts, sum, comparator, spec;
      db := new DBImpl.Opened(versions, versions.logNumber, maxFileSize);
      log := new Log.Writer(sum, []);
      descriptor := new Log.Writer(sum, []);
      older, first, states, events := [], versions.manifest.value, [st], [];
      logs := [versions.logNumber];
      new;
      CanStartFits(names, versions.manifest.value, st);
      written := WriteRecords(descriptor, names, comparator, versions.manifest.value);
      StartIsKept(names, texts, sum, comparator, first, spec, st, written, descriptor.dest);
    }

    /** DBImpl::Write: the record goes to the log, then its entries into the memtable. */
    method Write(ops: seq<Op>)
      requires Valid() && db.versions.lastSequence + |ops| < MAX_SEQUENCE && |ops| < WORD32
      requires forall op :: op in ops ==> Spelled(names, texts, op)
      modifies this`states, this`events, db, db.versions, log
      ensures Valid() && events == old(events) + [Event.Write(ops)] && states == old(states) + [db.State()]
    {
      hide FilesKept, Next, Spelled, Inv, UsedFits, LogRecovery.Rep, Log.Emitted, BatchOf, EditOf, Stocked, LeadsTo;
      ghost var st, ev := db.State(), Event.Write(ops);
      KeptLength(names, texts, sum, comparator, first, spec, states, events, written, log.dest, older, descriptor.dest);
      var rep := MakeBatch(names, texts, ops, db.versions.lastSequence);
      ghost var was := log.dest;
      log.AddRecord(rep);
      db.Write(ops);
      WriteLogsNothing(st, ops);
      FilesKeptUnlogged(names, texts, sum, comparator, first, spec, states, events, written, was, older,
                        descriptor.dest, ev,
                   db.State());
      states, events := states + [db.State()], events + [ev];
    }

    /** The last case of MakeRoomForWrite: a new log, and the one before is kept as long as its memtable waits. */
    method SwitchMemTable()
      requires Valid() && db.imm.None?
      modifies this`states, this`events, this`log, this`older, this`logs, db, db.versions
      ensures Valid() && logs == old(logs) + [db.logfileNumber]
      ensures events == old(events) + [Switch] && states == old(states) + [db.State()]
      ensures older == old(log.dest) && fresh(log) && log.dest == []
    {
      hide FilesKept, Next, Inv, UsedFits, EditOf, Stocked, LeadsTo;
      ghost var st := db.State();
      KeptLength(names, texts, sum, comparator, first, spec, states, events, written, log.dest, older, descriptor.dest);
      ghost var was, before := log.dest, older;
      older := log.dest;
      log := new Log.Writer(sum, []);
      db.SwitchMemTable();
      logs := logs + [db.logfileNumber];
      SettingsLogNothing(st, Switch);
      FilesKeptUnlogged(names, texts, sum, comparator, first, spec, states, events, written, was, before,
                        descriptor.dest,
                        Switch, db.State());
      states, events := states + [db.State()], events + [Switch];
    }

    /** Get: what the map holds behind the writes since the start, if every compaction so far was crash-safe. */
    method Get(u: UserKey) returns (r: Option<string>)
      requires Valid() && AllCrashSafe(states, events)
      ensures r == ReadOf(SpecRun(spec, events).current, u)
    {
      hide Next, Inv, UsedFits, CrashSafe, SpecRun, Visible, LogsKept, ManifestKept, AllSpelled, SmallWrites, AllNamed;
      hide StoresVersion, Opens, All, Stocked, LeadsTo;
      r := db.Get(u, None);
      OlderMomentReads(states, events, spec, |events|, |events|);
      assert events[..|events|] == events;
    }

    /** GetSnapshot and ReleaseSnapshot touch no file. */
    method GetSnapshot() returns (s: SequenceNumber)
      requires Valid()
      modifies this`states, this`events, db`snapshots
      ensures Valid() && events == old(events) + [Event.Snapshot] && states == old(states) + [db.State()]
    {
      hide FilesKept, Next, Inv, UsedFits, EditOf, Stocked, LeadsTo;
      ghost var st := db.State();
      KeptLength(names, texts, sum, comparator, first, spec, states, events, written, log.dest, older, descriptor.dest);
      s := db.GetSnapshot();
      SettingsLogNothing(st, Event.Snapshot);
      FilesKeptUnlogged(names, texts, sum, comparator, first, spec, states, events, written, log.dest, older,
                        descriptor.dest, Event.Snapshot, db.State());
      states, events := states + [db.State()], events + [Event.Snapshot];
    }

    method ReleaseSnapshot(i: nat)
      requires Valid() && i < |db.snapshots|
      modifies this`states, this`events, db`snapshots
      ensures Valid() && events == old(events) + [Release(i)] && states == old(states) + [db.State()]
    {
      hide FilesKept, Next, Inv, UsedFits, EditOf, Stocked, LeadsTo;
      ghost var st := db.State();
      KeptLength(names, texts, sum, comparator, first, spec, states, events, written, log.dest, older, descriptor.dest);
      db.ReleaseSnapshot(i);
      SettingsLogNothing(st, Release(i));
      FilesKeptUnlogged(names, texts, sum, comparator, first, spec, states, events, written, log.dest, older,
                        descriptor.dest, Release(i), db.State());
      states, events := states + [db.State()], events + [Release(i)];
    }

    /** BackgroundCompaction: what it did is in the manifest, and a flushed memtable needs its log no longer. Nothing
      is promised once file numbers no longer fit in 64 bits. */
    method BackgroundCompaction(manual: Option<(nat, Range)>, fileToCompact: Option<(nat, File)>, full: int -> bool,
                                sizes: int -> nat)
        returns (fits: bool, ghost ev: Option<Event>, rest: Option<Range>)
      requires Valid() && (manual.Some? ==> manual.value.0 + 1 < NUM_LEVELS) && forall i: nat :: sizes(i) < WORD64
      requires fileToCompact.Some? ==>
        fileToCompact.value.0 + 1 < NUM_LEVELS && fileToCompact.value.1 in db.versions.current[fileToCompact.value.0]
      modifies this`states, this`events, this`older, this`written, db, db.versions, descriptor
      ensures fits <==> db.versions.nextFileNumber < WORD64
      ensures fits ==> Valid() && (old(db.imm).Some? ==> older == [])
      ensures fits && ev.Some? ==> events == old(events) + [ev.value] && states == old(states) + [db.State()]
      ensures fits && ev.None? ==> events == old(events) && states == old(states)
      ensures old(db.imm).Some? ==> ev.Some? && ev.value.Flush?
      ensures ev.Some? ==> MadeWith(ev.value, sizes)
      ensures ev.Some? && ev.value.Compact? ==> CutInside(old(db.versions.current), ev.value, db.maxFileSize, full)
      ensures old(db.imm).None? && manual.None? ==>
        DidPicked(old(db.versions.current), fileToCompact, old(db.compactPointers), db.maxFileSize, ev)
      ensures old(db.imm).None? && manual.Some? ==>
        DidRequested(old(db.versions.current), manual.value.0, manual.value.1, db.versions.current, db.maxFileSize, ev,
                     rest)
    {
      hide FilesKept, Next, Inv, UsedFits, EditOf, Stocked, LeadsTo, PointerMoved, DidPicked, DidRequested, CutInside;
      hide BytesOf, Log.Emitted, Stores, MadeWith, Made, Tells, RecordedStep, SaysLogs, LogsMade, DBImpl.Valid;
      ghost var st, used := db.State(), db.versions.used;
      db.RecordedLogs();
      KeptLength(names, texts, sum, comparator, first, spec, states, events, written, log.dest, older, descriptor.dest);
      var flushing, count := db.imm.Some?, |db.versions.manifest.value|;
      ev, rest := db.BackgroundCompaction(manual, fileToCompact, full, sizes);
      db.RecordedLogs();
      StepTells(old(db.versions.manifest), db.versions.manifest, st, ev, old(db.logfileNumber),
                old(db.versions.logNumber), db.versions.nextFileNumber, db.versions.lastSequence,
                old(db.versions.prevLogNumber), db.versions.logNumber, db.versions.prevLogNumber);
      fits := db.versions.nextFileNumber < WORD64;
      if !fits {
        return;
      }
      if |db.versions.manifest.value| > count {
        var r := db.versions.manifest.value[count];
        MadeFits(st, ev.value, sizes);
        FilesKeptLogged(names, texts, sum, comparator, first, spec, states, events, written, log.dest, older,
                        descriptor.dest, ev.value, db.State(), r, db.versions.logNumber, used);
        var record := Encode(names, r.edit, r.counters, None, []);
        descriptor.AddRecord(record);
        if flushing {
          older := [];
        }
        RecordsMore(written, Written(r, None, []));
        LogsFlushed(logs, flushing, ev.value.Flush?, old(db.versions.logNumber), db.versions.logNumber,
                    db.logfileNumber);
        states, events, written := states + [db.State()], events + [ev.value], written + [Written(r, None, [])];
      }
    }

    /** Which logs recovery goes through: whatever older ones are still there, those of the two memtables and no other,
      the older one first. */
    method LogsFound(files: seq<nat>, disk: Disk) returns (found: seq<nat>)
      requires Valid() && DiskHolds(disk, written) && forall i, j :: 0 <= i < j < |files| ==> files[i] != files[j]
      requires forall n :: n in files ==> 0 < n && (n in logs || n < logs[0])
      ensures found ==
        (if db.imm.Some? && logs[|logs| - 2] in files then [logs[|logs| - 2]] else []) +
        (if db.logfileNumber in files then [db.logfileNumber] else [])
    {
      hide FilesKept, Inv, UsedFits, Stocked, LeadsTo, DiskHolds, AllBytes, RecoverySpec, Log.FileOf, RecordsOf;
      hide Log.WhollyKept;
      ManifestIsIntact(names, texts, sum, comparator, first, spec, states, events, written, log.dest, older,
                       descriptor.dest, disk);
      var r, _, m := ManifestFile.Recover(descriptor.dest, sum, comparator, names, disk, written);
      WholeManifest(names, texts, sum, comparator, first, spec, states, events, written, log.dest, older,
                    descriptor.dest, m);
      RecoveryIsCurrent(db.versions.manifest.value, db.versions.current, db.versions.used);
      found := LogsToReplay(files, r.logNumber, r.prevLogNumber);
      NeededLogs(logs, files, found, db.imm.Some?, db.versions.logNumber, db.logfileNumber);
    }

    /** What recovery makes of the files: the manifest is whole, since LogAndApply syncs it; of the logs any part may
      be left, but nothing of the newer one if the older one is not whole. */
    method Recover(olderLeft: Bytes, left: Bytes, disk: Disk, full: nat -> bool, sizes: nat -> nat, immNumber: nat,
                   memNumber: nat)
        returns (fits: bool, versions: VersionSet, ghost st: State, ghost j: nat)
      requires Valid() && AllCrashSafe(states, events) && DiskHolds(disk, written)
      requires olderLeft <= older && left <= log.dest && (olderLeft == older || left == [])
      requires KeepsOrder(names) && forall i: nat :: sizes(i) < WORD64
      ensures fresh(versions) && versions.Valid() && versions.manifest.Some? &&
        versions.logNumber < versions.nextFileNumber
      ensures versions.prevLogNumber == 0 && UsedFits(versions.current, versions.used, versions.nextFileNumber)
      ensures st == State([], None, versions.current, versions.lastSequence, [], versions.nextFileNumber)
      ensures FlushedPart(events, |events|) <= j <= |events|
      ensures Starts(versions.manifest.value, st, SpecRun(spec, events[..j]))
      ensures fits ==> CanStart(names, versions.manifest.value, st)
      ensures immNumber < versions.logNumber && memNumber < versions.logNumber
      ensures RightPart(sum, names, texts, states, events, log.dest, older, left, olderLeft, j)
    {
      hide FilesKept, Next, Inv, UsedFits, Sound, ManifestOf, LogsBelow, Log.FileOf, LoggedBefore, Log.WhollyKept;
      hide AllBytes;
      hide ImmLog, MemLog, AllNamed, StoresVersion, CanStart, KeepsOrder, Starts, BatchesOf, SpecRun, WrittenIn, Stored;
      hide NewManifest, SizedBy, NumberedFrom, NumbersBelow, Installed, Level0, ValidVersion, Ordered, All;
      hide AllCrashSafe;
      hide DiskHolds, Stocked, LeadsTo, RightPart;
      ghost var n := |events|;
      KeptIsSound(names, texts, sum, comparator, first, spec, states, events, written, log.dest, older,
                  descriptor.dest, disk);
      SoundFacts(names, texts, first, states, events, spec);
      ghost var from;
      var logNumber, files;
      versions, logNumber, files, from, st, j :=
        Reopen(descriptor.dest, olderLeft, left, sum, comparator, names, texts, disk, full, sizes, immNumber, memNumber,
               written, first, states, events, spec, n);
      fits := versions.nextFileNumber < WORD64;
      RightPartIs(sum, names, texts, states, events, log.dest, older, left, olderLeft, j);
      if fits {
        StartFacts(versions.manifest.value, st, SpecRun(spec, events[..j]));
        RecoveredCanStart(names, states, events, j, files, from, sizes, versions.manifest.value, logNumber, st);
      }
    }

    /** The end of the process, and the next start: the next object stands for the map behind the first j steps. */
    method Restart(olderLeft: Bytes, left: Bytes, disk: Disk, full: nat -> bool, sizes: nat -> nat, immNumber: nat,
                   memNumber: nat)
        returns (fits: bool, next: DurableDb?, ghost j: nat)
      requires Valid() && AllCrashSafe(states, events) && DiskHolds(disk, written)
      requires olderLeft <= older && left <= log.dest && (olderLeft == older || left == [])
      requires KeepsOrder(names) && forall i: nat :: sizes(i) < WORD64
      ensures FlushedPart(events, |events|) <= j <= |events|
      ensures RightPart(sum, names, texts, states, events, log.dest, older, left, olderLeft, j)
      ensures fits ==> next != null && fresh(next) && next.Valid() && next.events == []
      ensures fits ==> next.spec == SpecRun(spec, events[..j])
      ensures fits ==> next.db.maxFileSize == db.maxFileSize
      ensures fits ==> immNumber < next.db.logfileNumber && memNumber < next.db.logfileNumber
    {
      hide FilesKept, UsedFits, Starts, CanStart, SpecRun, KeepsOrder, DiskHolds, Log.WhollyKept, BatchesOf;
      hide Stocked, LeadsTo;
      hide Inv, AllCrashSafe, RightPart;
      var versions;
      ghost var st;
      next := null;
      fits, versions, st, j := Recover(olderLeft, left, disk, full, sizes, immNumber, memNumber);
      if fits {
        next := new DurableDb(versions, db.maxFileSize, names, texts, sum, comparator, st, SpecRun(spec, events[..j]));
      }
    }
  }

  lemma ManifestIsIntact(names: Naming, texts: Texts, sum: Log.Checksum, comparator: Bytes, first: seq<Record>,
                         spec: Spec, states: seq<State>, events: seq<Event>, written: seq<Written>, log: Bytes,
                         older: Bytes, manifest: Bytes, disk: Disk)
    requires FilesKept(names, texts, sum, comparator, first, spec, states, events, written, log, older, manifest)
    requires DiskHolds(disk, written)
    ensures manifest == Log.FileOf(sum, AllBytes(names, written)) && Intact(names, disk, written)
  {
    hide LogsKept, HistoryOf, Refused, Stores, Log.FileOf, LoggedBefore, OnDisk, LogsBelow, AllBytes;
  }

  /** Nothing of the manifest is lost. */
  lemma WholeManifest(names: Naming, texts: Texts, sum: Log.Checksum, comparator: Bytes, first: seq<Record>,
                      spec: Spec, states: seq<State>, events: seq<Event>, written: seq<Written>, log: Bytes,
                      older: Bytes, manifest: Bytes, m: nat)
    requires FilesKept(names, texts, sum, comparator, first, spec, states, events, written, log, older, manifest)
    requires Log.WhollyKept(sum, AllBytes(names, written), |manifest|, m)
    ensures m == |written| && written[..m] == written && !Refused(comparator, written)
  {
    hide Log.WhollyKept, LogsKept, HistoryOf, Refused, AllStored, Stores, Log.FileOf, LoggedBefore;
    AllKept(sum, AllBytes(names, written), m);
  }

  /** The logs from the recorded number on are those of the two memtables. */
  lemma NeededLogs(logs: seq<nat>, files: seq<nat>, found: seq<nat>, waiting: bool, needed: nat, current: nat)
    requires LogsMade(logs, waiting, needed, current)
    requires forall n :: n in files ==> 0 < n && (n in logs || n < logs[0])
    requires forall i, j :: 0 <= i < j < |found| ==> found[i] < found[j]
    requires forall n :: n in found <==> n in files && (n >= needed || n == 0)
    ensures found ==
      (if waiting && logs[|logs| - 2] in files then [logs[|logs| - 2]] else []) +
      (if current in files then [current] else [])
  {
    forall n | n in files && n >= needed ensures n == needed || n == current {
      if n in logs {
        var i :| 0 <= i < |logs| && logs[i] == n;
      }
    }
    AscendingIsUnique(found, (if waiting && logs[|logs| - 2] in files then [logs[|logs| - 2]] else []) +
                             (if current in files then [current] else []));
  }

  lemma {:induction false} AscendingIsUnique(a: seq<nat>, b: seq<nat>)
    requires forall i, j :: 0 <= i < j < |a| ==> a[i] < a[j]
    requires forall i, j :: 0 <= i < j < |b| ==> b[i] < b[j]
    requires forall n :: n in a <==> n in b
    ensures a == b
  {
    assert |b| > 0 ==> b[0] in b;
    if |a| > 0 {
      assert a[0] in b && b[0] in a;
      assert a == [a[0]] + a[1..] && b == [b[0]] + b[1..];
      assert forall n :: n in a[1..] <==> n in a && n != a[0];
      assert forall n :: n in b[1..] <==> n in b && n != b[0];
      AscendingIsUnique(a[1..], b[1..]);
    }
  }

  /** The disk still has the tables that the manifest names. */
  ghost predicate DiskHolds(disk: Disk, written: seq<Written>) {
    forall i :: 0 <= i < |written| ==> OnDisk(disk, written[i].record.edit)
  }

  ghost predicate AllCrashSafe(states: seq<State>, events: seq<Event>) {
    |states| == |events| + 1 && forall i :: 0 <= i < |events| ==> CrashSafe(states[i], events[i])
  }

  /** What the files hold is what recovery asks for. */
  lemma KeptIsSound(names: Naming, texts: Texts, sum: Log.Checksum, comparator: Bytes, first: seq<Record>, spec: Spec,
                    states: seq<State>, events: seq<Event>, written: seq<Written>, log: Bytes, older: Bytes,
                    manifest: Bytes, disk: Disk)
    requires FilesKept(names, texts, sum, comparator, first, spec, states, events, written, log, older, manifest)
    requires AllCrashSafe(states, events) && DiskHolds(disk, written)
    ensures Sound(names, texts, first, states, events, spec) && LogsBelow(RecordsOf(written))
    ensures ManifestOf(names, disk, comparator, written, first, states, events)
    ensures manifest == Log.FileOf(sum, AllBytes(names, written))
    ensures older == Log.FileOf(sum, ImmLog(names, texts, states, events, |events|))
    ensures log == Log.FileOf(sum, MemLog(names, texts, states, events, |events|))
    ensures Log.WhollyKept(sum, AllBytes(names, written), |manifest|, |LoggedBefore(first, states, events, |events|)|)
    ensures AllNamed(names, states[|events|]) && StoresVersion(names, states[|events|].version)
  {
    hide Next, Starts, AllSpelled, SmallWrites, AllNamed, StoresVersion, LogsBelow, Log.FileOf, Refused, LoggedBefore;
    hide CrashSafe, Stores, OnDisk, BytesOf, ImmLog, MemLog;
    var all := AllBytes(names, written);
    assert all[..|all|] == all;
  }

  lemma WholeIsNamed(names: Naming, whole: State, st: State, found: set<Entry>)
    requires AllNamed(names, whole) && All(st) == found + Stored(whole.version) && found <= All(whole)
    ensures AllNamed(names, st)
  {
    hide Stored, Named;
  }

  /** What the new manifest says can be stored. */
  lemma RestartIsStored(names: Naming, v: Version, files: seq<File>, from: nat, sizes: nat -> nat,
                        manifest: seq<Record>, logNumber: nat, st: State)
    requires Inv(st) && AllNamed(names, st) && StoresVersion(names, v) && ValidVersion(v) && Ordered(v[0])
    requires NumbersBelow(v, from) && NumberedFrom(files, from, st.nextFile) &&
      st.version == Installed(v, Level0(files))
    requires NewManifest(manifest, v, files, logNumber, st.nextFile, st.lastSequence) &&
      logNumber < st.nextFile < WORD64
    requires SizedBy(files, sizes) && forall i: nat :: sizes(i) < WORD64
    ensures CanStart(names, manifest, st)
  {
    hide Inv, AllNamed, ValidVersion, Ordered, NumbersBelow, Installed, Level0, StoresEdit, StoresVersion, StoresFile;
    hide NumberedFrom, SizedBy, SnapshotFiles, Numbers, ApartNumbers;
    FilesAreStored(names, v, files, from, sizes, st);
    SnapshotIsStored(names, v);
    Level0IsStored(names, files);
  }

  lemma Level0IsStored(names: Naming, files: seq<File>)
    requires forall f :: f in files ==> StoresFile(names, f)
    ensures StoresEdit(names, Level0(files))
  {
    hide StoresFile;
    forall a | a in AdditionsOf(0, files) ensures a.0 < NUM_LEVELS && StoresFile(names, a.1) {
      var i :| 0 <= i < |AdditionsOf(0, files)| && AdditionsOf(0, files)[i] == a;
    }
  }

  lemma FilesAreStored(names: Naming, v: Version, files: seq<File>, from: nat, sizes: nat -> nat, st: State)
    requires Inv(st) && AllNamed(names, st) && StoresVersion(names, v) && ValidVersion(v) && Ordered(v[0])
    requires NumbersBelow(v, from) && NumberedFrom(files, from, st.nextFile) &&
      st.version == Installed(v, Level0(files))
    requires st.nextFile < WORD64 && SizedBy(files, sizes) && forall i: nat :: sizes(i) < WORD64
    ensures (forall f :: f in files ==> StoresFile(names, f)) && StoresVersion(names, st.version)
  {
    hide Inv, AllNamed, ValidVersion, Ordered, NumbersBelow, Level0, StoresFile, Numbers, ApartNumbers, Saved, Applied;
    VersionLength(v);
    NumbersApart(v, files, from, st.nextFile);
    InvVersion(st);
    LevelsAreOrdered(v);
    forall l | 0 <= l < NUM_LEVELS
      ensures forall g :: g in st.version[l] <==> g in v[l] || (l == 0 && g in files)
    {
      LevelAdds(v[l], files, l);
    }
    forall f | f in files ensures StoresFile(names, f) {
      assert f in st.version[0];
      FileOfState(st, 0, f);
      FileIsStored(names, st, f);
    }
  }

  lemma FileOfState(st: State, l: nat, f: File)
    requires Inv(st) && l < |st.version| && f in st.version[l]
    ensures ValidFile(f) && Elements(f.entries) <= All(st)
  {
    hide LevelsDisjoint, NumberIsAge, ShallowerIsNewer, UniqueNumbers, Ordered, NumbersBelow, Newer, NoneAfter, Sorted;
    assert ValidFiles(st.version[l]);
    forall e | e in f.entries ensures e in Stored(st.version) {
      InFiles(st.version[l], f, e);
    }
  }

  lemma RightPartIs(sum: Log.Checksum, names: Naming, texts: Texts, states: seq<State>, events: seq<Event>,
                    log: Bytes, older: Bytes, left: Bytes, olderLeft: Bytes, j: nat)
    requires |states| == |events| + 1 && FlushedPart(events, |events|) <= j <= |events|
    requires older == Log.FileOf(sum, ImmLog(names, texts, states, events, |events|))
    requires log == Log.FileOf(sum, MemLog(names, texts, states, events, |events|))
    requires olderLeft != older ==>
      j <= SealedPart(events, |events|) &&
      Log.WhollyKept(sum, ImmLog(names, texts, states, events, |events|), |olderLeft|,
                     |BatchesOf(names, texts, states, events, FlushedPart(events, |events|), j)|)
    requires olderLeft == older ==>
      SealedPart(events, |events|) <= j &&
      Log.WhollyKept(sum, MemLog(names, texts, states, events, |events|), |left|,
                     |BatchesOf(names, texts, states, events, SealedPart(events, |events|), j)|)
    requires olderLeft == older ==> left == log ==> j == |events|
    ensures RightPart(sum, names, texts, states, events, log, older, left, olderLeft, j)
  {
    hide Log.WhollyKept, BatchesOf, MemLog, ImmLog, Log.FileOf;
  }

  /** What recovery leaves can be stored as what it recovered from was. */
  lemma RecoveredCanStart(names: Naming, states: seq<State>, events: seq<Event>, j: nat, files: seq<File>, from: nat,
                          sizes: nat -> nat, manifest: seq<Record>, logNumber: nat, st: State)
    requires Run(states, events) && Inv(states[0]) && states[0].mem == [] && states[0].imm == None && Inv(st)
    requires Inv(states[|events|]) && FlushedPart(events, |events|) <= j <= |events|
    requires AllNamed(names, states[|events|]) && StoresVersion(names, states[|events|].version)
    requires All(st) ==
      WrittenIn(states, events, FlushedPart(events, |events|), j) + Stored(states[|events|].version)
    requires NumbersBelow(states[|events|].version, from) && NumberedFrom(files, from, st.nextFile)
    requires st.version == Installed(states[|events|].version, Level0(files))
    requires NewManifest(manifest, states[|events|].version, files, logNumber, st.nextFile, st.lastSequence)
    requires logNumber < st.nextFile < WORD64 && SizedBy(files, sizes) && forall i: nat :: sizes(i) < WORD64
    ensures CanStart(names, manifest, st)
  {
    hide Inv, Next, AllNamed, StoresVersion, CanStart, WrittenIn, Stored, NewManifest, SizedBy, NumberedFrom;
    hide NumbersBelow;
    hide Installed, Level0, ValidVersion, Ordered, All;
    var n := |events|;
    FoundIsHeld(states, events, n, j);
    WholeIsNamed(names, states[n], st, WrittenIn(states, events, FlushedPart(events, n), j));
    InvVersion(states[n]);
    RestartIsStored(names, states[n].version, files, from, sizes, manifest, logNumber, st);
  }

  lemma FoundIsHeld(states: seq<State>, events: seq<Event>, n: nat, j: nat)
    requires Run(states, events) && Inv(states[0]) && states[0].mem == [] && states[0].imm == None
    requires n <= |events| && FlushedPart(events, n) <= j <= n
    ensures WrittenIn(states, events, FlushedPart(events, n), j) <= All(states[n])
  {
    hide Inv, Next, WrittenIn, MemSet, Stored;
    LeftIsWritten(states, events, n, j);
  }

  lemma SoundFacts(names: Naming, texts: Texts, first: seq<Record>, states: seq<State>, events: seq<Event>, spec: Spec)
    requires Sound(names, texts, first, states, events, spec)
    ensures Run(states, events) && Inv(states[0]) && states[0].mem == [] && states[0].imm == None &&
      |states| == |events| + 1
    ensures Inv(states[|events|])
  {
    hide Inv, Next, CrashSafe, AllSpelled, SmallWrites, ReadsLike, Opens;
    RunKeepsInv(states, events);
  }

  lemma SettingsLogNothing(st: State, ev: Event)
    requires ev.Switch? || ev.Snapshot? || ev.Release?
    ensures EditOf(st, ev).None?
  {
  }

  lemma MadeFits(st: State, ev: Event, sizes: int -> nat)
    requires MadeWith(ev, sizes) && forall i: nat :: sizes(i) < WORD64
    ensures SizesFit(Made(st, ev))
  {
  }

  lemma KeptLength(names: Naming, texts: Texts, sum: Log.Checksum, comparator: Bytes, first: seq<Record>, spec: Spec,
                   states: seq<State>, events: seq<Event>, written: seq<Written>, log: Bytes, older: Bytes,
                   manifest: Bytes)
    requires FilesKept(names, texts, sum, comparator, first, spec, states, events, written, log, older, manifest)
    ensures |states| == |events| + 1
  {
    hide Next, Starts, AllSpelled, SmallWrites, AllNamed, StoresVersion;
  }

  lemma CanStartFits(names: Naming, first: seq<Record>, st: State)
    requires CanStart(names, first, st)
    ensures RecordsFit(names, first)
  {
    hide StoresEdit, StoresCounters;
  }

  /** The record of a step and the version set name the same logs. */
  lemma StepTells(was: Option<seq<Record>>, now: Option<seq<Record>>, st: State, ev: Option<Event>, current: nat,
                  needed: nat, next: nat, last: nat, neededPrev: nat, logNumber: nat, prevLogNumber: nat)
    requires RecordedStep(was, now, st, ev, current, needed, next, last) && was.Some? && |was.value| > 0
    requires SaysLogs(was.value[|was.value| - 1].counters, needed, neededPrev)
    requires now.Some? ==> |now.value| > 0 && SaysLogs(now.value[|now.value| - 1].counters, logNumber, prevLogNumber)
    ensures now.Some? && logNumber == if ev.Some? && ev.value.Flush? then current else needed
    ensures ev.None? ==> now == was
    ensures ev.Some? ==>
      |now.value| == |was.value| + 1 && now.value == was.value + [now.value[|was.value|]] &&
      EditOf(st, ev.value).Some? &&
      Tells(now.value[|was.value|], EditOf(st, ev.value).value, logNumber, next, last)
  {
    hide EditOf;
  }

  lemma LogsFlushed(logs: seq<nat>, waiting: bool, flushed: bool, needed: nat, neededNow: nat, current: nat)
    requires LogsMade(logs, waiting, needed, current) && flushed == waiting
    requires neededNow == if flushed then current else needed
    ensures LogsMade(logs, false, neededNow, current)
  {
  }

  lemma WriteLogsNothing(st: State, ops: seq<Op>)
    ensures EditOf(st, Write(ops)).None?
  {
  }

  // ---- a new database
  // ------------------------------------------------------------------------------------------------

  const NO_FILES: Version := [[], [], [], [], [], [], []]

  /** What recovery makes of the manifest of DBImpl::NewDB. */
  lemma NewDbRecovers()
    ensures START.version == NO_FILES && FoundAgain(RecoverySpec([NewDb(2)]), START)
    ensures Stocked(NO_FILES, NO_NUMBERS) && UsedFits(NO_FILES, NO_NUMBERS, 2) &&
      Installed(NO_FILES, Edit([], [])) == NO_FILES
  {
    hide RecoverySpec, Installed, Ordered;
    NewDbOpens(2);
    assert START.(nextFile := 2) == START;
    StartRefinesEmpty(2);
    InvVersion(START);
    EmptyEditInstalls(NO_FILES);
    EmptyIsOrdered();
    NothingNumbered();
  }

  lemma NothingNumbered()
    ensures Stocked(NO_FILES, NO_NUMBERS) && UsedFits(NO_FILES, NO_NUMBERS, 2)
  {
  }

  lemma NewDbIsEmpty(names: Naming, st: State)
    requires st == START.(nextFile := st.nextFile) && 2 <= st.nextFile
    ensures AllNamed(names, st) && StoresVersion(names, st.version) && Inv(st) && ReadsLike(All(st), 0, map[])
  {
    hide Inv, ReadsLike;
    StartRefinesEmpty(st.nextFile);
    StartHoldsNothing(st);
  }

  lemma StartHoldsNothing(st: State)
    requires st == START.(nextFile := st.nextFile)
    ensures All(st) == {}
  {
    hide ValidVersion, Ordered, Stored, NumbersBelow;
    NoFiles(st.version, 0);
  }

  lemma FirstManifest(names: Naming, manifest: seq<Record>, st: State, used: seq<set<nat>>, log: nat)
    requires st == START.(nextFile := st.nextFile) && log < st.nextFile < WORD64 && 2 <= st.nextFile && |manifest| == 2
    requires manifest[0] == Record(Edit([], SnapshotFiles(NO_FILES, NUM_LEVELS)), NONE)
    requires manifest[1] == Record(Edit([], []), Counters(Some(log), Some(0), Some(st.nextFile), Some(0)))
    requires LeadsTo(manifest, NO_FILES, used) && UsedFits(NO_FILES, used, st.nextFile)
    requires RecoverySpec(manifest) == Recovered(NO_FILES, log, 0, st.nextFile, 0)
    ensures Starts(manifest, st, Spec(map[], [])) && CanStart(names, manifest, st)
  {
    hide Inv, ReadsLike, LeadsTo, UsedFits, AllNamed, StoresVersion, StoresEdit, SnapshotFiles, All;
    hide RecoverySpec;
    NewDbIsEmpty(names, st);
    SnapshotIsStored(names, NO_FILES);
    EmptyIsStored(names);
    assert Tracks(st, manifest, used);
  }

  lemma EmptyIsStored(names: Naming)
    ensures StoresEdit(names, Edit([], []))
  {
  }

  /** DB::Open where there is nothing: NewDB, recovery of its manifest, a first log and a first manifest of its own. */
  method Create(names: Naming, texts: Texts, sum: Log.Checksum, comparator: Bytes, maxFileSize: nat)
      returns (d: DurableDb)
    requires |comparator| < WORD32
    ensures fresh(d) && d.Valid() && d.spec == Spec(map[], []) && d.events == []
    ensures d.names == names && d.texts == texts && d.sum == sum && d.comparator == comparator
    ensures d.db.maxFileSize == maxFileSize
  {
    hide FoundAgain, RecoverySpec, Stocked, UsedFits, Installed, LeadsTo, Starts, CanStart, SnapshotFiles;
    hide AddsFresh, UsedAfter;
    NewDbRecovers();
    var r := Recovered(NO_FILES, 0, 0, 2, 0);
    var versions := new VersionSet.Reopened(r, NO_NUMBERS);
    var logNumber := versions.NewFileNumber();
    EmptyEditFits(NO_FILES, NO_NUMBERS, 2);
    EmptyEditFits(NO_FILES, NO_NUMBERS, 3);
    versions.LogAndApply(Edit([], []), Some(logNumber), Some(0));
    ghost var st := START.(nextFile := versions.nextFileNumber);
    FirstManifest(names, versions.manifest.value, st, versions.used, logNumber);
    d := new DurableDb(versions, maxFileSize, names, texts, sum, comparator, st, Spec(map[], []));
  }
}
