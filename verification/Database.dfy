/** The database as a state machine: writes, memtable switches, flushes, compactions, trivial moves and
  snapshots as atomic steps (db/db_impl.cc).  Every run of them is a plain map with saved copies. */
module Database {
  import opened Options
  import opened InternalKeys
  import opened ReadSpec
  import opened Versions
  import opened Overlap
  import opened CompactionInputs
  import opened VersionEdits
  import opened ManifestReplay
  import opened Compactions
  import opened Install
  import opened SnapshotReads

  /** Memtables are sorted entry lists, the contents of their skip lists. */
  datatype State = State(mem: seq<Entry>, imm: Option<seq<Entry>>, version: Version,
                         lastSequence: SequenceNumber, snapshots: seq<SequenceNumber>, nextFile: nat)

  /** One record of a write batch. */
  datatype Op = Op(user: UserKey, kind: ValueType, value: string)

  function ImmEntries(st: State): seq<Entry> {
    if st.imm.Some? then st.imm.value else []
  }

  ghost function MemSet(st: State): set<Entry> {
    Elements(st.mem) + Elements(ImmEntries(st))
  }

  ghost function All(st: State): set<Entry> {
    MemSet(st) + Stored(st.version)
  }

  ghost predicate NoneAfter(all: set<Entry>, s: nat) {
    forall e :: e in all ==> e.key.sequence <= s
  }

  ghost predicate SnapshotsOrdered(st: State) {
    (forall i, j :: 0 <= i < j < |st.snapshots| ==> st.snapshots[i] <= st.snapshots[j]) &&
    forall i :: 0 <= i < |st.snapshots| ==> st.snapshots[i] <= st.lastSequence
  }

  ghost predicate Inv(st: State) {
    Sorted(st.mem) && Sorted(ImmEntries(st)) && Newer(Elements(st.mem), Elements(ImmEntries(st))) &&
    Newer(MemSet(st), Stored(st.version)) &&
    ValidVersion(st.version) && Ordered(st.version[0]) && NumbersBelow(st.version, st.nextFile) &&
    NoneAfter(All(st), st.lastSequence) && SnapshotsOrdered(st) && st.lastSequence < MAX_SEQUENCE
  }

  /** smallest_snapshot of DoCompactionWork: the oldest live snapshot, or the last sequence number. */
  function SmallestSnapshot(st: State): SequenceNumber {
    if |st.snapshots| == 0 then st.lastSequence else st.snapshots[0]
  }

  // ---- writing -------------------------------------------------------------------------

  /** Where MemTable::Add puts an entry. */
  function MemInsert(mem: seq<Entry>, e: Entry): seq<Entry> {
    if |mem| == 0 || Before(e.key, mem[0].key) then [e] + mem else [mem[0]] + MemInsert(mem[1..], e)
  }

  lemma {:induction false} MemInsertIs(mem: seq<Entry>, e: Entry)
    requires Sorted(mem) && forall x :: x in mem && x.key.user == e.key.user ==> x.key.sequence < e.key.sequence
    ensures Sorted(MemInsert(mem, e)) && Elements(MemInsert(mem, e)) == Elements(mem) + {e}
  {
    if |mem| > 0 && !Before(e.key, mem[0].key) {
      assert mem == [mem[0]] + mem[1..];
      MemInsertIs(mem[1..], e);
      var rest := MemInsert(mem[1..], e);
      assert mem[0] in mem;
      forall x | x in rest ensures Before(mem[0].key, x.key) {
        assert x in Elements(rest);
      }
    } else {
      assert forall x :: x in [e] + mem <==> x == e || x in mem;
      assert forall i :: 1 <= i < |mem| ==> Before(mem[0].key, mem[i].key);
    }
  }

  function EntryOf(op: Op, sequence: SequenceNumber): Entry {
    Entry(IKey(op.user, sequence, op.kind), op.value)
  }

  function WriteOne(st: State, op: Op): State
    requires st.lastSequence < MAX_SEQUENCE
  {
    st.(mem := MemInsert(st.mem, EntryOf(op, st.lastSequence + 1)), lastSequence := st.lastSequence + 1)
  }

  /** WriteBatchInternal::InsertInto: one sequence number per record, in order. */
  function WriteAll(st: State, ops: seq<Op>): State
    requires st.lastSequence + |ops| <= MAX_SEQUENCE
    decreases |ops|
  {
    if |ops| == 0 then st else WriteAll(WriteOne(st, ops[0]), ops[1..])
  }

  // ---- the steps -------------------------------------------------------------------------

  datatype Event =
    | Write(ops: seq<Op>)
    | Switch
    | Flush(level: nat, size: nat)
    | Compact(level: nat, inputs0: seq<File>, inputs1: seq<File>, input: seq<Entry>, outputs: seq<File>)
    | Move(level: nat, file: File)
    | Snapshot
    | Release(index: nat)

  function DeletionsOf(level: nat, files: seq<File>): seq<(nat, nat)> {
    seq(|files|, i requires 0 <= i < |files| => (level, files[i].number))
  }

  function AdditionsOf(level: nat, files: seq<File>): seq<(nat, File)> {
    seq(|files|, i requires 0 <= i < |files| => (level, files[i]))
  }

  /** AddInputDeletions and InstallCompactionResults. */
  function CompactionEdit(level: nat, inputs0: seq<File>, inputs1: seq<File>, outputs: seq<File>): Edit {
    Edit(DeletionsOf(level, inputs0) + DeletionsOf(level + 1, inputs1), AdditionsOf(level + 1, outputs))
  }

  /** The file WriteLevel0Table builds. */
  function TableOf(entries: seq<Entry>, number: nat, size: nat): File
    requires |entries| > 0
  {
    File(number, size, entries[0].key, entries[|entries| - 1].key, entries)
  }

  ghost predicate OutputNumbers(outputs: seq<File>, from: nat, to: nat) {
    DistinctNumbers(outputs) && ApartNumbers(outputs) && from <= to &&
    forall o :: o in outputs ==> from <= o.number < to
  }

  ghost predicate FlushStep(st: State, level: nat, size: nat, st': State) {
    st.imm.Some? &&
    if |st.imm.value| == 0 then st' == st.(imm := None, nextFile := st.nextFile + 1)
    else
      var f := TableOf(st.imm.value, st.nextFile, size);
      level < NUM_LEVELS && Placed(st.version, level, f.smallest.user, f.largest.user) &&
      st' == st.(imm := None, nextFile := st.nextFile + 1, version := Installed(st.version, Edit([], [(level, f)])))
  }

  ghost predicate CompactStep(st: State, level: nat, inputs0: seq<File>, inputs1: seq<File>, input: seq<Entry>,
                              outputs: seq<File>, st': State) {
    Legal(st.version, level, inputs0, inputs1) &&
    Sorted(input) && Elements(input) == FileEntries(inputs0) + FileEntries(inputs1) &&
    ValidFiles(outputs) && Disjoint(outputs) &&
    FileEntries(outputs) == Elements(Survivors(input, |input|, SmallestSnapshot(st), st.version, level)) &&
    OutputNumbers(outputs, st.nextFile, st'.nextFile) &&
    st' == st.(nextFile := st'.nextFile,
               version := Installed(st.version, CompactionEdit(level, inputs0, inputs1, outputs)))
  }

  ghost predicate MoveStep(st: State, level: nat, file: File, st': State) {
    Legal(st.version, level, [file], []) &&
    st' == st.(version := Installed(st.version, CompactionEdit(level, [file], [], [file])))
  }

  ghost predicate Next(st: State, ev: Event, st': State) {
    match ev
    case Write(ops) => st.lastSequence + |ops| < MAX_SEQUENCE && st' == WriteAll(st, ops)
    case Switch => st.imm.None? && st' == st.(mem := [], imm := Some(st.mem), nextFile := st.nextFile + 1)
    case Flush(level, size) => FlushStep(st, level, size, st')
    case Compact(level, inputs0, inputs1, input, outputs) =>
      CompactStep(st, level, inputs0, inputs1, input, outputs, st')
    case Move(level, file) => MoveStep(st, level, file, st')
    case Snapshot => st' == st.(snapshots := st.snapshots + [st.lastSequence])
    case Release(i) => i < |st.snapshots| && st' == st.(snapshots := st.snapshots[..i] + st.snapshots[i + 1..])
  }

  /** The compaction uncovers no old value.  Every other step is safe. */
  ghost predicate Safe(st: State, ev: Event) {
    ev.Compact? ==>
      forall u, x, y :: !Resurrects(MemSet(st), st.version, ev.level, ev.inputs1, SmallestSnapshot(st), u, x, y)
  }

  /** A check on the chosen files that makes a compaction safe: no boundary file behind the lower inputs. */
  lemma NoBoundaryIsSafe(st: State, ev: Event)
    requires Inv(st) && ev.Compact? && Legal(st.version, ev.level, ev.inputs0, ev.inputs1)
    requires NoBoundaryBelow(st.version, ev.level, ev.inputs1)
    ensures Safe(st, ev)
  {
    hide ValidVersion, Stored, NumbersBelow, NoneAfter, Legal, NoBoundaryBelow, Resurrects;
    MemSetIsIdentified(st);
    forall u, x, y ensures !Resurrects(MemSet(st), st.version, ev.level, ev.inputs1, SmallestSnapshot(st), u, x, y) {
      NoBoundaryNoResurrection(MemSet(st), st.version, ev.level, ev.inputs0, ev.inputs1, SmallestSnapshot(st), u, x, y);
    }
  }

  // ---- installing, through the builder ------------------------------------------------------

  lemma {:induction false} EditAt(level: nat, files: seq<File>, l: nat)
    ensures DeletedAt(DeletionsOf(level, files), l) == if l == level then Numbers(files) else {}
    ensures AddedAt(AdditionsOf(level, files), l) == if l == level then (set f | f in files) else {}
    ensures ApartNumbers(files) ==> AddsOnce(AdditionsOf(level, files), l)
  {
    var dels, adds := DeletionsOf(level, files), AdditionsOf(level, files);
    forall i | 0 <= i < |files| ensures (level, files[i].number) in dels && (level, files[i]) in adds {
      assert dels[i] == (level, files[i].number) && adds[i] == (level, files[i]);
    }
    forall f | f in files ensures (level, f.number) in dels && (level, f) in adds {
      var i :| 0 <= i < |files| && files[i] == f;
    }
  }

  lemma DeletedAtConcat(a: seq<(nat, nat)>, b: seq<(nat, nat)>, l: nat)
    ensures DeletedAt(a + b, l) == DeletedAt(a, l) + DeletedAt(b, l)
  {
  }

  /** One level after an edit: the files not deleted, and the added ones. */
  lemma InstalledLevel(files: seq<File>, edit: Edit, l: nat, deleted: set<nat>, added: set<File>)
    requires Ordered(files) && AddsOnce(edit.added, l)
    requires DeletedAt(edit.deleted, l) == deleted && AddedAt(edit.added, l) == added
    requires forall f, a :: f in files && a in added ==> f.number != a.number
    requires forall a :: a in added ==> a.number !in deleted
    ensures var r := Saved(files, Applied(EMPTY, edit, l));
      Ordered(r) && forall f :: f in r <==> (f in files && f.number !in deleted) || f in added
  {
    hide Saved, Applied, DeletedAt, AddedAt, AddsOnce;
    EmptyIsOrdered();
    AppliedIs(EMPTY, edit, l);
    var st := Applied(EMPTY, edit, l);
    assert forall a :: a in added ==> a.number in NumbersOf(added);
    SavedIs(files, st);
  }

  lemma LevelsAreOrdered(v: Version)
    requires ValidVersion(v) && Ordered(v[0])
    ensures forall l :: 0 <= l < |v| ==> Ordered(v[l])
  {
    hide ShallowerIsNewer, NumberIsAge, UniqueNumbers, Ordered, ValidFiles, Disjoint;
    forall l | 0 < l < |v| ensures Ordered(v[l]) {
      DisjointIsOrdered(v[l]);
    }
  }

  lemma UntouchedLevel(files: seq<File>, edit: Edit, l: nat)
    requires Ordered(files) && AddsOnce(edit.added, l) && DeletedAt(edit.deleted, l) == {} &&
      AddedAt(edit.added, l) == {}
    ensures Saved(files, Applied(EMPTY, edit, l)) == files
  {
    hide Saved, Applied;
    InstalledLevel(files, edit, l, {}, {});
    OrderedIsUnique(Saved(files, Applied(EMPTY, edit, l)), files);
  }

  /** LogAndApply of a compaction edit is the abstract exchange of files. */
  lemma InstalledIsCompacted(v: Version, level: nat, inputs0: seq<File>, inputs1: seq<File>, outputs: seq<File>)
    requires ValidVersion(v) && Ordered(v[0]) && Legal(v, level, inputs0, inputs1) && ApartNumbers(outputs)
    requires Numbers(outputs) !! Numbers(v[level + 1])
    ensures Compacted(v, level, inputs0, inputs1, outputs,
                      Installed(v, CompactionEdit(level, inputs0, inputs1, outputs)))
  {
    hide LevelsValid, LevelsDisjoint, ShallowerIsNewer, NumberIsAge, Ordered, Upper, Hull, Selected, Saved;
    hide Applied, AddedAt, DeletedAt, ApartNumbers, AddsOnce;
    var edit := CompactionEdit(level, inputs0, inputs1, outputs);
    LevelsAreOrdered(v);
    SelectedAreFiles(v, level, inputs0, inputs1);
    UpperAreFiles(v, level, inputs0);
    forall l | 0 <= l < |v| ensures l != level && l != level + 1 ==> Saved(v[l], Applied(EMPTY, edit, l)) == v[l]
      ensures l == level ==> Removed(v[l], inputs0, Saved(v[l], Applied(EMPTY, edit, l)))
      ensures l == level + 1 ==> Exchanged(v[l], inputs1, outputs, Saved(v[l], Applied(EMPTY, edit, l)))
    {
      EditAt(level, inputs0, l);
      EditAt(level + 1, inputs1, l);
      EditAt(level + 1, outputs, l);
      DeletedAtConcat(DeletionsOf(level, inputs0), DeletionsOf(level + 1, inputs1), l);
      assert DistinctNumbers(v[l]);
      if l == level {
        RemovedLevel(v[l], inputs0, edit, l);
      } else if l == level + 1 {
        ExchangedLevel(v[l], inputs1, outputs, edit, l);
      } else {
        UntouchedLevel(v[l], edit, l);
      }
    }
  }

  lemma UpperAreFiles(v: Version, level: nat, inputs0: seq<File>)
    requires Upper(v, level, inputs0)
    ensures level + 1 < |v| && forall f :: f in inputs0 ==> f in v[level]
  {
  }

  lemma RemovedLevel(files: seq<File>, gone: seq<File>, edit: Edit, l: nat)
    requires Ordered(files) && DistinctNumbers(files) && (forall f :: f in gone ==> f in files) &&
      AddsOnce(edit.added, l)
    requires DeletedAt(edit.deleted, l) == Numbers(gone) && AddedAt(edit.added, l) == {}
    ensures Removed(files, gone, Saved(files, Applied(EMPTY, edit, l)))
  {
    hide Saved, Applied, AddsOnce, AddedAt, DeletedAt;
    InstalledLevel(files, edit, l, Numbers(gone), {});
    forall f | f in files && f.number in Numbers(gone) ensures f in gone {
      var g :| g in gone && g.number == f.number;
    }
  }

  lemma ExchangedLevel(files: seq<File>, gone: seq<File>, come: seq<File>, edit: Edit, l: nat)
    requires Ordered(files) && DistinctNumbers(files) && (forall f :: f in gone ==> f in files) &&
      AddsOnce(edit.added, l)
    requires Numbers(come) !! Numbers(files)
    requires DeletedAt(edit.deleted, l) == Numbers(gone) && AddedAt(edit.added, l) == set f | f in come
    ensures Exchanged(files, gone, come, Saved(files, Applied(EMPTY, edit, l)))
  {
    hide Saved, Applied, AddsOnce, AddedAt, DeletedAt;
    var added := set f | f in come;
    assert Numbers(gone) <= Numbers(files);
    forall a | a in added ensures a.number !in Numbers(gone) && a.number !in Numbers(files) {
      assert a.number in Numbers(come);
    }
    assert forall f :: f in files ==> f.number in Numbers(files);
    InstalledLevel(files, edit, l, Numbers(gone), added);
    forall f | f in files && f.number in Numbers(gone) ensures f in gone {
      var g :| g in gone && g.number == f.number;
    }
  }

  lemma InstalledIsFlushed(v: Version, level: nat, file: File)
    requires ValidVersion(v) && Ordered(v[0]) && level < |v| && NumbersBelow(v, file.number)
    ensures Flushed(v, level, file, Installed(v, Edit([], [(level, file)])))
  {
    hide LevelsValid, LevelsDisjoint, ShallowerIsNewer, NumberIsAge, Ordered, Saved, Applied, AddedAt;
    hide DeletedAt, ApartNumbers, AddsOnce;
    var edit := Edit([], [(level, file)]);
    LevelsAreOrdered(v);
    forall l | 0 <= l < |v| ensures l != level ==> Saved(v[l], Applied(EMPTY, edit, l)) == v[l]
      ensures l == level ==> Exchanged(v[l], [], [file], Saved(v[l], Applied(EMPTY, edit, l)))
    {
      OneFileEdit(level, file, l);
      assert DistinctNumbers(v[l]);
      if l == level {
        assert Numbers([file]) !! Numbers(v[l]);
        ExchangedLevel(v[l], [], [file], edit, l);
      } else {
        UntouchedLevel(v[l], edit, l);
      }
    }
  }

  lemma OneFileEdit(level: nat, file: File, l: nat)
    ensures AddsOnce([(level, file)], l) && DeletedAt([], l) == {} == Numbers([])
    ensures AddedAt([(level, file)], l) == if l == level then (set f | f in [file]) else {}
  {
  }

  // ---- the invariant ------------------------------------------------------------------------------

  lemma WriteOneKeepsInv(st: State, op: Op)
    requires Inv(st) && st.lastSequence + 1 < MAX_SEQUENCE
    ensures Inv(WriteOne(st, op))
    ensures All(WriteOne(st, op)) == All(st) + {EntryOf(op, st.lastSequence + 1)}
  {
    hide ValidVersion, Ordered, NumbersBelow, Stored, Sorted;
    var e := EntryOf(op, st.lastSequence + 1);
    assert Elements(st.mem) <= All(st);
    MemInsertIs(st.mem, e);
    var st' := WriteOne(st, op);
    assert MemSet(st') == MemSet(st) + {e};
  }

  lemma SwitchKeepsInv(st: State)
    requires Inv(st) && st.imm.None?
    ensures Inv(st.(mem := [], imm := Some(st.mem), nextFile := st.nextFile + 1))
    ensures All(st.(mem := [], imm := Some(st.mem), nextFile := st.nextFile + 1)) == All(st)
  {
    hide ValidVersion, Ordered, Stored;
    assert Elements([]) == {};
  }

  lemma CompactionStepRan(st: State, level: nat, inputs0: seq<File>, inputs1: seq<File>, input: seq<Entry>,
                          outputs: seq<File>, st': State)
    requires Inv(st) && CompactStep(st, level, inputs0, inputs1, input, outputs, st')
    ensures Ran(st.version, level, inputs0, inputs1, input, SmallestSnapshot(st), outputs, st'.version)
    ensures Above(MemSet(st), st.version)
  {
    hide ValidVersion, Survivors, Disjoint, ValidFiles, Upper, FileEntries, Stored;
    FreshOutputs(st.version, level, outputs, st.nextFile, st'.nextFile);
    InstalledIsCompacted(st.version, level, inputs0, inputs1, outputs);
    MemSetIsIdentified(st);
  }

  lemma FreshOutputs(v: Version, level: nat, outputs: seq<File>, from: nat, to: nat)
    requires level + 1 < |v| && NumbersBelow(v, from) && OutputNumbers(outputs, from, to)
    ensures Numbers(outputs) !! Numbers(v[level + 1])
  {
  }

  lemma MemSetIsIdentified(st: State)
    requires Sorted(st.mem) && Sorted(ImmEntries(st)) && Newer(Elements(st.mem), Elements(ImmEntries(st)))
    ensures Identified(MemSet(st))
  {
    SortedIsIdentified(st.mem);
    SortedIsIdentified(ImmEntries(st));
  }

  lemma CompactKeepsVersion(st: State, level: nat, inputs0: seq<File>, inputs1: seq<File>, input: seq<Entry>,
                            outputs: seq<File>, st': State)
    requires Inv(st) && CompactStep(st, level, inputs0, inputs1, input, outputs, st')
    ensures ValidVersion(st'.version) && Ordered(st'.version[0]) && NumbersBelow(st'.version, st'.nextFile)
    ensures Stored(st'.version) <= Stored(st.version)
  {
    hide LevelsValid, LevelsDisjoint, ShallowerIsNewer, NumberIsAge, Ordered, Survivors, Disjoint, ValidFiles;
    hide Upper, FileEntries, Stored, Sorted, NumbersBelow;
    CompactionStepRan(st, level, inputs0, inputs1, input, outputs, st');
    StoredAfterIsOld(st.version, level, inputs0, inputs1, input, SmallestSnapshot(st), outputs, st'.version);
    FreshNumbersFit(st.version, level, inputs0, inputs1, outputs, st'.version, st.nextFile);
    CompactionKeepsVersion(st.version, level, inputs0, inputs1, outputs, st'.version);
    NumbersStayBelow(st.version, level, inputs0, inputs1, outputs, st'.version, st.nextFile, st'.nextFile);
  }

  lemma NumbersStayBelow(v: Version, level: nat, inputs0: seq<File>, inputs1: seq<File>, outputs: seq<File>,
                         v': Version, next: nat, next': nat)
    requires Compacted(v, level, inputs0, inputs1, outputs, v') && NumbersBelow(v, next) && next <= next'
    requires forall o :: o in outputs ==> o.number < next'
    ensures NumbersBelow(v', next')
  {
  }

  lemma StorageShrinks(st: State, st': State)
    requires Inv(st) && st'.mem == st.mem && st'.imm == st.imm && st'.lastSequence == st.lastSequence &&
      st'.snapshots == st.snapshots
    requires Stored(st'.version) <= Stored(st.version)
    requires ValidVersion(st'.version) && Ordered(st'.version[0]) && NumbersBelow(st'.version, st'.nextFile)
    ensures Inv(st')
  {
    hide ValidVersion, Ordered, NumbersBelow, Stored, Sorted;
    assert MemSet(st') == MemSet(st);
    assert All(st') <= All(st);
  }

  lemma CompactKeepsInv(st: State, level: nat, inputs0: seq<File>, inputs1: seq<File>, input: seq<Entry>,
                        outputs: seq<File>, st': State)
    requires Inv(st) && CompactStep(st, level, inputs0, inputs1, input, outputs, st')
    ensures Inv(st')
  {
    hide Inv, ValidVersion, Ordered, Stored, NumbersBelow, Legal, Sorted, OutputNumbers, Disjoint, ValidFiles;
    CompactKeepsVersion(st, level, inputs0, inputs1, input, outputs, st');
    StorageShrinks(st, st');
  }

  // ---- moves and flushes -----------------------------------------------------------------------------

  lemma MoveIsCompacted(st: State, level: nat, file: File, st': State)
    requires Inv(st) && MoveStep(st, level, file, st')
    ensures file in st.version[level] && Compacted(st.version, level, [file], [], [file], st'.version)
  {
    hide LevelsValid, LevelsDisjoint, ShallowerIsNewer, NumberIsAge, Ordered, Isolated, SeveredRun, Hull;
    hide Stored, Sorted;
    var v := st.version;
    assert file in [file];
    assert Numbers([file]) !! Numbers(v[level + 1]) by {
      assert file.number in Numbers(v[level]);
    }
    InstalledIsCompacted(v, level, [file], [], [file]);
  }

  lemma OneFileDelivered(v: Version, level: nat, file: File)
    requires LevelsValid(v) && level < |v| && file in v[level]
    ensures Delivered([file], [], [file])
  {
    assert ValidFiles(v[level]);
  }

  /** A moved file holds the same entries one level down. */
  lemma MoveKeepsStored(v: Version, level: nat, file: File, v': Version)
    requires Compacted(v, level, [file], [], [file], v') && file in v[level]
    ensures Stored(v') == Stored(v)
  {
    assert forall f :: f in [file] <==> f == file;
    forall e | e in Stored(v') ensures e in Stored(v) {
      var l :| 0 <= l < |v'| && e in FileEntries(v'[l]);
      var f := EntryFile(v'[l], e);
      InFiles(v[if f == file then level else l], f, e);
    }
    forall e | e in Stored(v) ensures e in Stored(v') {
      var l :| 0 <= l < |v| && e in FileEntries(v[l]);
      var f := EntryFile(v[l], e);
      InFiles(v'[if f == file then level + 1 else l], f, e);
    }
  }

  lemma MoveKeepsInv(st: State, level: nat, file: File, st': State)
    requires Inv(st) && MoveStep(st, level, file, st')
    ensures Inv(st') && All(st') == All(st)
  {
    hide LevelsValid, LevelsDisjoint, ShallowerIsNewer, NumberIsAge, Ordered, Upper, Hull, FileEntries;
    hide Stored, Sorted, NumbersBelow, Compacted, UniqueNumbers, SnapshotsOrdered, NoneAfter, Newer;
    hide Delivered;
    MoveIsCompacted(st, level, file, st');
    MoveKeepsStored(st.version, level, file, st'.version);
    OneFileDelivered(st.version, level, file);
    MovedNumbersFit(st.version, level, file, st'.version);
    CompactionKeepsVersion(st.version, level, [file], [], [file], st'.version);
    MovedStaysBelow(st.version, level, file, st'.version, st.nextFile);
    StorageShrinks(st, st');
  }

  lemma MovedStaysBelow(v: Version, level: nat, file: File, v': Version, next: nat)
    requires Compacted(v, level, [file], [], [file], v') && file in v[level] && NumbersBelow(v, next)
    ensures NumbersBelow(v', next)
  {
    NumbersStayBelow(v, level, [file], [], [file], v', next, next);
  }

  lemma TableIsValid(entries: seq<Entry>, number: nat, size: nat)
    requires Sorted(entries) && |entries| > 0
    ensures ValidFile(TableOf(entries, number, size))
  {
  }

  lemma FlushKeepsStored(v: Version, level: nat, file: File, v': Version)
    requires Flushed(v, level, file, v')
    ensures Stored(v') == Stored(v) + Elements(file.entries)
  {
    forall e | e in Stored(v') ensures e in Stored(v) + Elements(file.entries) {
      var l :| 0 <= l < |v'| && e in FileEntries(v'[l]);
      FlushedEntries(v, level, file, v', l, e);
    }
    forall e | e in Stored(v) + Elements(file.entries) ensures e in Stored(v') {
      if e in file.entries {
        InFiles(v'[level], file, e);
      } else {
        var l :| 0 <= l < |v| && e in FileEntries(v[l]);
        var f := EntryFile(v[l], e);
        InFiles(v'[l], f, e);
      }
    }
  }

  /** The flush of a memtable that is not empty. */
  lemma FullFlushKeepsInv(st: State, level: nat, size: nat, st': State)
    requires Inv(st) && FlushStep(st, level, size, st') && |ImmEntries(st)| > 0
    ensures Inv(st') && All(st') == All(st)
  {
    hide LevelsValid, LevelsDisjoint, ShallowerIsNewer, NumberIsAge, UniqueNumbers, Ordered, FileEntries;
    hide Stored, Sorted, NumbersBelow, NoneAfter, Placed, Newer;
    var f := TableOf(st.imm.value, st.nextFile, size);
    TableIsValid(st.imm.value, st.nextFile, size);
    InstalledIsFlushed(st.version, level, f);
    NewerPart(Elements(st.mem), Elements(f.entries), Stored(st.version));
    FlushKeepsVersion(st.version, level, f, st'.version, st.nextFile);
    FlushKeepsStored(st.version, level, f, st'.version);
    FlushedStaysBelow(st.version, level, f, st'.version, st.nextFile);
    assert MemSet(st') == Elements(st.mem) by { NothingElse(st'.mem); }
    assert All(st') == All(st);
    NewerJoin(Elements(st.mem), Elements(f.entries), Stored(st.version));
    EmptySorted(Elements(st.mem));
  }

  lemma NothingElse(mem: seq<Entry>)
    ensures Elements(mem) + Elements([]) == Elements(mem)
  {
  }

  lemma EmptySorted(a: set<Entry>)
    ensures Sorted([]) && Newer(a, Elements([]))
  {
  }

  lemma NewerPart(a: set<Entry>, b: set<Entry>, c: set<Entry>)
    requires Newer(a + b, c)
    ensures Newer(a, c) && Newer(b, c)
  {
  }

  lemma NewerJoin(a: set<Entry>, b: set<Entry>, c: set<Entry>)
    requires Newer(a, b) && Newer(a, c)
    ensures Newer(a, c + b)
  {
  }

  lemma FlushedStaysBelow(v: Version, level: nat, file: File, v': Version, next: nat)
    requires Flushed(v, level, file, v') && NumbersBelow(v, next) && file.number == next
    ensures NumbersBelow(v', next + 1)
  {
  }

  lemma FlushKeepsInv(st: State, level: nat, size: nat, st': State)
    requires Inv(st) && FlushStep(st, level, size, st')
    ensures Inv(st') && All(st') == All(st)
  {
    if |ImmEntries(st)| > 0 {
      FullFlushKeepsInv(st, level, size, st');
    } else {
      EmptyFlush(st);
    }
  }

  lemma EmptyFlush(st: State)
    requires Inv(st) && st.imm == Some([])
    ensures Inv(st.(imm := None, nextFile := st.nextFile + 1))
    ensures All(st.(imm := None, nextFile := st.nextFile + 1)) == All(st)
  {
    hide ValidVersion, Ordered, Stored, Sorted, Newer;
  }

  lemma SnapshotStepsKeepInv(st: State, i: nat)
    requires Inv(st)
    ensures Inv(st.(snapshots := st.snapshots + [st.lastSequence]))
    ensures i < |st.snapshots| ==> Inv(st.(snapshots := st.snapshots[..i] + st.snapshots[i + 1..]))
  {
    hide ValidVersion, Ordered, NumbersBelow, Stored, Sorted, Newer;
  }

  lemma {:induction false} WriteKeepsInv(st: State, ops: seq<Op>)
    requires Inv(st) && st.lastSequence + |ops| < MAX_SEQUENCE
    ensures Inv(WriteAll(st, ops))
    decreases |ops|
  {
    hide Inv;
    if |ops| > 0 {
      WriteOneKeepsInv(st, ops[0]);
      WriteKeepsInv(WriteOne(st, ops[0]), ops[1..]);
    }
  }

  /** Every step keeps the invariant. */
  lemma StepKeepsInv(st: State, ev: Event, st': State)
    requires Inv(st) && Next(st, ev, st')
    ensures Inv(st')
  {
    hide Inv, FlushStep, CompactStep, MoveStep;
    match ev
    case Write(ops) => WriteKeepsInv(st, ops);
    case Switch => SwitchKeepsInv(st);
    case Flush(level, size) => FlushKeepsInv(st, level, size, st');
    case Compact(level, inputs0, inputs1, input, outputs) =>
      CompactKeepsInv(st, level, inputs0, inputs1, input, outputs, st');
    case Move(level, file) => MoveKeepsInv(st, level, file, st');
    case Snapshot => SnapshotStepsKeepInv(st, 0);
    case Release(i) => SnapshotStepsKeepInv(st, i);
  }
}
