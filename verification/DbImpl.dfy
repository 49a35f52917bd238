/** class DBImpl of db/db_impl.cc: the operations that carry out the steps of Database.dfy on real fields. */
module DbImpl {
  import opened Options
  import opened InternalKeys
  import opened ReadSpec
  import opened Versions
  import opened Overlap
  import opened CompactionInputs
  import opened VersionEdits
  import opened ManifestReplay
  import opened Compactions
  import opened Install
  import opened SnapshotReads
  import opened Database
  import opened ManifestRuns
  import opened MapRefinement
  import opened TwoLevel
  import Merger

  // ---- reading through the layers ------------------------------------------------------------

  /** If the upper layer answers, its answer stands; if it does not, the lower layer decides. */
  lemma LayerDecides(upper: set<Entry>, lower: set<Entry>, u: UserKey, s: nat)
    requires Newer(upper, lower) && Identified(upper + lower)
    ensures Lookup(upper + lower, u, s) ==
      if NoneVisible(upper, u, s) then Lookup(lower, u, s) else Lookup(upper, u, s)
  {
    if !NoneVisible(upper, u, s) {
      var x := Newest(upper, u, s);
      LookupIs(upper, u, s, x);
      LookupIs(upper + lower, u, s, x);
    } else if !NoneVisible(lower, u, s) {
      var x := Newest(lower, u, s);
      LookupIs(lower, u, s, x);
      LookupIs(upper + lower, u, s, x);
    }
  }

  lemma SearchDecides(entries: seq<Entry>, u: UserKey, s: SequenceNumber)
    requires Sorted(entries)
    ensures Search(entries, u, s) == Lookup(Elements(entries), u, s)
    ensures Search(entries, u, s).NotFound? <==> NoneVisible(Elements(entries), u, s)
  {
    SearchFindsNewest(entries, u, s);
    SearchIsLookup(entries, u, s);
  }

  // ---- output files -----------------------------------------------------------------------------

  /** The output files: numbers in the order the files were opened. */
  function Numbered(outputs: seq<seq<Entry>>, next: nat, sizes: seq<nat>): (files: seq<File>)
    requires |sizes| == |outputs| && forall o :: o in outputs ==> |o| > 0
    ensures |files| == |outputs|
    ensures forall i :: 0 <= i < |outputs| ==> files[i] == TableOf(outputs[i], next + i, sizes[i])
  {
    seq(|outputs|, i requires 0 <= i < |outputs| => assert outputs[i] in outputs;
        TableOf(outputs[i], next + i, sizes[i]))
  }

  lemma {:induction false} FlattenMembers(outputs: seq<seq<Entry>>)
    ensures forall e :: e in Flatten(outputs) <==> exists i :: 0 <= i < |outputs| && e in outputs[i]
  {
    if |outputs| > 0 {
      var n := |outputs| - 1;
      FlattenMembers(outputs[..n]);
      forall e | e in outputs[n] || e in Flatten(outputs[..n])
        ensures exists i :: 0 <= i < |outputs| && e in outputs[i]
      {
        if e !in outputs[n] {
          var i :| 0 <= i < n && e in outputs[..n][i];
          assert outputs[i] == outputs[..n][i];
        }
      }
      forall e, i | 0 <= i < |outputs| && e in outputs[i] ensures e in Flatten(outputs) {
        assert i < n ==> outputs[..n][i] == outputs[i];
      }
    }
  }

  /** Pieces of a sorted stream are sorted, and each lies before the next. */
  lemma {:induction false} PiecesAreOrdered(outputs: seq<seq<Entry>>)
    requires Sorted(Flatten(outputs))
    ensures forall i :: 0 <= i < |outputs| ==> Sorted(outputs[i])
    ensures forall i, j, x, y :: 0 <= i < j < |outputs| && x in outputs[i] && y in outputs[j] ==> Before(x.key, y.key)
  {
    if |outputs| > 0 {
      var n := |outputs| - 1;
      SortedParts(Flatten(outputs[..n]), outputs[n]);
      PiecesAreOrdered(outputs[..n]);
      FlattenMembers(outputs[..n]);
      forall i, j, x, y | 0 <= i < j < |outputs| && x in outputs[i] && y in outputs[j] ensures Before(x.key, y.key) {
        assert outputs[..n][i] == outputs[i];
        if j < n {
          assert outputs[..n][j] == outputs[j];
        } else {
          assert x in Flatten(outputs[..n]);
        }
      }
      forall i | 0 <= i < |outputs| ensures Sorted(outputs[i]) {
        assert i < n ==> outputs[..n][i] == outputs[i];
      }
    }
  }

  lemma SortedParts(a: seq<Entry>, b: seq<Entry>)
    requires Sorted(a + b)
    ensures Sorted(a) && Sorted(b) && forall x, y :: x in a && y in b ==> Before(x.key, y.key)
  {
    forall i, j | 0 <= i < j < |a| ensures Before(a[i].key, a[j].key) {
      assert (a + b)[i] == a[i] && (a + b)[j] == a[j];
    }
    forall i, j | 0 <= i < j < |b| ensures Before(b[i].key, b[j].key) {
      assert (a + b)[|a| + i] == b[i] && (a + b)[|a| + j] == b[j];
    }
    forall x, y | x in a && y in b ensures Before(x.key, y.key) {
      var i :| 0 <= i < |a| && a[i] == x;
      var j :| 0 <= j < |b| && b[j] == y;
      assert (a + b)[i] == x && (a + b)[|a| + j] == y;
    }
  }

  lemma NumberedAreValid(outputs: seq<seq<Entry>>, next: nat, sizes: seq<nat>)
    requires |sizes| == |outputs| && (forall o :: o in outputs ==> |o| > 0)
    requires forall i :: 0 <= i < |outputs| ==> Sorted(outputs[i])
    ensures ValidFiles(Numbered(outputs, next, sizes)) &&
      OutputNumbers(Numbered(outputs, next, sizes), next, next + |outputs|)
  {
    var files := Numbered(outputs, next, sizes);
    forall i | 0 <= i < |files| ensures ValidFile(files[i]) {
      assert outputs[i] in outputs;
    }
  }

  lemma NumberedAreDisjoint(outputs: seq<seq<Entry>>, next: nat, sizes: seq<nat>)
    requires |sizes| == |outputs| && (forall o :: o in outputs ==> |o| > 0)
    requires forall i, j, x, y :: 0 <= i < j < |outputs| && x in outputs[i] && y in outputs[j] ==> Before(x.key, y.key)
    ensures Disjoint(Numbered(outputs, next, sizes))
  {
    var files := Numbered(outputs, next, sizes);
    forall i, j | 0 <= i < j < |files| ensures Before(files[i].largest, files[j].smallest) {
      assert outputs[i] in outputs && outputs[j] in outputs;
      assert outputs[i][|outputs[i]| - 1] in outputs[i] && outputs[j][0] in outputs[j];
    }
  }

  /** The numbered files are valid, disjoint, fresh, and hold exactly the surviving entries. */
  lemma NumberedFiles(outputs: seq<seq<Entry>>, next: nat, sizes: seq<nat>)
    requires |sizes| == |outputs| && (forall o :: o in outputs ==> |o| > 0) && Sorted(Flatten(outputs))
    ensures var files := Numbered(outputs, next, sizes);
      ValidFiles(files) && Disjoint(files) && FileEntries(files) == Elements(Flatten(outputs)) &&
      OutputNumbers(files, next, next + |outputs|)
  {
    hide Flatten, Disjoint, ValidFiles, FileEntries, OutputNumbers, Elements, Sorted;
    PiecesAreOrdered(outputs);
    NumberedAreValid(outputs, next, sizes);
    NumberedAreDisjoint(outputs, next, sizes);
    NumberedEntries(outputs, next, sizes);
  }

  lemma NumberedEntries(outputs: seq<seq<Entry>>, next: nat, sizes: seq<nat>)
    requires |sizes| == |outputs| && (forall o :: o in outputs ==> |o| > 0)
    ensures FileEntries(Numbered(outputs, next, sizes)) == Elements(Flatten(outputs))
  {
    var files := Numbered(outputs, next, sizes);
    FlattenMembers(outputs);
    forall e | e in Flatten(outputs) ensures e in FileEntries(files) {
      var i :| 0 <= i < |outputs| && e in outputs[i];
      assert files[i] in files && e in files[i].entries;
    }
    forall e | e in FileEntries(files) ensures e in Flatten(outputs) {
      var f :| f in files && e in f.entries;
      var i :| 0 <= i < |files| && files[i] == f;
    }
  }

  // ---- input runs -------------------------------------------------------------------------------

  lemma Level0ShareNothing(files: seq<File>, f: File, g: File, x: Entry, y: Entry)
    requires NumberIsAge(files) && DistinctNumbers(files) && f in files && g in files && f != g && x in f.entries &&
      y in g.entries
    ensures Before(x.key, y.key) || Before(y.key, x.key)
  {
    assert x in Elements(f.entries) && y in Elements(g.entries);
    assert f.number > g.number ==> Newer(Elements(f.entries), Elements(g.entries));
    assert g.number > f.number ==> Newer(Elements(g.entries), Elements(f.entries));
  }

  lemma LowerHasNoRepeat(v: Version, level: nat, inputs0: seq<File>, inputs1: seq<File>)
    requires LevelsValid(v) && LevelsDisjoint(v) && Legal(v, level, inputs0, inputs1)
    ensures NoRepeat(inputs0) && NoRepeat(inputs1)
  {
    hide Hull, Selected, NoRepeat, ValidFile;
    var below := v[level + 1];
    var r :| Hull(inputs0, r) && inputs1 == Selected(below, r);
    assert ValidFiles(below) && Disjoint(below);
    DisjointHasNoRepeat(below, 0, |below|);
    assert below[0..|below|] == below;
    SelectedHasNoRepeat(below, r);
  }

  /** Two level-0 inputs: one is newer than the other. */
  lemma Level0InputUnlike(v: Version, inputs: seq<File>, i: nat)
    requires ValidVersion(v) && NoRepeat(inputs) && (forall f :: f in inputs ==> f in v[0]) && i < |inputs|
    ensures Sorted(inputs[i].entries) && Merger.Unlike(FileEntries(inputs[..i]), Elements(inputs[i].entries))
  {
    hide LevelsDisjoint, ShallowerIsNewer, NumberIsAge, DistinctNumbers, Sorted, Before;
    var f := inputs[i];
    assert f in inputs && ValidFiles(v[0]);
    assert ValidFile(f);
    forall x, y | x in FileEntries(inputs[..i]) && y in Elements(f.entries)
      ensures Before(x.key, y.key) || Before(y.key, x.key)
    {
      var g :| g in inputs[..i] && x in g.entries;
      var j :| 0 <= j < i && inputs[j] == g;
      assert g in inputs;
      Level0ShareNothing(v[0], g, f, x, y);
    }
  }

  lemma {:induction false} SelectedIsDisjoint(files: seq<File>, r: Range)
    requires Disjoint(files)
    ensures Disjoint(Selected(files, r))
  {
    hide Before;
    if |files| > 0 {
      var n := |files| - 1;
      SelectedIsDisjoint(files[..n], r);
      SelectedMembers(files[..n], r);
      var before := Selected(files[..n], r);
      forall i | 0 <= i < |before| ensures Before(before[i].largest, files[n].smallest) {
        assert before[i] in before;
        var j :| 0 <= j < n && files[j] == before[i];
      }
    }
  }

  /** The inputs from a level above 0, and the lower inputs, are one run each. */
  lemma InputsAreRuns(v: Version, level: nat, inputs0: seq<File>, inputs1: seq<File>)
    requires ValidVersion(v) && Legal(v, level, inputs0, inputs1)
    ensures level > 0 ==> ValidFiles(inputs0) && Disjoint(inputs0)
    ensures ValidFiles(inputs1) && Disjoint(inputs1)
    ensures Newer(FileEntries(inputs0), FileEntries(inputs1))
  {
    hide NumberIsAge, UniqueNumbers, Hull, Selected, Before, Newer, ValidFile;
    SelectedAreFiles(v, level, inputs0, inputs1);
    var r :| Hull(inputs0, r) && inputs1 == Selected(v[level + 1], r);
    SelectedIsDisjoint(v[level + 1], r);
    assert ValidFiles(v[level]) && ValidFiles(v[level + 1]);
    if level > 0 {
      var a, b :| Severed(v[level], a, b) && inputs0 == v[level][a..b];
      assert Disjoint(v[level]);
    }
    assert Newer(FileEntries(v[level]), FileEntries(v[level + 1]));
    PartIsNewer(FileEntries(v[level]), FileEntries(v[level + 1]), FileEntries(inputs0), FileEntries(inputs1));
  }

  lemma PartIsNewer(a: set<Entry>, b: set<Entry>, x: set<Entry>, y: set<Entry>)
    requires Newer(a, b) && x <= a && y <= b
    ensures Newer(x, y)
  {
  }

  /** MakeInputIterator: a child for every level-0 input, and one for the inputs of any other level. */
  method InputRuns(level: nat, inputs0: seq<File>, inputs1: seq<File>, ghost v: Version) returns (runs: seq<seq<Entry>>)
    requires ValidVersion(v) && Legal(v, level, inputs0, inputs1)
    ensures Merger.Gathers(runs, FileEntries(inputs0) + FileEntries(inputs1))
  {
    hide ValidVersion, Sorted, Elements, FileEntries, Disjoint, ValidFiles, RunOf, Merger.Gathers, Merger.Unlike;
    hide NoRepeat, Newer, Isolated;
    runs := [];
    Merger.NothingGathered();
    NothingIn();
    InputsAreRuns(v, level, inputs0, inputs1);
    VersionIsSound(v);
    LowerHasNoRepeat(v, level, inputs0, inputs1);
    if level == 0 {
      for i := 0 to |inputs0|
        invariant Merger.Gathers(runs, FileEntries(inputs0[..i]))
      {
        Level0InputUnlike(v, inputs0, i);
        MoreFiles(inputs0, i);
        Merger.GathersMore(runs, FileEntries(inputs0[..i]), inputs0[i].entries);
        runs := runs + [inputs0[i].entries];
      }
      assert inputs0[..|inputs0|] == inputs0;
    } else {
      LevelIsOneRun(inputs0);
      Merger.UnlikeNothing(FileEntries(inputs0));
      Merger.GathersMore(runs, {}, RunOf(inputs0));
      runs := runs + [RunOf(inputs0)];
      assert {} + FileEntries(inputs0) == FileEntries(inputs0);
    }
    if |inputs1| > 0 {
      LevelIsOneRun(inputs1);
      Merger.NewerIsUnlike(FileEntries(inputs0), FileEntries(inputs1));
      Merger.GathersMore(runs, FileEntries(inputs0), RunOf(inputs1));
      runs := runs + [RunOf(inputs1)];
    } else {
      assert inputs1 == [];
      assert FileEntries(inputs0) + {} == FileEntries(inputs0);
    }
  }

  lemma GatheredRuns(runs: seq<seq<Entry>>, all: set<Entry>)
    requires Merger.Gathers(runs, all)
    ensures (forall c :: 0 <= c < |runs| ==> Sorted(runs[c])) && Merger.Distinct(runs)
    ensures Sorted(Merger.MergeAll(runs)) && Elements(Merger.MergeAll(runs)) == all
  {
    hide Merger.MergeAll;
    Merger.GatheredIsUnion(runs, all);
  }

  lemma NothingIn()
    ensures FileEntries([]) == {}
  {
  }

  lemma MoreFiles(files: seq<File>, i: nat)
    requires i < |files|
    ensures FileEntries(files[..0]) == {} &&
      FileEntries(files[..i + 1]) == FileEntries(files[..i]) + Elements(files[i].entries)
  {
    assert files[..i + 1] == files[..i] + [files[i]];
  }

  // ---- the class ----------------------------------------------------------------------------------

  lemma {:induction false} WriteAllSnoc(st: State, ops: seq<Op>, op: Op)
    requires st.lastSequence + |ops| + 1 <= MAX_SEQUENCE
    ensures WriteAll(st, ops).lastSequence == st.lastSequence + |ops|
    ensures WriteAll(st, ops + [op]) == WriteOne(WriteAll(st, ops), op)
    decreases |ops|
  {
    if |ops| == 0 {
      assert ops + [op] == [op] && [op][1..] == [];
    } else {
      assert (ops + [op])[1..] == ops[1..] + [op];
      WriteAllSnoc(WriteOne(st, ops[0]), ops[1..], op);
    }
  }

  class DBImpl {
    const versions: VersionSet
    const maxFileSize: nat
    var mem: seq<Entry>
    var imm: Option<seq<Entry>>
    var snapshots: seq<SequenceNumber>
    var logfileNumber: nat
    /** compact_pointer_: behind which key the next compaction of each level starts. */
    var compactPointers: seq<Option<IKey>>

    ghost function State(): State
      reads this, versions
    {
      Database.State.State(mem, imm, versions.current, versions.lastSequence, snapshots, versions.nextFileNumber)
    }

    ghost predicate Valid()
      reads this, versions
    {
      versions.Valid() && Inv(State()) && UsedFits(versions.current, versions.used, versions.nextFileNumber) &&
      LogsInOrder() && |compactPointers| == NUM_LEVELS
    }

    /** The number recorded last is that of the oldest log that is still needed: the log of the memtable, or an older
      one while the immutable memtable waits. */
    ghost predicate LogsInOrder()
      reads this, versions
    {
      versions.logNumber <= logfileNumber < versions.nextFileNumber && versions.prevLogNumber == 0 &&
      (imm.None? <==> versions.logNumber == logfileNumber)
    }

    /** What the manifest says last of the logs. */
    lemma RecordedLogs()
      requires Valid()
      ensures LogsInOrder()
      ensures versions.manifest.Some? ==>
        |versions.manifest.value| > 0 &&
        SaysLogs(versions.manifest.value[|versions.manifest.value| - 1].counters, versions.logNumber,
                 versions.prevLogNumber)
      ensures Inv(State()) && UsedFits(versions.current, versions.used, versions.nextFileNumber)
    {
      hide Inv, Stocked, LeadsTo, UsedFits, SaysLogs;
    }

    constructor (maxFileSize: nat)
      ensures Valid() && fresh(versions) && Refines(State(), Spec(map[], []))
      ensures versions.manifest.Some? && this.maxFileSize == maxFileSize
    {
      hide Inv, Refines, Stocked, LeadsTo, UsedFits, AddsFresh, UsedAfter, Installed, RecoverySpec, SnapshotFiles;
      hide SaysLogs;
      this.maxFileSize := maxFileSize;
      mem, imm, snapshots, compactPointers := [], None, [], [None, None, None, None, None, None, None];
      versions := new VersionSet();
      new;
      logfileNumber := versions.NewFileNumber();
      StartRefinesEmpty(3);
      EmptyStart(versions.current, versions.used, versions.nextFileNumber);
      versions.LogAndApply(Edit([], []), Some(logfileNumber), Some(0));
      assert State() == START.(nextFile := 3);
    }

    /** The database that DB::Open makes of a version set and a new log. */
    constructor Opened(versions: VersionSet, logNumber: nat, maxFileSize: nat)
      requires versions.Valid() && versions.logNumber == logNumber < versions.nextFileNumber &&
        versions.prevLogNumber == 0
      requires Inv(Database.State.State([], None, versions.current, versions.lastSequence, [], versions.nextFileNumber))
      requires UsedFits(versions.current, versions.used, versions.nextFileNumber)
      ensures Valid() && this.versions == versions && logfileNumber == logNumber && this.maxFileSize == maxFileSize
      ensures State() ==
        Database.State.State([], None, versions.current, versions.lastSequence, [], versions.nextFileNumber)
    {
      this.versions, this.maxFileSize, logfileNumber := versions, maxFileSize, logNumber;
      mem, imm, snapshots, compactPointers := [], None, [], [None, None, None, None, None, None, None];
    }

    /** Get: the memtable, then the immutable memtable, then the files. */
    method Get(u: UserKey, snapshot: Option<SequenceNumber>) returns (r: Option<string>)
      requires Valid()
      ensures r == Visible(All(State()), u, if snapshot.Some? then snapshot.value else versions.lastSequence)
    {
      hide ValidVersion, Ordered, NumbersBelow, NoneAfter, SnapshotsOrdered, UsedFits, Sorted, Stored, Newer;
      hide Elements, NoneVisible, Search;
      var s := if snapshot.Some? then snapshot.value else versions.lastSequence;
      ghost var st := State();
      LayersDecide(st, u, s);
      var a := Search(mem, u, s);
      if a.NotFound? && imm.Some? {
        a := Search(imm.value, u, s);
      }
      if a.NotFound? {
        a := Versions.Get(versions.current, u, s);
      }
      r := match a
        case Found(v) => Some(v)
        case Deleted => None
        case NotFound => None;
    }

    /** Applies a write batch: one sequence number per record, in order. */
    method Write(ops: seq<Op>)
      requires Valid() && versions.lastSequence + |ops| < MAX_SEQUENCE
      modifies this, versions
      ensures Valid() && Next(old(State()), Event.Write(ops), State()) && compactPointers == old(compactPointers)
      ensures versions.manifest == old(versions.manifest) && logfileNumber == old(logfileNumber)
    {
      hide ValidVersion, Ordered, NumbersBelow, NoneAfter, SnapshotsOrdered, UsedFits, Sorted, Stored, Newer;
      hide Elements, LeadsTo, Stocked, Inv, WriteAll, MemInsert;
      ghost var st := State();
      var sequence := versions.lastSequence;
      NothingWritten(st);
      for i := 0 to |ops|
        invariant sequence == st.lastSequence + i && versions.Valid()
        invariant st.lastSequence + |ops| < MAX_SEQUENCE
        invariant WriteAll(st, ops[..i]) == st.(mem := mem, lastSequence := sequence)
        invariant State() == st.(mem := mem) && logfileNumber == old(logfileNumber)
        invariant versions.logNumber == old(versions.logNumber) && versions.used == old(versions.used) &&
          compactPointers == old(compactPointers)
        invariant versions.prevLogNumber == 0 && versions.manifest == old(versions.manifest)
      {
        assert ops[..i + 1] == ops[..i] + [ops[i]];
        WriteAllSnoc(st, ops[..i], ops[i]);
        mem := MemInsert(mem, EntryOf(ops[i], sequence + 1));
        sequence := sequence + 1;
      }
      assert ops[..|ops|] == ops;
      versions.SetLastSequence(sequence);
      WriteKeepsInv(st, ops);
    }

    /** The last case of MakeRoomForWrite: a new log and a new memtable. */
    method SwitchMemTable()
      requires Valid() && imm.None?
      modifies this, versions
      ensures Valid() && Next(old(State()), Switch, State()) && logfileNumber == old(versions.nextFileNumber) &&
        compactPointers == old(compactPointers)
      ensures versions.manifest == old(versions.manifest) &&
        versions.logNumber == old(versions.logNumber) == old(logfileNumber)
    {
      hide Inv, LeadsTo, Stocked, UsedFits;
      ghost var st := State();
      SwitchKeepsInv(st);
      EmptyEditFits(versions.current, versions.used, versions.nextFileNumber);
      logfileNumber := versions.NewFileNumber();
      imm, mem := Some(mem), [];
    }

    method GetSnapshot() returns (s: SequenceNumber)
      requires Valid()
      modifies this`snapshots
      ensures Valid() && Next(old(State()), Event.Snapshot, State()) && s == versions.lastSequence
    {
      hide Inv, LeadsTo, Stocked, UsedFits;
      SnapshotStepsKeepInv(State(), 0);
      s := versions.lastSequence;
      snapshots := snapshots + [s];
    }

    method ReleaseSnapshot(i: nat)
      requires Valid() && i < |snapshots|
      modifies this`snapshots
      ensures Valid() && Next(old(State()), Release(i), State())
    {
      hide Inv, LeadsTo, Stocked, UsedFits;
      SnapshotStepsKeepInv(State(), i);
      snapshots := snapshots[..i] + snapshots[i + 1..];
    }

    /** CompactMemTable: the table, its level, the edit, the install. */
    method CompactMemTable(size: nat) returns (level: nat)
      requires Valid() && imm.Some?
      modifies this, versions
      ensures Valid() && Next(old(State()), Flush(level, size), State()) && imm.None? && mem == old(mem)
      ensures RecordedStep(old(versions.manifest), versions.manifest, old(State()), Some(Flush(level, size)),
                           old(logfileNumber), old(versions.logNumber), versions.nextFileNumber, versions.lastSequence)
      ensures versions.logNumber == logfileNumber == old(logfileNumber)
      ensures |old(imm).value| > 0 ==>
        PickedFor(old(versions.current), old(imm).value[0].key.user, old(imm).value[|old(imm).value| - 1].key.user,
                  maxFileSize, level)
    {
      hide Inv, LeadsTo, Stocked, UsedFits, AddsFresh, UsedAfter, Installed, Placed, RecoverySpec, PickedFor;
      hide LevelsValid, LevelsDisjoint, EditOf, FlushStep, Next, SaysLogs, RecordedStep;
      ghost var st, used := State(), versions.used;
      InvVersion(st);
      level := 0;
      var number := versions.NewFileNumber();
      var edit := Edit([], []);
      if |imm.value| > 0 {
        var f := TableOf(imm.value, number, size);
        level := PickLevelForMemTableOutput(versions.current, f.smallest.user, f.largest.user, maxFileSize);
        edit := Edit([], [(level, f)]);
      }
      FlushMoves(st, level, size, used, edit);
      versions.LogAndApply(edit, Some(logfileNumber), Some(0));
      imm := None;
      StepIsRecorded(old(versions.manifest), versions.manifest.value, st, Flush(level, size), edit, logfileNumber,
                     old(versions.logNumber), versions.nextFileNumber, versions.lastSequence);
    }

    /** A trivial move: the file goes one level down with its number and contents. */
    method MoveFile(level: nat, file: File)
      requires Valid() && Legal(versions.current, level, [file], [])
      modifies this, versions
      ensures Valid() && Next(old(State()), Move(level, file), State()) && mem == old(mem) && imm == old(imm) &&
        compactPointers == old(compactPointers)
      ensures RecordedStep(old(versions.manifest), versions.manifest, old(State()), Some(Move(level, file)),
                           old(logfileNumber), old(versions.logNumber), versions.nextFileNumber, versions.lastSequence)
      ensures logfileNumber == old(logfileNumber)
    {
      hide Inv, LeadsTo, Stocked, UsedFits, AddsFresh, UsedAfter, Installed, Legal, RecoverySpec, CompactionEdit;
      ghost var st, used := State(), versions.used;
      var edit := CompactionEdit(level, [file], [], [file]);
      ghost var st' := st.(version := Installed(st.version, edit));
      StepEditIsFresh(st, Move(level, file), st', used);
      StepKeepsInv(st, Move(level, file), st');
      versions.LogAndApply(edit, None, None);
    }

    /** OpenCompactionOutputFile for every output: the files of Numbered. */
    method NumberOutputs(outputs: seq<seq<Entry>>, sizes: int -> nat) returns (files: seq<File>)
      requires versions.Valid() && forall o :: o in outputs ==> |o| > 0
      modifies versions`nextFileNumber
      ensures versions.Valid() && versions.nextFileNumber == old(versions.nextFileNumber) + |outputs|
      ensures files == Numbered(outputs, old(versions.nextFileNumber), seq(|outputs|, i => sizes(i)))
    {
      hide LeadsTo, Stocked;
      files := [];
      for i := 0 to |outputs|
        invariant versions.Valid() && versions.nextFileNumber == old(versions.nextFileNumber) + i && |files| == i
        invariant forall j :: 0 <= j < i ==>
          outputs[j] in outputs && files[j] == TableOf(outputs[j], old(versions.nextFileNumber) + j, sizes(j))
      {
        var number := versions.NewFileNumber();
        files := files + [TableOf(outputs[i], number, sizes(i))];
      }
    }

    /** DoCompactionWork and InstallCompactionResults.  full(i) says whether the output file reaches its
        size limit with the i-th merged entry; sizes(i) is the size of the i-th output file. */
    method Compact(level: nat, inputs0: seq<File>, inputs1: seq<File>, grandparents: seq<File>, full: int -> bool,
                   sizes: int -> nat)
        returns (ghost ev: Event)
      requires Valid() && Legal(versions.current, level, inputs0, inputs1)
      modifies this, versions
      ensures Valid() && Next(old(State()), ev, State()) && mem == old(mem) && imm == old(imm) &&
        compactPointers == old(compactPointers)
      ensures ev.Compact? && ev.level == level && ev.inputs0 == inputs0 && ev.inputs1 == inputs1 && MadeWith(ev, sizes)
      ensures CutBy(ev, grandparents, maxFileSize, full)
      ensures RecordedStep(old(versions.manifest), versions.manifest, old(State()), Some(ev), old(logfileNumber),
                           old(versions.logNumber), versions.nextFileNumber, versions.lastSequence)
      ensures logfileNumber == old(logfileNumber)
    {
      hide Inv, LeadsTo, Stocked, UsedFits, AddsFresh, UsedAfter, Installed, Legal, RecoverySpec, Survivors;
      hide Flatten, Sorted, Numbered, CompactionEdit, Disjoint, ValidFiles, FileEntries, OutputNumbers;
      hide ValidVersion, LevelsValid, LevelsDisjoint, MadeWith, CutAsAsked, EntryLists;
      ghost var st := State();
      InvVersion(st);
      VersionIsSound(st.version);
      var runs := InputRuns(level, inputs0, inputs1, st.version);
      GatheredRuns(runs, FileEntries(inputs0) + FileEntries(inputs1));
      var input := Merger.MergeRuns(runs);
      var smallest := if |snapshots| == 0 then versions.lastSequence else snapshots[0];
      var c := new Compaction(level, versions.current, grandparents, maxFileSize);
      var fulls := PlanFor(grandparents, maxFileSize, input, full).full;
      assert PlanOf(c, input, fulls) == PlanFor(grandparents, maxFileSize, input, full);
      var outputs, at := DoCompactionWork(c, input, smallest, fulls);
      SurvivorsAreSorted(input, |input|, smallest, st.version, level);
      var files := NumberOutputs(outputs, sizes);
      NumberedFiles(outputs, st.nextFile, seq(|outputs|, i => sizes(i)));
      NumberedSizes(level, inputs0, inputs1, input, outputs, st.nextFile, sizes);
      NumberedLists(outputs, st.nextFile, seq(|outputs|, i => sizes(i)));
      ev := Event.Compact(level, inputs0, inputs1, input, files);
      assert CutBy(ev, grandparents, maxFileSize, full);
      InstallCompactionResults(level, inputs0, inputs1, files, st, ev);
    }

    /** InstallCompactionResults: the edit of the compaction is logged and installed. */
    method InstallCompactionResults(level: nat, inputs0: seq<File>, inputs1: seq<File>, outputs: seq<File>,
                                    ghost st: State, ghost ev: Event)
      requires versions.Valid() && State() == st.(nextFile := st.nextFile + |outputs|)
      requires Inv(st) && UsedFits(st.version, versions.used, st.nextFile) && LogsInOrder() &&
        |compactPointers| == NUM_LEVELS
      requires ev.Compact? && ev.level == level && ev.inputs0 == inputs0 && ev.inputs1 == inputs1 &&
        ev.outputs == outputs
      requires Next(st, ev,
                    State().(version := Installed(st.version, CompactionEdit(level, inputs0, inputs1, outputs))))
      modifies versions
      ensures Valid() && Next(st, ev, State())
      ensures RecordedStep(old(versions.manifest), versions.manifest, st, Some(ev), logfileNumber,
                           old(versions.logNumber), versions.nextFileNumber, versions.lastSequence)
    {
      hide Inv, LeadsTo, Stocked, UsedFits, AddsFresh, UsedAfter, Installed, RecoverySpec, CompactionEdit, CompactStep;
      var edit := CompactionEdit(level, inputs0, inputs1, outputs);
      ghost var st' := State().(version := Installed(st.version, edit));
      StepEditIsFresh(st, ev, st', versions.used);
      StepKeepsInv(st, ev, st');
      versions.LogAndApply(edit, None, None);
    }

    predicate IsTrivialMove(inputs0: seq<File>, inputs1: seq<File>, grandparents: seq<File>) {
      |inputs0| == 1 && |inputs1| == 0 && TotalFileSize(grandparents) <= 10 * maxFileSize
    }

    /** The manual request's part of BackgroundCompaction.  rest is what the request still asks for. */
    method CompactManually(level: nat, request: Range, full: int -> bool, sizes: int -> nat)
        returns (ghost ev: Option<Event>, rest: Option<Range>)
      requires Valid() && level + 1 < NUM_LEVELS
      modifies this, versions
      ensures Valid() && if ev.None? then State() == old(State()) else Next(old(State()), ev.value, State())
      ensures RecordedStep(old(versions.manifest), versions.manifest, old(State()), ev, old(logfileNumber),
                           old(versions.logNumber), versions.nextFileNumber, versions.lastSequence)
      ensures logfileNumber == old(logfileNumber)
      ensures ev.Some? ==> MadeWith(ev.value, sizes)
      ensures ev.Some? ==>
        ev.value.Compact? && ev.value.level == level && PointerMoved(old(compactPointers), compactPointers, ev.value)
      ensures ev.Some? ==> CutInside(old(versions.current), ev.value, maxFileSize, full)
      ensures DidRequested(old(versions.current), level, request, versions.current, maxFileSize, ev, rest)
    {
      hide Inv, LeadsTo, Stocked, UsedFits, Legal, Selected, Hull, Largest, Meets, ValidVersion, LevelsValid;
      hide LevelsDisjoint, CompactStep, Behind, RequestedInputs, Grandparents, CutBy, MadeWith;
      ghost var st := State();
      InvVersion(st);
      VersionIsSound(st.version);
      Level0HasNoRepeat(st);
      var some, inputs0, inputs1, grandparents, pointer := CompactRange(versions.current, level, request, maxFileSize);
      if !some {
        return None, None;
      }
      compactPointers := compactPointers[level := Some(pointer)];
      rest := Some(Behind(request, inputs0));
      var e := Compact(level, inputs0, inputs1, grandparents, full, sizes);
      CompactLeaves(st, e, State());
      ev := Some(e);
    }

    /** Its other part: whatever level is too full, or the file that too many reads went past. */
    method CompactPicked(fileToCompact: Option<(nat, File)>, full: int -> bool, sizes: int -> nat)
        returns (ghost ev: Option<Event>)
      requires Valid()
      requires fileToCompact.Some? ==>
        fileToCompact.value.0 + 1 < NUM_LEVELS && fileToCompact.value.1 in versions.current[fileToCompact.value.0]
      modifies this, versions
      ensures Valid() && if ev.None? then State() == old(State()) else Next(old(State()), ev.value, State())
      ensures RecordedStep(old(versions.manifest), versions.manifest, old(State()), ev, old(logfileNumber),
                           old(versions.logNumber), versions.nextFileNumber, versions.lastSequence)
      ensures logfileNumber == old(logfileNumber)
      ensures ev.Some? ==> MadeWith(ev.value, sizes)
      ensures ev.Some? ==>
        mem == old(mem) && (ev.value.Move? || ev.value.Compact?) &&
        PointerMoved(old(compactPointers), compactPointers, ev.value)
      ensures ev.Some? && ev.value.Compact? ==> CutInside(old(versions.current), ev.value, maxFileSize, full)
      ensures DidPicked(old(versions.current), fileToCompact, old(compactPointers), maxFileSize, ev)
    {
      hide Gapless, PickedInputs, Fullest, Grandparents, CutBy, TotalFileSize;
      hide Inv, LeadsTo, Stocked, UsedFits, Legal, Selected, Hull, Largest, Score, NextInTurn, ValidVersion;
      hide LevelsValid, LevelsDisjoint, CompactStep, MoveStep;
      ghost var st := State();
      InvVersion(st);
      VersionIsSound(st.version);
      Level0HasNoRepeat(st);
      var some, level, inputs0, inputs1, grandparents, pointer,
        picked := PickCompaction(versions.current, fileToCompact, compactPointers, maxFileSize);
      if !some {
        return None;
      }
      compactPointers := compactPointers[level := Some(pointer)];
      if IsTrivialMove(inputs0, inputs1, grandparents) {
        assert inputs0 == [inputs0[0]] && inputs1 == [];
        MoveFile(level, inputs0[0]);
        ev := Some(Move(level, inputs0[0]));
      } else {
        var e := Compact(level, inputs0, inputs1, grandparents, full, sizes);
        ev := Some(e);
      }
      assert TakenBy(ev.value) == inputs0 && TakenBelow(ev.value) == inputs1;
      assert Took(old(versions.current), ev.value, picked.value, maxFileSize);
    }

    /** BackgroundCompaction: a flush if a memtable waits; else the manual request, if there is one; else what
      PickCompaction picks. */
    method BackgroundCompaction(manual: Option<(nat, Range)>, fileToCompact: Option<(nat, File)>, full: int -> bool,
                                sizes: int -> nat)
        returns (ghost ev: Option<Event>, rest: Option<Range>)
      requires Valid() && (manual.Some? ==> manual.value.0 + 1 < NUM_LEVELS)
      requires fileToCompact.Some? ==>
        fileToCompact.value.0 + 1 < NUM_LEVELS && fileToCompact.value.1 in versions.current[fileToCompact.value.0]
      modifies this, versions
      ensures Valid() && if ev.None? then State() == old(State()) else Next(old(State()), ev.value, State())
      ensures RecordedStep(old(versions.manifest), versions.manifest, old(State()), ev, old(logfileNumber),
                           old(versions.logNumber), versions.nextFileNumber, versions.lastSequence)
      ensures logfileNumber == old(logfileNumber)
      ensures old(imm).Some? ==> ev.Some? && ev.value.Flush? && imm.None?
      ensures old(imm).Some? && manual.Some? ==> rest == Some(manual.value.1)
      ensures ev.Some? ==> MadeWith(ev.value, sizes)
      ensures ev.Some? && ev.value.Compact? ==> CutInside(old(versions.current), ev.value, maxFileSize, full)
      ensures old(imm).None? && ev.Some? ==>
        (ev.value.Move? || ev.value.Compact?) && PointerMoved(old(compactPointers), compactPointers, ev.value)
      ensures old(imm).None? && manual.None? ==>
        DidPicked(old(versions.current), fileToCompact, old(compactPointers), maxFileSize, ev)
      ensures old(imm).None? && manual.Some? ==>
        DidRequested(old(versions.current), manual.value.0, manual.value.1, versions.current, maxFileSize, ev, rest)
    {
      hide Inv, LeadsTo, Stocked, UsedFits, Legal, Selected, Hull, Score, NextInTurn, ValidVersion, LevelsValid;
      hide LevelsDisjoint;
      hide PointerMoved, TookFullest, TooFull, Meets, FlushStep, CompactStep, MoveStep, Gapless, DidPicked;
      hide DidRequested;
      hide CutInside;
      rest := if manual.Some? then Some(manual.value.1) else None;
      if imm.Some? {
        var flushed := CompactMemTable(sizes(0));
        ev := Some(Flush(flushed, sizes(0)));
      } else if manual.Some? {
        ev, rest := CompactManually(manual.value.0, manual.value.1, full, sizes);
      } else {
        ev := CompactPicked(fileToCompact, full, sizes);
      }
    }
  }

  /** A record of the manifest that says what a step did, and that logs older than this one are not needed. */
  ghost predicate Tells(r: Record, edit: Edit, log: nat, next: nat, last: nat) {
    r.edit == edit && r.counters == Counters(Some(log), Some(0), Some(next), Some(last)) && log < next
  }

  /** A step that logs puts one record behind those there are.  Behind a flush only the log of the memtable is needed;
    any other step needs the logs that were needed before. */
  ghost predicate RecordedStep(was: Option<seq<Record>>, now: Option<seq<Record>>, st: State, ev: Option<Event>,
                               current: nat, needed: nat, next: nat, last: nat) {
    if ev.None? then now == was
    else
      now.Some? && |now.value| > 0 && EditOf(st, ev.value).Some? &&
      Tells(now.value[|now.value| - 1], EditOf(st, ev.value).value, if ev.value.Flush? then current else needed, next,
            last) &&
      (was.Some? ==> now.value[..|now.value| - 1] == was.value)
  }

  lemma StepIsRecorded(was: Option<seq<Record>>, now: seq<Record>, st: State, ev: Event, edit: Edit, current: nat,
                       needed: nat, next: nat, last: nat)
    requires EditOf(st, ev) == Some(edit) && |now| > 0 && current < next && needed < next
    requires now[|now| - 1] ==
      Record(edit, Counters(Some(if ev.Flush? then current else needed), Some(0), Some(next), Some(last)))
    requires was.Some? ==> now[..|now| - 1] == was.value
    ensures RecordedStep(was, Some(now), st, Some(ev), current, needed, next, last)
  {
    hide EditOf;
  }

  /** The sizes of the files it makes are those given. */
  ghost predicate MadeWith(ev: Event, sizes: int -> nat) {
    match ev
    case Flush(_, size) => size == sizes(0)
    case Compact(_, _, _, _, outputs) => forall i :: 0 <= i < |outputs| ==> outputs[i].size == sizes(i)
    case _ => true
  }

  function EntryLists(files: seq<File>): (lists: seq<seq<Entry>>)
    ensures |lists| == |files|
  {
    seq(|files|, i requires 0 <= i < |files| => files[i].entries)
  }

  /** Each output of a compaction starts exactly where the file before it was full, or had passed too many bytes of the
    grandparents. */
  ghost predicate CutBy(ev: Event, grandparents: seq<File>, maxFileSize: nat, full: int -> bool) {
    ev.Compact? &&
    exists at :: CutAsAsked(PlanFor(grandparents, maxFileSize, ev.input, full), EntryLists(ev.outputs), at)
  }

  /** The scan starts in front of the first grandparent, with no key seen and nothing passed. */
  function PlanFor(grandparents: seq<File>, maxFileSize: nat, input: seq<Entry>, full: int -> bool): (p: Plan)
    ensures |p.full| == |input|
  {
    Plan(grandparents, maxFileSize, Scan(0, false, 0), input, seq(|input|, i => full(i)))
  }

  lemma NumberedLists(outputs: seq<seq<Entry>>, next: nat, sizes: seq<nat>)
    requires |sizes| == |outputs| && forall o :: o in outputs ==> |o| > 0
    ensures EntryLists(Numbered(outputs, next, sizes)) == outputs
  {
    forall i | 0 <= i < |outputs| ensures EntryLists(Numbered(outputs, next, sizes))[i] == outputs[i] {
      assert outputs[i] in outputs;
    }
  }

  lemma NumberedSizes(level: nat, inputs0: seq<File>, inputs1: seq<File>, input: seq<Entry>, outputs: seq<seq<Entry>>,
                      next: nat, sizes: int -> nat)
    requires forall o :: o in outputs ==> |o| > 0
    ensures MadeWith(Compact(level, inputs0, inputs1, input, Numbered(outputs, next, seq(|outputs|, i => sizes(i)))),
                     sizes)
  {
    var files := Numbered(outputs, next, seq(|outputs|, i => sizes(i)));
    forall i | 0 <= i < |files| ensures files[i].size == sizes(i) {
      assert outputs[i] in outputs;
    }
  }

  /** Some level needs a compaction for its size. */
  ghost predicate TooFull(v: Version)
    requires |v| == NUM_LEVELS
  {
    exists l :: 0 <= l < NUM_LEVELS - 1 && Score(v, l) >= 1.0
  }

  /** The files a compaction or a move takes out of its level. */
  function TakenBy(ev: Event): seq<File> {
    match ev
    case Move(_, file) => [file]
    case Compact(_, inputs0, _, _, _) => inputs0
    case _ => []
  }

  /** And those it takes out of the next level. */
  function TakenBelow(ev: Event): seq<File> {
    if ev.Compact? then ev.inputs1 else []
  }

  /** The step takes what SetupOtherInputs makes of f, and it is a move exactly if that is one file that meets no file
    of the next level, and not too many bytes of the level after that. */
  ghost predicate Took(v: Version, ev: Event, f: File, maxFileSize: nat) {
    LevelsValid(v) && (ev.Move? || ev.Compact?) && ev.level + 1 < |v| && |TakenBy(ev)| > 0 &&
    PickedInputs(v, ev.level, f, maxFileSize, TakenBy(ev), TakenBelow(ev)) &&
    (ev.Move? <==> |TakenBy(ev)| == 1 && |TakenBelow(ev)| == 0 &&
                   TotalFileSize(Grandparents(v, ev.level, TakenBy(ev), TakenBelow(ev))) <= 10 * maxFileSize)
  }

  ghost predicate TookRequested(v: Version, ev: Event, request: Range, maxFileSize: nat) {
    LevelsValid(v) && ev.Compact? && ev.level + 1 < |v| &&
    RequestedInputs(v, ev.level, request, maxFileSize, ev.inputs0, ev.inputs1)
  }

  /** What is done when nobody asked: the fullest level if one is too full, else the file that too many reads went past,
    else nothing. */
  ghost predicate DidPicked(v: Version, fileToCompact: Option<(nat, File)>, compactPointers: seq<Option<IKey>>,
                            maxFileSize: nat, ev: Option<Event>) {
    |v| == NUM_LEVELS == |compactPointers| && (ev.Some? <==> fileToCompact.Some? || TooFull(v)) &&
    (ev.Some? ==>
       if TooFull(v) then TookFullest(v, compactPointers, ev.value, maxFileSize)
       else
         (ev.value.Move? || ev.value.Compact?) && ev.value.level == fileToCompact.value.0 &&
         fileToCompact.value.1 in TakenBy(ev.value) &&
         Took(v, ev.value, fileToCompact.value.1, maxFileSize)) &&
    (ev.Some? && ev.value.Compact? ==> Gapless(ev.value.inputs0 + ev.value.inputs1))
  }

  /** What a manual request does: nothing exactly if no file meets it; else it takes its first files, and what is left
    of it still asks for all that it met and did not take. */
  ghost predicate DidRequested(v: Version, level: nat, request: Range, now: Version, maxFileSize: nat,
                               ev: Option<Event>, rest: Option<Range>) {
    level < |v| && level < |now| && (ev.Some? <==> exists f :: f in v[level] && Meets(f, request)) &&
    (ev.Some? <==> rest.Some?) &&
    (ev.Some? ==>
       ev.value.Compact? && ev.value.level == level && TookRequested(v, ev.value, request, maxFileSize) &&
       rest.value == Behind(request, ev.value.inputs0) &&
       forall f :: f in now[level] && Meets(f, request) ==> Meets(f, rest.value))
  }

  /** Its outputs are cut as its own grandparents ask for. */
  ghost predicate CutInside(v: Version, ev: Event, maxFileSize: nat, full: int -> bool) {
    ev.Compact? && |ev.inputs0| > 0 &&
    CutBy(ev, Grandparents(v, ev.level, ev.inputs0, ev.inputs1), maxFileSize, full)
  }

  /** The next compaction of the level starts behind the largest key taken, and those of the others where they did. */
  ghost predicate PointerMoved(was: seq<Option<IKey>>, now: seq<Option<IKey>>, ev: Event) {
    (ev.Move? || ev.Compact?) && ev.level < |was| &&
    exists k :: Largest(TakenBy(ev), k) && now == was[ev.level := Some(k)]
  }

  /** The step takes the file whose turn it is in the fullest level. */
  ghost predicate TookFullest(v: Version, compactPointers: seq<Option<IKey>>, ev: Event, maxFileSize: nat)
    requires |v| == NUM_LEVELS == |compactPointers|
  {
    (ev.Move? || ev.Compact?) && ev.level + 1 < NUM_LEVELS && Fullest(v, ev.level) &&
    exists f ::
      f in TakenBy(ev) && NextInTurn(v[ev.level], compactPointers[ev.level], f) && Took(v, ev, f, maxFileSize)
  }

  /** A compaction leaves nothing in its level that was not there, and none of its inputs. */
  lemma CompactLeaves(st: State, ev: Event, st': State)
    requires Inv(st) && ev.Compact? && Next(st, ev, st')
    ensures |st.version| == |st'.version| == NUM_LEVELS && ev.level < NUM_LEVELS
    ensures forall f :: f in st'.version[ev.level] ==> f in st.version[ev.level] && f !in ev.inputs0
  {
    hide Inv, Stored, Sorted, Survivors, FileEntries, Disjoint, ValidFiles, Legal, Installed, OutputNumbers, Elements;
    CompactionStepRan(st, ev.level, ev.inputs0, ev.inputs1, ev.input, ev.outputs, st');
    InvVersion(st);
    SameLevels(st.version, ev.level, ev.inputs0, ev.inputs1, ev.outputs, st'.version);
    LevelOfLegal(st.version, ev.level, ev.inputs0, ev.inputs1);
  }

  lemma LevelOfLegal(v: Version, level: nat, inputs0: seq<File>, inputs1: seq<File>)
    requires Legal(v, level, inputs0, inputs1)
    ensures level + 1 < |v|
  {
  }

  lemma EmptyStart(v: Version, used: seq<set<nat>>, next: nat)
    requires v == seq(NUM_LEVELS, i => []) && used == seq(NUM_LEVELS, i => {})
    ensures v == START.version && Installed(v, Edit([], [])) == v
    ensures AddsFresh(Edit([], []), used) && UsedFits(v, UsedAfter(used, Edit([], [])), next)
  {
    hide Inv, UsedFits, AddsFresh, UsedAfter, Installed, ValidVersion;
    NothingUsed(v, used, next);
    EmptyEditFits(v, used, next);
    StartRefinesEmpty(2);
    assert START.(nextFile := 2) == START;
    InvVersion(START);
    EmptyEditInstalls(v);
  }

  lemma NothingUsed(v: Version, used: seq<set<nat>>, next: nat)
    requires v == seq(NUM_LEVELS, i => []) && used == seq(NUM_LEVELS, i => {})
    ensures UsedFits(v, used, next) && v == START.version
  {
  }

  lemma VersionIsSound(v: Version)
    requires ValidVersion(v)
    ensures LevelsValid(v) && LevelsDisjoint(v) && |v| == NUM_LEVELS
  {
  }

  lemma Level0HasNoRepeat(st: State)
    requires Inv(st)
    ensures |st.version| == NUM_LEVELS && NoRepeat(st.version[0])
  {
    hide ValidVersion, Stored, NumbersBelow, NoneAfter, SnapshotsOrdered, Sorted, Newer;
    VersionIsSound(st.version);
    OrderedHasNoRepeat(st.version[0]);
  }

  lemma OrderedHasNoRepeat(files: seq<File>)
    requires Ordered(files)
    ensures NoRepeat(files)
  {
  }

  /** A flush to the picked level is a step, and its edit is what the step logs. */
  lemma FlushMoves(st: State, level: nat, size: nat, used: seq<set<nat>>, edit: Edit)
    requires Inv(st) && st.imm.Some? && UsedFits(st.version, used, st.nextFile) && level < NUM_LEVELS
    requires if |st.imm.value| == 0 then edit == Edit([], []) && level == 0
             else
               edit == Edit([], [(level, TableOf(st.imm.value, st.nextFile, size))]) &&
               Placed(st.version, level, st.imm.value[0].key.user,
                      st.imm.value[|st.imm.value| - 1].key.user)
    ensures var st' := FlushedState(st, level, size);
      Next(st, Flush(level, size), st') && Inv(st') && st'.version == Installed(st.version, edit) &&
      UsedFits(st'.version, UsedAfter(used, edit), st'.nextFile)
    ensures AddsFresh(edit, used) && EditOf(st, Flush(level, size)) == Some(edit)
  {
    hide Inv, UsedFits, AddsFresh, UsedAfter, Installed;
    InvVersion(st);
    if |st.imm.value| == 0 {
      EmptyEditInstalls(st.version);
    }
    var st' := FlushedState(st, level, size);
    StepEditIsFresh(st, Flush(level, size), st', used);
    StepKeepsInv(st, Flush(level, size), st');
  }

  ghost function FlushedState(st: State, level: nat, size: nat): State
    requires st.imm.Some?
  {
    if |st.imm.value| == 0 then st.(imm := None, nextFile := st.nextFile + 1)
    else st.(imm := None, nextFile := st.nextFile + 1,
             version := Installed(st.version, Edit([], [(level, TableOf(st.imm.value, st.nextFile, size))])))
  }

  lemma NothingWritten(st: State)
    ensures WriteAll(st, []) == st
  {
  }

  lemma LayersDecide(st: State, u: UserKey, s: SequenceNumber)
    requires Inv(st)
    ensures Lookup(All(st), u, s) ==
      if !Search(st.mem, u, s).NotFound? then Search(st.mem, u, s)
      else if !Search(ImmEntries(st), u, s).NotFound? then Search(ImmEntries(st), u, s)
      else Lookup(Stored(st.version), u, s)
    ensures Search([], u, s).NotFound? && ValidVersion(st.version)
  {
    hide ValidVersion, Ordered, NumbersBelow, NoneAfter, SnapshotsOrdered, Stored, Search, NoneVisible;
    SearchDecides(st.mem, u, s);
    SearchDecides(ImmEntries(st), u, s);
    NothingFound(u, s);
    StateIsIdentified(st);
    LayerDecides(MemSet(st), Stored(st.version), u, s);
    assert Identified(MemSet(st));
    LayerDecides(Elements(st.mem), Elements(ImmEntries(st)), u, s);
    UnionVisible(Elements(st.mem), Elements(ImmEntries(st)), u, s);
  }

  lemma NothingFound(u: UserKey, s: SequenceNumber)
    ensures Search([], u, s).NotFound?
  {
  }

  lemma UnionVisible(a: set<Entry>, b: set<Entry>, u: UserKey, s: nat)
    ensures NoneVisible(a + b, u, s) <==> NoneVisible(a, u, s) && NoneVisible(b, u, s)
  {
  }
}
