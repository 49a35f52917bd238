/** The flush that DoCompactionWork of db/db_impl.cc puts in between when a memtable waits: the table may go to the
  level the compaction writes to, into a gap between the files it reads. */
module FlushInCompaction {
  import opened Options
  import opened InternalKeys
  import opened ReadSpec
  import opened Versions
  import opened Overlap
  import opened CompactionInputs
  import opened VersionEdits
  import opened ManifestReplay
  import opened Compactions
  import opened SnapshotReads
  import opened Install
  import opened Database
  import opened MapRefinement
  import opened CrashConsistency

  /** The output starts before the table and ends behind it. */
  predicate Spans(output: File, table: File) {
    output.smallest.user < table.smallest.user && table.largest.user < output.largest.user
  }

  function Table(st: State, number: nat, size: nat): File
    requires |ImmEntries(st)| > 0
  {
    TableOf(ImmEntries(st), number, size)
  }

  /** The compaction alone would lead from st to done; the table takes one of the numbers in between, and its level is
    picked in the files before the compaction. */
  ghost predicate Interrupts(st: State, ev: Event, done: State, level: nat, number: nat, size: nat) {
    Inv(st) && ev.Compact? && Next(st, ev, done) && |ImmEntries(st)| > 0 && level < NUM_LEVELS &&
    st.nextFile <= number < done.nextFile && number !in Numbers(ev.outputs) &&
    Placed(st.version, level, Table(st, number, size).smallest.user, Table(st, number, size).largest.user)
  }

  /** The table is logged first, then the results of the compaction. */
  ghost function Interrupted(st: State, ev: Event, done: State, level: nat, number: nat, size: nat): State
    requires ev.Compact? && |ImmEntries(st)| > 0
  {
    var flushed := Installed(st.version, Edit([], [(level, Table(st, number, size))]));
    done.(imm := None, version := Installed(flushed, CompactionEdit(ev.level, ev.inputs0, ev.inputs1, ev.outputs)))
  }

  // ---- which files there are afterwards -----------------------------------------------------------------

  lemma StepFacts(st: State, ev: Event, done: State)
    requires Inv(st) && ev.Compact? && Next(st, ev, done)
    ensures Ran(st.version, ev.level, ev.inputs0, ev.inputs1, ev.input, SmallestSnapshot(st), ev.outputs, done.version)
    ensures OutputNumbers(ev.outputs, st.nextFile, done.nextFile) && Inv(done)
    ensures done == st.(nextFile := done.nextFile, version := done.version)
    ensures ValidVersion(st.version) && Ordered(st.version[0]) && NumbersBelow(st.version, st.nextFile)
    ensures Newer(MemSet(st), Stored(st.version)) && |st.version| == NUM_LEVELS
  {
    hide ValidVersion, Ordered, Stored, NumbersBelow, Legal, Sorted, Survivors, FileEntries, Disjoint, ValidFiles;
    hide Installed, Newer, Ran;
    hide OutputNumbers, NoneAfter, Elements;
    CompactionStepRan(st, ev.level, ev.inputs0, ev.inputs1, ev.input, ev.outputs, done);
    StepKeepsInv(st, ev, done);
    VersionHasLevels(st.version);
  }

  lemma VersionHasLevels(v: Version)
    requires ValidVersion(v)
    ensures |v| == NUM_LEVELS
  {
  }

  /** One level with the table, and then with the results of the compaction. */
  lemma LevelAfter(was: seq<File>, flushed: seq<File>, compacted: seq<File>, both: seq<File>, edit: Edit, l: nat,
                   deleted: set<nat>, added: set<File>, come: seq<File>)
    requires AddsOnce(edit.added, l) && DeletedAt(edit.deleted, l) == deleted && AddedAt(edit.added, l) == added
    requires Ordered(was) && Ordered(flushed) && (forall f :: f in flushed <==> f in was || f in come)
    requires compacted == Saved(was, Applied(EMPTY, edit, l)) && both == Saved(flushed, Applied(EMPTY, edit, l))
    requires forall f, a :: (f in was || f in come) && a in added ==> f.number != a.number
    requires forall a :: a in added || a in come ==> a.number !in deleted
    ensures Exchanged(compacted, [], come, both)
  {
    hide Saved, Applied, DeletedAt, AddedAt, AddsOnce, Ordered;
    InstalledLevel(was, edit, l, deleted, added);
    InstalledLevel(flushed, edit, l, deleted, added);
  }

  /** Numbers of outputs are on no file of the version. */
  lemma OutputIsNew(v: Version, outputs: seq<File>, next: nat, l: nat, f: File, a: File)
    requires NumbersBelow(v, next) && (forall o :: o in outputs ==> next <= o.number) && l < |v| && f in v[l] &&
      a in outputs
    ensures f.number != a.number
  {
  }

  lemma InputNumbers(v: Version, ev: Event, next: nat, l: nat, n: nat)
    requires ev.Compact? && Legal(v, ev.level, ev.inputs0, ev.inputs1) && NumbersBelow(v, next)
    requires n in Numbers(ev.inputs0) || n in Numbers(ev.inputs1)
    ensures n < next
  {
    hide Hull;
    SelectedAreFiles(v, ev.level, ev.inputs0, ev.inputs1);
    if g :| g in ev.inputs0 && g.number == n {
      assert g in v[ev.level];
    } else {
      var g :| g in ev.inputs1 && g.number == n;
      assert g in v[ev.level + 1];
    }
  }

  /** The table is one file more than the compaction alone leaves. */
  lemma OneFileMore(st: State, ev: Event, done: State, level: nat, number: nat, size: nat)
    requires Interrupts(st, ev, done, level, number, size)
    ensures Flushed(done.version, level, Table(st, number, size),
                    Interrupted(st, ev, done, level, number, size).version)
  {
    hide Inv, ValidVersion, Ordered, Stored, NumbersBelow, Sorted, Survivors, FileEntries, Disjoint, ValidFiles;
    hide Newer, Placed, Table;
    hide Numbers, DeletedAt, AddedAt, AddsOnce, Saved, Applied, Elements, ApartNumbers, DistinctNumbers, Legal;
    StepFacts(st, ev, done);
    var v, f, edit := st.version, Table(st, number, size), CompactionEdit(ev.level, ev.inputs0, ev.inputs1, ev.outputs);
    NumberOfTable(st, number, size);
    MoreBelow(v, st.nextFile, number);
    InstalledIsFlushed(v, level, f);
    LevelsAreOrdered(v);
    var flushed := Installed(v, Edit([], [(level, f)]));
    forall l | 0 <= l < NUM_LEVELS
      ensures Exchanged(done.version[l], [], if l == level then [f] else [],
                        Interrupted(st, ev, done, level, number, size).version[l])
    {
      AtLevel(st, ev, done, l);
      var come := if l == level then [f] else [];
      var deleted :=
        (if l == ev.level then Numbers(ev.inputs0) else {}) + (if l == ev.level + 1 then Numbers(ev.inputs1) else {});
      var added := if l == ev.level + 1 then (set o | o in ev.outputs) else {};
      forall g, a | (g in v[l] || g in come) && a in added ensures g.number != a.number {
        if g in v[l] {
          OutputIsNew(v, ev.outputs, st.nextFile, l, g, a);
        } else {
          NumberIsNone(ev.outputs, a);
        }
      }
      forall a | a in added || a in come ensures a.number !in deleted {
        if a.number in deleted {
          InputNumbers(v, ev, st.nextFile, l, a.number);
        }
      }
      LevelAfter(v[l], flushed[l], done.version[l], Interrupted(st, ev, done, level, number, size).version[l], edit,
                 l, deleted, added, come);
    }
    SameOtherLevels(done.version, level, f, Interrupted(st, ev, done, level, number, size).version);
  }

  lemma NumberOfTable(st: State, number: nat, size: nat)
    requires |ImmEntries(st)| > 0
    ensures Table(st, number, size).number == number
  {
  }

  lemma NumberIsNone(outputs: seq<File>, a: File)
    requires a in outputs
    ensures a.number in Numbers(outputs)
  {
  }

  lemma MoreBelow(v: Version, next: nat, more: nat)
    requires NumbersBelow(v, next) && next <= more
    ensures NumbersBelow(v, more)
  {
  }

  /** What the edit of the compaction deletes and adds on one level. */
  lemma AtLevel(st: State, ev: Event, done: State, l: nat)
    requires Inv(st) && ev.Compact? && Next(st, ev, done) && l < NUM_LEVELS && |st.version| == NUM_LEVELS
    requires OutputNumbers(ev.outputs, st.nextFile, done.nextFile)
    ensures var edit := CompactionEdit(ev.level, ev.inputs0, ev.inputs1, ev.outputs);
      AddsOnce(edit.added, l) &&
      AddedAt(edit.added, l) == (if l == ev.level + 1 then (set o | o in ev.outputs) else {}) &&
      DeletedAt(edit.deleted, l) ==
        (if l == ev.level then Numbers(ev.inputs0) else {}) + (if l == ev.level + 1 then Numbers(ev.inputs1) else {}) &&
      |done.version| == NUM_LEVELS && done.version[l] == Saved(st.version[l], Applied(EMPTY, edit, l)) &&
      Legal(st.version, ev.level, ev.inputs0, ev.inputs1)
  {
    hide Inv, Legal, Sorted, Survivors, FileEntries, Disjoint, ValidFiles, Elements, Saved, Applied, AddsOnce;
    hide AddedAt, DeletedAt;
    hide DistinctNumbers, ApartNumbers;
    EditAt(ev.level, ev.inputs0, l);
    EditAt(ev.level + 1, ev.inputs1, l);
    EditAt(ev.level + 1, ev.outputs, l);
    DeletedAtConcat(DeletionsOf(ev.level, ev.inputs0), DeletionsOf(ev.level + 1, ev.inputs1), l);
  }

  lemma SameOtherLevels(v: Version, level: nat, f: File, v': Version)
    requires level < |v| == |v'| &&
      forall l :: 0 <= l < |v| ==> Exchanged(v[l], [], if l == level then [f] else [], v'[l])
    requires forall l :: 0 <= l < |v| ==> Ordered(v[l])
    ensures Flushed(v, level, f, v')
  {
    hide Ordered;
    forall l | 0 <= l < |v| && l != level ensures v'[l] == v[l] {
      assert Exchanged(v[l], [], [], v'[l]);
      OrderedIsUnique(v'[l], v[l]);
    }
  }

  // ---- where the table lies ---------------------------------------------------------------------------------

  /** The keys of an output come from inputs, none of which reaches into the table. */
  lemma OutputKeys(v: Version, ev: Event, snapshot: nat, v': Version, level: nat, f: File, o: File, e: Entry)
    requires ev.Compact? && Ran(v, ev.level, ev.inputs0, ev.inputs1, ev.input, snapshot, ev.outputs, v')
    requires Clear(v, level, f.smallest.user, f.largest.user) && ev.level + 1 <= level && o in ev.outputs &&
      e in o.entries
    ensures e.key.user < f.smallest.user || f.largest.user < e.key.user
  {
    hide LevelsDisjoint, ShallowerIsNewer, NumberIsAge, UniqueNumbers, Sorted, Survivors, Legal, Compacted;
    StoredAfterIsOld(v, ev.level, ev.inputs0, ev.inputs1, ev.input, snapshot, ev.outputs, v');
    InFiles(ev.outputs, o, e);
    assert e in FileEntries(ev.inputs0) + FileEntries(ev.inputs1);
    InputLevel(v, ev.level, ev.inputs0, ev.inputs1, e);
    InputLevels(v, ev.level, ev.inputs0, ev.inputs1);
    var l := if e in FileEntries(v[ev.level]) then ev.level else ev.level + 1;
    var g := EntryFile(v[l], e);
    KeyBeside(v, level, f, l, g, e);
  }

  lemma InputLevels(v: Version, level: nat, inputs0: seq<File>, inputs1: seq<File>)
    requires Legal(v, level, inputs0, inputs1)
    ensures level + 1 < |v|
  {
  }

  lemma KeyBeside(v: Version, level: nat, f: File, l: nat, g: File, e: Entry)
    requires LevelsValid(v) && Clear(v, level, f.smallest.user, f.largest.user) && l <= level && l < |v| &&
      g in v[l] && e in g.entries
    ensures e.key.user < f.smallest.user || f.largest.user < e.key.user
  {
    assert ValidFiles(v[l]);
    Bounds(g, e);
    assert !Touches(g, Some(f.smallest.user), Some(f.largest.user));
  }

  /** An output of the same level is apart from the table if and only if it does not span it. */
  lemma ApartUnlessSpanned(v: Version, ev: Event, snapshot: nat, v': Version, f: File, o: File)
    requires ev.Compact? && Ran(v, ev.level, ev.inputs0, ev.inputs1, ev.input, snapshot, ev.outputs, v')
    requires Clear(v, ev.level + 1, f.smallest.user, f.largest.user) && ValidFile(f) && o in ev.outputs
    ensures Install.Apart(f, o) <==> !Spans(o, f)
  {
    hide LevelsValid, LevelsDisjoint, ShallowerIsNewer, NumberIsAge, UniqueNumbers, Sorted, Survivors, Legal;
    hide Compacted, Clear, FileEntries;
    assert ValidFile(o);
    var low, high := o.entries[0], o.entries[|o.entries| - 1];
    OutputKeys(v, ev, snapshot, v', ev.level + 1, f, o, low);
    OutputKeys(v, ev, snapshot, v', ev.level + 1, f, o, high);
    Bounds(o, low);
    Bounds(f, f.entries[0]);
  }

  /** What is in the table shares no key with what is shallower. */
  lemma ShallowerSharesNothing(v: Version, ev: Event, snapshot: nat, v': Version, level: nat, f: File, l: nat,
                               x: Entry, y: Entry)
    requires ev.Compact? && Ran(v, ev.level, ev.inputs0, ev.inputs1, ev.input, snapshot, ev.outputs, v') &&
      l < level < |v|
    requires Clear(v, level, f.smallest.user, f.largest.user) && ValidFile(f)
    requires x in FileEntries(v'[l]) && y in f.entries
    ensures x.key.user != y.key.user
  {
    hide LevelsDisjoint, ShallowerIsNewer, NumberIsAge, UniqueNumbers, Sorted, Survivors, Legal, Clear, FileEntries;
    hide ValidFile, Hull;
    var g := EntryFile(v'[l], x);
    if g in v[l] {
      KeyBeside(v, level, f, l, g, x);
    } else {
      OutputKeys(v, ev, snapshot, v', level, f, g, x);
    }
    Bounds(f, y);
  }

  lemma TreeIsNewer(v: Version, ev: Event, snapshot: nat, v': Version, level: nat, f: File, w: Version)
    requires ev.Compact? && Ran(v, ev.level, ev.inputs0, ev.inputs1, ev.input, snapshot, ev.outputs, v') && level < |v|
    requires Placed(v, level, f.smallest.user, f.largest.user) && ValidFile(f) && ShallowerIsNewer(v') &&
      Flushed(v', level, f, w)
    requires Newer(Elements(f.entries), Stored(v'))
    ensures ShallowerIsNewer(w)
  {
    hide ValidVersion, Ran, FileEntries, Exchanged, ValidFile, Clear;
    forall l, m, x, y | 0 <= l < m < |w| && x in FileEntries(w[l]) && y in FileEntries(w[m]) && x.key.user == y.key.user
      ensures x.key.sequence > y.key.sequence
    {
      FlushedEntries(v', level, f, w, l, x);
      FlushedEntries(v', level, f, w, m, y);
      if y in FileEntries(v'[m]) {
        if x in FileEntries(v'[l]) {
          assert Newer(FileEntries(v'[l]), FileEntries(v'[m]));
        } else {
          assert x in Elements(f.entries) && y in Stored(v');
        }
      } else {
        ShallowerSharesNothing(v, ev, snapshot, v', level, f, l, x, y);
      }
    }
  }

  /** The level of the table is disjoint if and only if no output of the same level spans it. */
  lemma TableLevel(v: Version, ev: Event, snapshot: nat, v': Version, level: nat, f: File, w: Version)
    requires ev.Compact? && Ran(v, ev.level, ev.inputs0, ev.inputs1, ev.input, snapshot, ev.outputs, v') &&
      0 < level < |v|
    requires Clear(v, level, f.smallest.user, f.largest.user) && ValidFile(f) && Flushed(v', level, f, w)
    requires ValidFiles(v'[level]) && Disjoint(v'[level]) && f !in v'[level]
    ensures Disjoint(w[level]) <==> (level == ev.level + 1 ==> forall o :: o in ev.outputs ==> !Spans(o, f))
  {
    hide LevelsValid, LevelsDisjoint, ShallowerIsNewer, NumberIsAge, UniqueNumbers, Sorted, Survivors, Legal;
    hide FileEntries, Spans;
    DisjointIsApart(v'[level]);
    assert ValidFiles(w[level]);
    forall g | g in v'[level] && g in v[level] ensures Install.Apart(f, g) {
      assert !Touches(g, Some(f.smallest.user), Some(f.largest.user));
    }
    if level == ev.level + 1 {
      OutputsAreThere(v, ev, snapshot, v');
      forall o | o in ev.outputs ensures Install.Apart(f, o) <==> !Spans(o, f) {
        ApartUnlessSpanned(v, ev, snapshot, v', f, o);
      }
    } else {
      OutputsBelowOnly(v, ev, snapshot, v', level);
    }
    DisjointIfApart(v'[level], f, w[level]);
  }

  /** One file more in a disjoint level. */
  lemma DisjointIfApart(files: seq<File>, f: File, w: seq<File>)
    requires ValidFiles(w) && PairwiseApart(files) && Exchanged(files, [], [f], w) && f !in files
    ensures Disjoint(w) <==> forall g :: g in files ==> Install.Apart(f, g)
  {
    if forall g :: g in files ==> Install.Apart(f, g) {
      ApartIsDisjoint(w);
    }
    if Disjoint(w) {
      DisjointIsApart(w);
    }
  }

  lemma OutputsAreThere(v: Version, ev: Event, snapshot: nat, v': Version)
    requires ev.Compact? && Ran(v, ev.level, ev.inputs0, ev.inputs1, ev.input, snapshot, ev.outputs, v')
    ensures ev.level + 1 < |v| == |v'|
    ensures forall g :: g in v'[ev.level + 1] ==> g in v[ev.level + 1] || g in ev.outputs
    ensures forall o :: o in ev.outputs ==> o in v'[ev.level + 1]
  {
    hide ValidVersion, Sorted, Survivors, Legal;
  }

  lemma OutputsBelowOnly(v: Version, ev: Event, snapshot: nat, v': Version, level: nat)
    requires ev.Compact? && Ran(v, ev.level, ev.inputs0, ev.inputs1, ev.input, snapshot, ev.outputs, v')
    requires level < |v| && level != ev.level + 1
    ensures forall g :: g in v'[level] ==> g in v[level]
  {
    hide ValidVersion, Sorted, Survivors, Legal;
  }

  // ---- the invariant -------------------------------------------------------------------------------------------

  ghost predicate NoneSpans(ev: Event, level: nat, f: File)
    requires ev.Compact?
  {
    level == ev.level + 1 ==> forall o :: o in ev.outputs ==> !Spans(o, f)
  }

  lemma NumberIsFree(v: Version, ev: Event, snapshot: nat, v': Version, next: nat, f: File)
    requires ev.Compact? && Ran(v, ev.level, ev.inputs0, ev.inputs1, ev.input, snapshot, ev.outputs, v')
    requires NumbersBelow(v, next) && next <= f.number && f.number !in Numbers(ev.outputs)
    ensures |v'| == |v| && forall l :: 0 <= l < |v'| ==> f.number !in Numbers(v'[l])
  {
    hide ValidVersion, Sorted, Survivors, Legal, ValidFiles, Disjoint;
    OutputsAreThere(v, ev, snapshot, v');
    forall l, g | 0 <= l < |v'| && g in v'[l] ensures g.number != f.number {
      if l != ev.level + 1 {
        OutputsBelowOnly(v, ev, snapshot, v', l);
      }
      if g in ev.outputs {
        NumberIsNone(ev.outputs, g);
      }
    }
  }

  lemma FreeNumberFits(v': Version, level: nat, f: File, w: Version)
    requires UniqueNumbers(v') && Flushed(v', level, f, w) && forall l :: 0 <= l < |v'| ==> f.number !in Numbers(v'[l])
    ensures UniqueNumbers(w) && forall l :: 0 <= l < |v'| ==> f !in v'[l]
  {
    hide Ordered;
    forall l, g | 0 <= l < |v'| && g in v'[l] ensures g.number != f.number {
      assert g.number in Numbers(v'[l]);
    }
    forall l | 0 <= l < |w| ensures DistinctNumbers(w[l]) {
      assert DistinctNumbers(v'[l]);
    }
    forall l, m | 0 <= l < m < |w| ensures Numbers(w[l]) !! Numbers(w[m]) {
      assert Numbers(v'[l]) !! Numbers(v'[m]);
      forall g, h | g in w[l] && h in w[m] ensures g.number != h.number {
        assert g != f ==> g in v'[l] && g.number in Numbers(v'[l]);
        assert h != f ==> h in v'[m] && h.number in Numbers(v'[m]);
      }
    }
  }

  lemma TableIsYoungest(v: Version, ev: Event, snapshot: nat, v': Version, next: nat, level: nat, f: File, w: Version)
    requires ev.Compact? && Ran(v, ev.level, ev.inputs0, ev.inputs1, ev.input, snapshot, ev.outputs, v') &&
      ValidVersion(v')
    requires NumbersBelow(v, next) && next <= f.number && Flushed(v', level, f, w) &&
      Newer(Elements(f.entries), Stored(v'))
    ensures NumberIsAge(w[0])
  {
    hide LevelsValid, LevelsDisjoint, ShallowerIsNewer, UniqueNumbers, Newer, Ran, Stored, NumberIsAge;
    if level == 0 {
      ZeroIsOld(v, ev, snapshot, v', next);
      var only := [v'[0]];
      assert Newer(Elements(f.entries), Stored(only)) by {
        PartStored(v', only);
        PartNewer(Elements(f.entries), Stored(v'), Stored(only));
      }
      FlushedAge(only, f, w[0], f.number);
    }
  }

  lemma ZeroIsOld(v: Version, ev: Event, snapshot: nat, v': Version, next: nat)
    requires ev.Compact? && Ran(v, ev.level, ev.inputs0, ev.inputs1, ev.input, snapshot, ev.outputs, v') &&
      NumbersBelow(v, next)
    ensures |v'| == |v| && |v| == NUM_LEVELS && forall g :: g in v'[0] ==> g.number < next
  {
    hide LevelsValid, LevelsDisjoint, ShallowerIsNewer, UniqueNumbers, NumberIsAge, Sorted, Survivors, Legal;
    hide ValidFiles, Disjoint;
    OutputsAreThere(v, ev, snapshot, v');
    OutputsBelowOnly(v, ev, snapshot, v', 0);
  }

  lemma PartStored(v: Version, only: Version)
    requires |v| > 0 && only == [v[0]]
    ensures Stored(only) <= Stored(v)
  {
    hide FileEntries;
    forall e | e in Stored(only) ensures e in Stored(v) {
      var l :| 0 <= l < |only| && e in FileEntries(only[l]);
      assert e in FileEntries(v[0]);
    }
  }

  lemma PartNewer(a: set<Entry>, b: set<Entry>, c: set<Entry>)
    requires Newer(a, b) && c <= b
    ensures Newer(a, c)
  {
  }

  lemma TablesLevelValid(v': Version, level: nat, f: File, w: Version)
    requires LevelsValid(v') && ValidFile(f) && Flushed(v', level, f, w)
    ensures LevelsValid(w)
  {
    hide ValidFile;
    forall l | 0 <= l < |w| ensures ValidFiles(w[l]) {
      assert ValidFiles(v'[l]);
    }
  }

  /** The tree is as it must be if and only if no output of the level spans the table. */
  lemma TreeIsValid(v: Version, ev: Event, snapshot: nat, v': Version, next: nat, level: nat, f: File, w: Version)
    requires ev.Compact? && Ran(v, ev.level, ev.inputs0, ev.inputs1, ev.input, snapshot, ev.outputs, v')
    requires ValidVersion(v') && Ordered(v'[0]) && level < |v| && Placed(v, level, f.smallest.user, f.largest.user) &&
      ValidFile(f)
    requires NumbersBelow(v, next) && next <= f.number && f.number !in Numbers(ev.outputs)
    requires Newer(Elements(f.entries), Stored(v')) && Flushed(v', level, f, w)
    ensures |w| > 0 && Ordered(w[0]) && (ValidVersion(w) <==> NoneSpans(ev, level, f))
  {
    hide NumberIsAge, ShallowerIsNewer, UniqueNumbers, LevelsValid, Newer, Stored, Ran, Clear, Spans, Ordered;
    hide ValidFile, Elements, Numbers;
    hide NumbersBelow, Disjoint, ValidFiles;
    NumberIsFree(v, ev, snapshot, v', next, f);
    FreeNumberFits(v', level, f, w);
    TableIsYoungest(v, ev, snapshot, v', next, level, f, w);
    TreeIsNewer(v, ev, snapshot, v', level, f, w);
    TablesLevelValid(v', level, f, w);
    if level > 0 {
      LevelIsValid(v', level);
      TableLevel(v, ev, snapshot, v', level, f, w);
      assert LevelsDisjoint(w) <==> Disjoint(w[level]);
    }
  }

  lemma LevelIsValid(v: Version, level: nat)
    requires LevelsValid(v) && LevelsDisjoint(v) && 0 < level < |v|
    ensures ValidFiles(v[level]) && Disjoint(v[level])
  {
  }

  lemma InterruptedStores(st: State, ev: Event, done: State, level: nat, number: nat, size: nat)
    requires Interrupts(st, ev, done, level, number, size)
    ensures var st' := Interrupted(st, ev, done, level, number, size);
      Stored(st'.version) == Stored(done.version) + Elements(ImmEntries(st)) && All(st') == All(done) &&
      MemSet(st') == Elements(st.mem)
  {
    hide Inv, Stored, Installed, Elements, Ran, ValidVersion, Ordered, NumbersBelow, Newer, Next, Placed;
    hide OutputNumbers, Flushed, Numbers;
    var st', f := Interrupted(st, ev, done, level, number, size), Table(st, number, size);
    StepFacts(st, ev, done);
    OneFileMore(st, ev, done, level, number, size);
    FlushKeepsStored(done.version, level, f, st'.version);
    NothingElse(st'.mem);
    assert MemSet(st') == Elements(st.mem);
  }

  lemma RestOfInv(st: State, done: State, st': State, imm: seq<Entry>)
    requires Inv(done) && done.mem == st.mem && ImmEntries(done) == imm &&
      st' == done.(imm := None, version := st'.version)
    requires All(st') == All(done) && MemSet(st') == Elements(st.mem) &&
      Stored(st'.version) == Stored(done.version) + Elements(imm)
    requires NumbersBelow(st'.version, st'.nextFile) && |st'.version| > 0 && Ordered(st'.version[0])
    ensures Inv(st') <==> ValidVersion(st'.version)
  {
    hide ValidVersion, Ordered, Stored, NumbersBelow, Sorted, Newer;
    NewerPart(Elements(st.mem), Elements(imm), Stored(done.version));
    NewerJoin(Elements(st.mem), Elements(imm), Stored(done.version));
    EmptySorted(Elements(st.mem));
  }

  lemma TableBelow(v': Version, level: nat, f: File, w: Version, next: nat)
    requires NumbersBelow(v', next) && f.number < next && Flushed(v', level, f, w)
    ensures NumbersBelow(w, next)
  {
  }

  lemma SealedIsNewer(st: State, v': Version, f: File)
    requires Inv(st) && |ImmEntries(st)| > 0 && Stored(v') <= Stored(st.version) && f.entries == ImmEntries(st)
    ensures Newer(Elements(f.entries), Stored(v')) && Sorted(f.entries)
  {
    hide ValidVersion, Ordered, Stored, NumbersBelow;
  }

  /** A flush inside a compaction keeps the invariant if and only if no output of its level spans the new table, and
    either way everything is stored that the compaction alone would have left, in files or in memory. */
  lemma FlushInBetween(st: State, ev: Event, done: State, level: nat, number: nat, size: nat)
    requires Interrupts(st, ev, done, level, number, size)
    ensures var st' := Interrupted(st, ev, done, level, number, size);
      All(st') == All(done) && (Inv(st') <==> NoneSpans(ev, level, Table(st, number, size)))
  {
    hide Inv, Stored, Installed, Elements, Ran, ValidVersion, Ordered, NumbersBelow, Newer, Next, Placed;
    hide OutputNumbers, Flushed, Numbers;
    hide NoneSpans, ValidFile, MemSet, All, Sorted;
    var st', f := Interrupted(st, ev, done, level, number, size), Table(st, number, size);
    StepFacts(st, ev, done);
    FactsOfInv(done);
    OneFileMore(st, ev, done, level, number, size);
    InterruptedStores(st, ev, done, level, number, size);
    StoredAfterIsOld(st.version, ev.level, ev.inputs0, ev.inputs1, ev.input, SmallestSnapshot(st), ev.outputs,
                     done.version);
    SealedIsNewer(st, done.version, f);
    TableIsValid(ImmEntries(st), number, size);
    TreeIsValid(st.version, ev, SmallestSnapshot(st), done.version, st.nextFile, level, f, st'.version);
    TableBelow(done.version, level, f, st'.version, done.nextFile);
    RestOfInv(st, done, st', ImmEntries(st));
  }

  lemma FactsOfInv(st: State)
    requires Inv(st)
    ensures ValidVersion(st.version) && Ordered(st.version[0]) && NumbersBelow(st.version, st.nextFile)
  {
  }

  // ---- when it cannot happen ---------------------------------------------------------------------------------------

  lemma OutputFromInput(ev: Event, st: State, done: State, o: File, e: Entry) returns (g: File)
    requires Inv(st) && ev.Compact? && Next(st, ev, done) && o in ev.outputs && e in o.entries
    ensures g in ev.inputs0 + ev.inputs1 && g.smallest.user <= e.key.user <= g.largest.user
    ensures ev.level + 1 < |st.version| && (g in st.version[ev.level] || g in st.version[ev.level + 1])
  {
    hide Inv, Sorted, Survivors, ValidFiles, Disjoint, FileEntries, Compacted, Next, Stored, Upper, Hull;
    hide NumberIsAge, ShallowerIsNewer;
    hide UniqueNumbers, OutputNumbers;
    StepFacts(st, ev, done);
    var v := st.version;
    StoredAfterIsOld(v, ev.level, ev.inputs0, ev.inputs1, ev.input, SmallestSnapshot(st), ev.outputs, done.version);
    InFiles(ev.outputs, o, e);
    InputLevels(v, ev.level, ev.inputs0, ev.inputs1);
    SelectedAreFiles(v, ev.level, ev.inputs0, ev.inputs1);
    UpperAreFiles(v, ev.level, ev.inputs0);
    if e in FileEntries(ev.inputs0) {
      g := EntryFile(ev.inputs0, e);
    } else {
      g := EntryFile(ev.inputs1, e);
    }
    EntryInside(v, if g in v[ev.level] then ev.level else ev.level + 1, g, e);
  }

  lemma EntryInside(v: Version, l: nat, g: File, e: Entry)
    requires LevelsValid(v) && l < |v| && g in v[l] && e in g.entries
    ensures g.smallest.user <= e.key.user <= g.largest.user
  {
    assert ValidFiles(v[l]);
    Bounds(g, e);
  }

  lemma EndsOf(o: File)
    requires ValidFile(o)
    ensures o.entries[0] in o.entries && o.entries[|o.entries| - 1] in o.entries
    ensures o.smallest == o.entries[0].key && o.largest == o.entries[|o.entries| - 1].key
  {
  }

  /** Inputs without gaps leave no room for a table: so it is with every compaction that PickCompaction chooses. */
  lemma GaplessIsNotSpanned(st: State, ev: Event, done: State, level: nat, number: nat, size: nat)
    requires Interrupts(st, ev, done, level, number, size) && Gapless(ev.inputs0 + ev.inputs1)
    ensures NoneSpans(ev, level, Table(st, number, size))
  {
    hide Inv, Next, Gapless, Table, ValidFile, ValidVersion, NumbersBelow, Ordered, Ran, Newer, Stored, Touches;
    var f := Table(st, number, size);
    if level == ev.level + 1 {
      StepFacts(st, ev, done);
      forall o | o in ev.outputs ensures !Spans(o, f) {
        if Spans(o, f) {
          OutputsValid(st, ev, done, o);
          EndsOf(o);
          var g := OutputFromInput(ev, st, done, o, o.entries[0]);
          var h := OutputFromInput(ev, st, done, o, o.entries[|o.entries| - 1]);
          TableRange(st, number, size);
          CoveredTouches(ev.inputs0 + ev.inputs1, g, h, f);
          var i :| i in ev.inputs0 + ev.inputs1 && Touches(i, Some(f.smallest.user), Some(f.largest.user));
          InputPlace(st, ev, done, i);
        }
      }
    }
  }

  lemma OutputsValid(st: State, ev: Event, done: State, o: File)
    requires ev.Compact? && Next(st, ev, done) && o in ev.outputs
    ensures ValidFile(o)
  {
    hide Legal, Sorted, Survivors, Installed, ValidFile, Disjoint, OutputNumbers, Elements, FileEntries;
  }

  lemma TableRange(st: State, number: nat, size: nat)
    requires Inv(st) && |ImmEntries(st)| > 0
    ensures Table(st, number, size).smallest.user <= Table(st, number, size).largest.user
  {
    hide ValidVersion, Ordered, Stored, NumbersBelow, Newer, NoneAfter;
    TableIsValid(ImmEntries(st), number, size);
    Bounds(Table(st, number, size), ImmEntries(st)[0]);
  }

  lemma InputPlace(st: State, ev: Event, done: State, i: File)
    requires ev.Compact? && Next(st, ev, done) && i in ev.inputs0 + ev.inputs1
    ensures ev.level + 1 < |st.version| && (i in st.version[ev.level] || i in st.version[ev.level + 1])
  {
    hide Sorted, Survivors, Installed, ValidFiles, Disjoint, OutputNumbers, Elements, FileEntries, Hull;
    SelectedAreFiles(st.version, ev.level, ev.inputs0, ev.inputs1);
  }

  lemma CoveredTouches(files: seq<File>, g: File, h: File, f: File)
    requires Gapless(files) && g in files && h in files && f.smallest.user <= f.largest.user
    requires g.smallest.user <= f.smallest.user <= h.largest.user
    ensures exists i :: i in files && Touches(i, Some(f.smallest.user), Some(f.largest.user))
  {
    var u := f.smallest.user;
    assert Between(files, u);
    var i :| i in files && Touches(i, Some(u), Some(u));
    assert Touches(i, Some(u), Some(f.largest.user));
  }
}
