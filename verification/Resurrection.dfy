/** Two runs of the database, from nothing on, in steps the code takes: one at the end of which a deleted key reads as
  its old value, and one of safe steps that reads so behind a crash. So neither condition on compactions can be
  dropped: SetupOtherInputs of db/version_set.cc adds boundary files to the upper inputs only. */
module Resurrection {
  import opened Options
  import opened InternalKeys
  import opened ReadSpec
  import opened Versions
  import opened Overlap
  import opened CompactionInputs
  import opened VersionEdits
  import opened ManifestReplay
  import opened Compactions
  import opened SnapshotReads
  import opened Install
  import opened Database
  import opened MapRefinement
  import opened CrashConsistency
  import DbImpl
  import InputExpansion

  const MAX_FILE: nat := 0x20_0000
  /** What level 2 may hold before a file of it moves on. */
  const MAX_LEVEL_2: nat := 104857600

  const DEEP := Entry(IKey(9, 1, Value), "base")
  const STALE := Entry(IKey(1, 2, Value), "stale")
  const OLD := Entry(IKey(5, 3, Value), "old")
  const GONE := Entry(IKey(5, 4, Deletion), "")
  const FRESH := Entry(IKey(1, 5, Value), "fresh")
  const NEW := Entry(IKey(5, 6, Value), "new")

  /** A first table, big enough to be moved to level 3. */
  const BASE := TableOf([DEEP], 3, MAX_LEVEL_2)
  /** The second memtable becomes one table, and a compaction fills a file between the versions of key 5. */
  const FIRST := TableOf([STALE, GONE, OLD], 5, MAX_FILE + 100)
  const LOWER := TableOf([STALE, GONE], 6, MAX_FILE)
  const BOUNDARY := TableOf([OLD], 7, 100)
  /** The third memtable meets the first half only. */
  const UPPER := TableOf([FRESH], 9, 100)
  const OUTPUT := TableOf([FRESH], 10, 100)

  function Tree(two: seq<File>, three: seq<File>): (v: Version)
    ensures |v| == NUM_LEVELS
  {
    [[], [], two, three, [], [], []]
  }

  const S1 := State([DEEP], None, Tree([], []), 1, [], 2)
  const S2 := State([], Some([DEEP]), Tree([], []), 1, [], 3)
  const S3 := State([], None, Tree([BASE], []), 1, [], 4)
  const S4 := State([], None, Tree([], [BASE]), 1, [], 4)
  const S5 := State([STALE, OLD], None, Tree([], [BASE]), 3, [], 4)
  const S6 := S5.(snapshots := [3])
  const S7 := State([STALE, GONE, OLD], None, Tree([], [BASE]), 4, [3], 4)
  const S8 := State([], Some([STALE, GONE, OLD]), Tree([], [BASE]), 4, [3], 5)
  const S9 := State([], None, Tree([FIRST], [BASE]), 4, [3], 6)
  const S10 := State([], None, Tree([], [LOWER, BOUNDARY, BASE]), 4, [3], 8)
  const S11 := S10.(snapshots := [])
  const S12 := State([FRESH], None, Tree([], [LOWER, BOUNDARY, BASE]), 5, [], 8)
  const S13 := State([], Some([FRESH]), Tree([], [LOWER, BOUNDARY, BASE]), 5, [], 9)
  const BEFORE := State([], None, Tree([UPPER], [LOWER, BOUNDARY, BASE]), 5, [], 10)
  const AFTER := State([], None, Tree([], [OUTPUT, BOUNDARY, BASE]), 5, [], 11)
  /** The same with key 5 written again in between. */
  const WRITTEN := BEFORE.(mem := [NEW], lastSequence := 6)
  const LOSING := AFTER.(mem := [NEW], lastSequence := 6)

  const SPLIT := Compact(2, [FIRST], [], [STALE, GONE, OLD], [LOWER, BOUNDARY])
  const COMPACTION := Compact(2, [UPPER], [LOWER], [FRESH, STALE, GONE], [OUTPUT])

  const STATES: seq<State> := [START, S1, S2, S3, S4, S5, S6, S7, S8, S9, S10, S11, S12, S13, BEFORE]
  const EVENTS: seq<Event> := [
    Write([Op(9, Value, "base")]), Switch, Flush(2, MAX_LEVEL_2), Move(2, BASE),
    Write([Op(1, Value, "stale"), Op(5, Value, "old")]), Snapshot, Write([Op(5, Deletion, "")]),
    Switch, Flush(2, MAX_FILE + 100), SPLIT, Release(0),
    Write([Op(1, Value, "fresh")]), Switch, Flush(2, 100)]
  const AGAIN := Write([Op(5, Value, "new")])

  // ---- what the code decides by itself ------------------------------------------------------------

  /** No table so far was moved or compacted. */
  const NO_POINTERS: seq<Option<IKey>> := [None, None, None, None, None, None, None]

  ghost predicate PickedLevel(v: Version, entries: seq<Entry>, level: nat) {
    |entries| > 0 && PickedFor(v, entries[0].key.user, entries[|entries| - 1].key.user, MAX_FILE, level)
  }

  /** The whole level, because it is too full, has one file, and nothing lies below. */
  ghost predicate MovesByItself(v: Version, level: nat, file: File) {
    |v| == NUM_LEVELS && level + 2 < |v| && DbImpl.TooFull(v) &&
    DbImpl.TookFullest(v, NO_POINTERS, Move(level, file), MAX_FILE) &&
    v[level] == [file] && v[level + 1] == [] && v[level + 2] == []
  }

  ghost predicate FullButLast(outputs: seq<File>) {
    forall i :: 0 <= i < |outputs| - 1 ==> outputs[i].size >= MAX_FILE
  }

  /** DB::CompactRange of everything takes the level, because a deeper one has files, and no grandparents end an
    output. */
  ghost predicate OnRequest(v: Version, level: nat, inputs0: seq<File>, outputs: seq<File>) {
    |v| == NUM_LEVELS && level + 2 < |v| && |inputs0| == 1 && inputs0 == v[level] && v[level + 2] == [] &&
    (exists l :: level < l < |v| && |v[l]| > 0) && FullButLast(outputs)
  }

  ghost predicate AsDecided(st: State, ev: Event) {
    match ev
    case Flush(level, _) => PickedLevel(st.version, ImmEntries(st), level)
    case Move(level, file) => MovesByItself(st.version, level, file)
    case Compact(level, inputs0, _, _, outputs) =>
      OnRequest(st.version, level, inputs0, outputs) &&
      DbImpl.TookRequested(st.version, ev, Range(None, None), MAX_FILE) &&
      DbImpl.CutInside(st.version, ev, MAX_FILE, SecondFills)
    case _ => true
  }

  /** An output file is full once the second entry of the input is in it. */
  predicate SecondFills(i: int) {
    i == 1
  }

  lemma FlushesAreDecided()
    ensures PickedLevel(Tree([], []), [DEEP], 2) && PickedLevel(Tree([], [BASE]), [STALE, GONE, OLD], 2)
    ensures PickedLevel(Tree([], [LOWER, BOUNDARY, BASE]), [FRESH], 2)
  {
    hide Selected, TotalFileSize;
    NothingMeets(Range(Some(9), Some(9)));
    NothingMeets(Range(Some(1), Some(5)));
    NothingMeets(Range(Some(1), Some(1)));
    BaseIsBeside();
    LowerIsSmall();
    GoesDown(Tree([], []), 9, 9);
    GoesDown(Tree([], [BASE]), 1, 5);
    GoesDown(Tree([], [LOWER, BOUNDARY, BASE]), 1, 1);
  }

  lemma NothingMeets(r: Range)
    ensures TotalFileSize(Selected([], r)) == 0
  {
  }

  lemma BaseIsBeside()
    ensures TotalFileSize(Selected([BASE], Range(Some(1), Some(5)))) == 0
  {
    assert [BASE][..0] == [];
  }

  lemma LowerIsSmall()
    ensures TotalFileSize(Selected([LOWER, BOUNDARY, BASE], Range(Some(1), Some(1)))) == MAX_FILE
  {
    ChoiceMeets();
    assert [LOWER][1..] == [];
  }

  lemma GoesDown(v: Version, lo: UserKey, hi: UserKey)
    requires |v| == NUM_LEVELS && v[0] == [] && v[1] == [] && v[2] == [] && v[4] == []
    requires TotalFileSize(Selected(v[3], Range(Some(lo), Some(hi)))) <= 10 * MAX_FILE
    requires TotalFileSize(Selected([], Range(Some(lo), Some(hi)))) == 0
    ensures PickedFor(v, lo, hi, MAX_FILE, 2)
  {
    hide Selected, TotalFileSize;
    forall l | 0 <= l < 2 ensures GoesDeeper(v, l, lo, hi, MAX_FILE) {
    }
  }

  lemma MoveIsDecided()
    ensures MovesByItself(Tree([BASE], []), 2, BASE)
  {
    var v := Tree([BASE], []);
    assert PowerOf10(0) == 1.0 && 10485760.0 * PowerOf10(1) == 104857600.0;
    assert v[2] == [BASE] && [BASE][1..] == [] && TotalFileSize([]) == 0;
    assert TotalFileSize(v[2]) == MAX_LEVEL_2 && MAX_LEVEL_2 as real == 104857600.0;
    assert Score(v, 2) == 1.0;
    assert forall l :: 0 <= l < NUM_LEVELS - 1 && l != 2 ==> v[l] == [] && Score(v, l) == 0.0;
    BaseIsMoved();
    hide DbImpl.Took, Score;
    assert BASE in DbImpl.TakenBy(Move(2, BASE)) && v[2][0] == BASE;
  }

  /** A file that meets nothing is moved as it is. */
  lemma BaseIsMoved()
    ensures DbImpl.Took(Tree([BASE], []), Move(2, BASE), BASE, MAX_FILE)
  {
    hide HullOf, Selected, Bounded, TotalFileSize, ChosenFrom;
    var v := Tree([BASE], []);
    FilesAreValid();
    assert v[2] == [BASE] && BASE in [BASE] && LevelsValid(v);
    InputExpansion.NoBoundary([BASE], [BASE], BASE);
    NothingSelected(HullOf([BASE]));
    InputExpansion.StaysAsItIs(v, 2, [BASE], MAX_FILE, []);
    assert [BASE] + [] == [BASE];
    NothingMeets(HullOf([BASE]));
    assert PickedInputs(v, 2, BASE, MAX_FILE, [BASE], []);
  }

  lemma RequestsAreDecided()
    ensures AsDecided(S9, SPLIT) && AsDecided(BEFORE, COMPACTION) && AsDecided(WRITTEN, COMPACTION)
  {
    hide OnRequest, DbImpl.CutInside, RequestedInputs, LevelsValid, TableOf;
    DeeperHasFiles();
    OneIsRequested(S9.version, FIRST, []);
    OneIsRequested(BEFORE.version, UPPER, [LOWER]);
    CutsAreDecided();
  }

  lemma DeeperHasFiles()
    ensures OnRequest(S9.version, 2, [FIRST], [LOWER, BOUNDARY]) && OnRequest(BEFORE.version, 2, [UPPER], [OUTPUT])
    ensures S9.version == Tree([FIRST], [BASE]) && BEFORE.version == Tree([UPPER], [LOWER, BOUNDARY, BASE])
  {
    assert |S9.version[3]| > 0 && |BEFORE.version[3]| > 0;
  }

  /** A level of one file that the files below do not widen. */
  lemma OneIsRequested(v: Version, f: File, lower: seq<File>)
    requires (v == S9.version && f == FIRST && lower == []) || (v == BEFORE.version && f == UPPER && lower == [LOWER])
    ensures LevelsValid(v) && RequestedInputs(v, 2, Range(None, None), MAX_FILE, [f], lower)
  {
    hide HullOf, Selected, Bounded, TotalFileSize, Lower, ChosenFrom;
    assert v[2] == [f] && f in [f];
    BothAreValid();
    InputExpansion.NoBoundary([f], [f], f);
    LowerOfOne(v, f, lower);
    InputExpansion.SelectedOfOne(f, Range(None, None));
    if lower == [LOWER] {
      InputExpansion.HullOfTwo(UPPER, LOWER);
      InputExpansion.SelectedOfOne(UPPER, HullOf([UPPER, LOWER]));
      assert [UPPER] + [LOWER] == [UPPER, LOWER];
      assert Overlapping(v, 2, HullOf([UPPER] + [LOWER]), [UPPER]);
    }
    InputExpansion.StaysAsItIs(v, 2, [f], MAX_FILE, lower);
    assert [f][..1] == [f] && Overlapping(v, 2, Range(None, None), [f]) && CutAt(2, [f], 1, MAX_FILE);
    assert ChosenFrom(v, 2, [f][..1], MAX_FILE, [f], lower);
  }

  lemma BothAreValid()
    ensures LevelsValid(S9.version) && LevelsValid(BEFORE.version)
  {
  }

  lemma LowerOfOne(v: Version, f: File, lower: seq<File>)
    requires (v == S9.version && f == FIRST && lower == []) || (v == BEFORE.version && f == UPPER && lower == [LOWER])
    ensures Lower(v, 2, [f]) == lower
  {
    hide HullOf, Selected;
    InputExpansion.HullOfOne(f);
    InputExpansion.SelectedOfOne(BASE, HullOf([f]));
    InputExpansion.SelectedOfTwo(LOWER, BOUNDARY, HullOf([f]));
    assert [LOWER, BOUNDARY, BASE][..2] == [LOWER, BOUNDARY];
    SelectedLast([LOWER, BOUNDARY, BASE], HullOf([f]));
  }

  lemma SelectedLast(files: seq<File>, r: Range)
    requires |files| > 0
    ensures var n := |files| - 1;
      Selected(files, r) == Selected(files[..n], r) + if Meets(files[n], r) then [files[n]] else []
  {
  }

  /** The second output of the first compaction starts where the file before it is full. */
  lemma CutsAreDecided()
    ensures DbImpl.CutInside(S9.version, SPLIT, MAX_FILE, SecondFills)
    ensures DbImpl.CutInside(BEFORE.version, COMPACTION, MAX_FILE, SecondFills)
  {
    hide Selected, HullOf, CutAsAsked, SecondFills;
    NothingSelected(HullOf([FIRST] + []));
    NothingSelected(HullOf([UPPER] + [LOWER]));
    assert DbImpl.EntryLists([LOWER, BOUNDARY]) == [[STALE, GONE], [OLD]];
    assert DbImpl.EntryLists([OUTPUT]) == [[FRESH]];
    SplitIsCut(DbImpl.PlanFor([], MAX_FILE, [STALE, GONE, OLD], SecondFills));
    OneIsCut(DbImpl.PlanFor([], MAX_FILE, [FRESH, STALE, GONE], SecondFills));
  }

  lemma SplitIsCut(p: Plan)
    requires p == DbImpl.PlanFor([], MAX_FILE, [STALE, GONE, OLD], SecondFills)
    ensures CutAsAsked(p, [[STALE, GONE], [OLD]], [[0, 1], [2]])
  {
    hide ScanAt, StopsAt;
    assert |[STALE, GONE, OLD]| == 3 && p.full[0] == SecondFills(0) && p.full[1] == SecondFills(1);
    NothingStops(p, 1);
    assert Picks(p, [STALE, GONE], [0, 1]) && Picks(p, [OLD], [2]);
    assert Asked(p, 1, 3) && !Asked(p, 0, 2);
    assert Together(p, [0, 1]);
    assert Together(p, [2]);
    assert Compactions.Apart(p, [0, 1], [2]);
    TwoOutputs(p, [STALE, GONE], [OLD], [0, 1], [2]);
  }

  lemma TwoOutputs(p: Plan, x: seq<Entry>, y: seq<Entry>, a: seq<nat>, b: seq<nat>)
    requires |a| > 0 && |b| > 0 && Picks(p, x, a) && Picks(p, y, b) && Together(p, a) && Together(p, b)
    requires Compactions.Apart(p, a, b)
    ensures CutAsAsked(p, [x, y], [a, b])
  {
    hide Picks, Together, Compactions.Apart;
  }

  lemma OneIsCut(p: Plan)
    requires p == DbImpl.PlanFor([], MAX_FILE, [FRESH, STALE, GONE], SecondFills)
    ensures CutAsAsked(p, [[FRESH]], [[0]])
  {
    hide Asked;
    assert Picks(p, [FRESH], [0]) && Together(p, [0]);
  }

  lemma NothingSelected(r: Range)
    ensures Selected([], r) == []
  {
  }

  /** Without grandparents nothing is passed. */
  lemma {:induction false} NothingStops(p: Plan, k: nat)
    requires p.grandparents == [] && p.start == Scan(0, false, 0) && k < |p.input|
    ensures ScanAt(p, k).bytes == 0 && ScanAt(p, k).index == 0 && !StopsAt(p, k)
  {
    if k > 0 {
      NothingStops(p, k - 1);
    }
  }

  // ---- what the files hold ---------------------------------------------------------------------

  lemma EntriesOf(f: File, g: File, h: File)
    ensures FileEntries([f]) == Elements(f.entries) && FileEntries([f, g]) == Elements(f.entries) + Elements(g.entries)
    ensures FileEntries([f, g, h]) == Elements(f.entries) + Elements(g.entries) + Elements(h.entries)
    ensures f != g && f != h ==> RestEntries([f, g, h], [f]) == Elements(g.entries) + Elements(h.entries)
  {
    assert forall x :: x in [f, g, h] <==> x == f || x == g || x == h;
    assert forall x :: x in [f, g] <==> x == f || x == g;
    assert forall x :: x in [f] <==> x == f;
  }

  lemma ElementsOf(x: Entry, y: Entry, z: Entry)
    ensures Elements([x]) == {x} && Elements([x, y]) == {x, y} && Elements([x, y, z]) == {x, y, z}
  {
    assert forall e :: e in [x] <==> e == x;
    assert forall e :: e in [x, y] <==> e == x || e == y;
    assert forall e :: e in [x, y, z] <==> e == x || e == y || e == z;
  }

  lemma NoEntries()
    ensures FileEntries([]) == {}
  {
  }

  lemma TreeEntries(two: seq<File>, three: seq<File>)
    ensures Stored(Tree(two, three)) == FileEntries(two) + FileEntries(three)
  {
    hide FileEntries;
    NoEntries();
    var v := Tree(two, three);
    forall e | e in FileEntries(two) + FileEntries(three) ensures e in Stored(v) {
      assert e in FileEntries(v[2]) || e in FileEntries(v[3]);
    }
    forall e | e in Stored(v) ensures e in FileEntries(two) + FileEntries(three) {
      var l :| 0 <= l < |v| && e in FileEntries(v[l]);
      assert l in {0, 1, 4, 5, 6} || l == 2 || l == 3;
    }
  }

  lemma FilesAreValid()
    ensures ValidFiles([LOWER, BOUNDARY]) && Disjoint([LOWER, BOUNDARY]) && ValidFiles([OUTPUT]) && Disjoint([OUTPUT])
    ensures Ordered([BASE]) && Ordered([FIRST]) && Ordered([UPPER]) && Ordered([])
    ensures Ordered([LOWER, BOUNDARY, BASE]) && Ordered([OUTPUT, BOUNDARY, BASE])
  {
  }

  // ---- the writes -----------------------------------------------------------------------------------

  lemma InsertsAre()
    ensures MemInsert([], DEEP) == [DEEP] && MemInsert([], STALE) == [STALE] && MemInsert([], FRESH) == [FRESH]
    ensures MemInsert([], NEW) == [NEW] && MemInsert([STALE], OLD) == [STALE, OLD]
    ensures MemInsert([STALE, OLD], GONE) == [STALE, GONE, OLD]
  {
    assert [STALE][1..] == [] && [STALE, OLD][1..] == [OLD];
    assert MemInsert([], OLD) == [OLD];
    assert MemInsert([OLD], GONE) == [GONE, OLD];
  }

  lemma WriteSingle(st: State, op: Op)
    requires st.lastSequence < MAX_SEQUENCE
    ensures WriteAll(st, [op]) == WriteOne(st, op)
  {
    assert [op][1..] == [];
  }

  lemma WritesAre()
    ensures Next(START, EVENTS[0], S1) && Next(S4, EVENTS[4], S5) && Next(S6, EVENTS[6], S7)
    ensures Next(S11, EVENTS[11], S12) && Next(BEFORE, AGAIN, WRITTEN)
  {
    hide Tree, TableOf, MemInsert, WriteAll;
    InsertsAre();
    StartIsTree();
    WriteSingle(START, Op(9, Value, "base"));
    WriteDouble();
    WriteSingle(S6, Op(5, Deletion, ""));
    WriteSingle(S11, Op(1, Value, "fresh"));
    WriteSingle(BEFORE, Op(5, Value, "new"));
  }

  lemma StartIsTree()
    ensures START == State([], None, Tree([], []), 0, [], 2)
  {
  }

  lemma WriteDouble()
    ensures WriteAll(S4, [Op(1, Value, "stale"), Op(5, Value, "old")]) == S5
  {
    hide MemInsert, Tree, TableOf;
    InsertsAre();
    var a, b := Op(1, Value, "stale"), Op(5, Value, "old");
    assert [a, b][1..] == [b];
    WriteSingle(WriteOne(S4, a), b);
  }

  lemma SimpleSteps()
    ensures Next(S1, Switch, S2) && Next(S5, Snapshot, S6) && Next(S7, Switch, S8) && Next(S10, Release(0), S11) &&
      Next(S12, Switch, S13)
  {
    assert S10.snapshots[..0] + S10.snapshots[1..] == [];
  }

  // ---- flushes, the move and the compactions ------------------------------------------------------------

  /** A flush into level 2 of a tree without files above level 3. */
  lemma FlushIs(st: State, size: nat, f: File, three: seq<File>, st': State)
    requires Inv(st) && st.imm.Some? && |st.imm.value| > 0 && f == TableOf(st.imm.value, st.nextFile, size)
    requires st.version == Tree([], three) &&
      st' == st.(imm := None, nextFile := st.nextFile + 1, version := Tree([f], three))
    ensures Next(st, Flush(2, size), st')
  {
    hide ValidVersion, Stored, Saved, Applied, Sorted, Newer, NoneAfter;
    InstalledIsFlushed(st.version, 2, f);
    var v := Installed(st.version, Edit([], [(2, f)]));
    assert Ordered([f]);
    OrderedIsUnique(v[2], [f]);
    assert v == Tree([f], three);
  }

  /** A compaction from level 2 that takes all of it, with the tree it leaves. */
  lemma CompactIs(v: Version, inputs0: seq<File>, three: seq<File>, inputs1: seq<File>, outputs: seq<File>,
                  three': seq<File>)
    requires ValidVersion(v) && Ordered(v[0]) && v == Tree(inputs0, three) && Legal(v, 2, inputs0, inputs1)
    requires ApartNumbers(outputs) && Numbers(outputs) !! Numbers(three) && Ordered(three')
    requires forall f :: f in three' <==> (f in three && f !in inputs1) || f in outputs
    ensures Installed(v, CompactionEdit(2, inputs0, inputs1, outputs)) == Tree([], three')
  {
    hide ValidVersion, Saved, Applied, Legal, CompactionEdit, Ordered, ApartNumbers, Numbers;
    InstalledIsCompacted(v, 2, inputs0, inputs1, outputs);
    var v' := Installed(v, CompactionEdit(2, inputs0, inputs1, outputs));
    FilesAreValid();
    OrderedIsUnique(v'[2], []);
    OrderedIsUnique(v'[3], three');
    assert forall l :: 0 <= l < 7 ==> v'[l] == Tree([], three')[l];
  }

  lemma FreshHere(st: State, outputs: seq<File>)
    requires Inv(st) && |st.version| == 7 && OutputNumbers(outputs, st.nextFile, st.nextFile + |outputs|)
    ensures ApartNumbers(outputs) && Numbers(outputs) !! Numbers(st.version[3])
    ensures ValidVersion(st.version) && Ordered(st.version[0])
  {
    hide ValidVersion, Stored, Sorted, Newer, NoneAfter, Ordered;
    FreshOutputs(st.version, 2, outputs, st.nextFile, st.nextFile + |outputs|);
  }

  lemma MoveIsLegal()
    ensures Legal(S3.version, 2, [BASE], [])
  {
    var v := S3.version;
    assert Severed(v[2], 0, 1) && [BASE] == v[2][0..1];
    assert [BASE][0] == BASE;
    assert Hull([BASE], Range(Some(9), Some(9)));
    assert Selected(v[3], Range(Some(9), Some(9))) == [];
  }

  lemma MoveIsTaken()
    requires Inv(S3)
    ensures Next(S3, Move(2, BASE), S4)
  {
    hide Stored, Sorted, Newer, NoneAfter, Legal, ValidVersion, Installed, CompactionEdit, NumbersBelow, Ordered;
    MoveIsLegal();
    FilesAreValid();
    assert ApartNumbers([BASE]) && Numbers([BASE]) !! Numbers([]);
    CompactIs(S3.version, [BASE], [], [], [BASE], [BASE]);
  }

  lemma NoneDropped()
    ensures Survivors([STALE, GONE, OLD], 3, 3, Tree([FIRST], [BASE]), 2) == [STALE, GONE, OLD]
  {
    var input, v := [STALE, GONE, OLD], Tree([FIRST], [BASE]);
    assert !Dropped(input, 0, 3, v, 2) && !Dropped(input, 1, 3, v, 2) && !Dropped(input, 2, 3, v, 2);
    assert Survivors(input, 0, 3, v, 2) == [];
    assert Survivors(input, 1, 3, v, 2) == [STALE];
    assert Survivors(input, 2, 3, v, 2) == [STALE, GONE];
  }

  lemma OnlyFreshSurvives(s: nat)
    requires 5 <= s < MAX_SEQUENCE
    ensures Survivors([FRESH, STALE, GONE], 3, s, BEFORE.version, 2) == [FRESH]
  {
    var input, v := [FRESH, STALE, GONE], BEFORE.version;
    assert NoDeeperData(v, 2, 5);
    assert !Dropped(input, 0, s, v, 2) && Dropped(input, 1, s, v, 2) && Dropped(input, 2, s, v, 2);
    assert Survivors(input, 0, s, v, 2) == [];
    assert Survivors(input, 1, s, v, 2) == [FRESH];
    assert Survivors(input, 2, s, v, 2) == [FRESH];
  }

  lemma SplitIsLegal()
    ensures Legal(S9.version, 2, [FIRST], [])
  {
    var v, r := S9.version, Range(Some(1), Some(5));
    assert Severed(v[2], 0, 1) && [FIRST] == v[2][0..1];
    assert [FIRST][0] == FIRST;
    assert Hull([FIRST], r);
    assert [BASE][..0] == [] && Selected([], r) == [];
    assert Selected(v[3], r) == [];
  }

  lemma ChoiceMeets()
    ensures Selected([LOWER, BOUNDARY, BASE], Range(Some(1), Some(1))) == [LOWER]
  {
    var r, below := Range(Some(1), Some(1)), [LOWER, BOUNDARY, BASE];
    assert below[..2] == [LOWER, BOUNDARY] && below[..2][..1] == [LOWER] && [LOWER][..0] == [];
    assert Selected([], r) == [];
    assert Selected([LOWER], r) == [LOWER];
    assert Selected(below[..2], r) == [LOWER];
  }

  lemma ChoiceIsLegal()
    ensures Legal(BEFORE.version, 2, [UPPER], [LOWER])
  {
    hide Selected;
    var v := BEFORE.version;
    assert Severed(v[2], 0, 1) && [UPPER] == v[2][0..1];
    assert [UPPER][0] == UPPER;
    assert Hull([UPPER], Range(Some(1), Some(1)));
    ChoiceMeets();
  }

  lemma SplitIsTaken()
    requires Inv(S9)
    ensures Next(S9, SPLIT, S10)
  {
    hide Inv, Legal, Survivors, Installed, FileEntries, Elements, Disjoint, ValidFiles, Ordered, CompactionEdit;
    hide ValidVersion;
    hide ApartNumbers;
    SplitIsLegal();
    NoneDropped();
    FilesAreValid();
    EntriesOf(FIRST, FIRST, FIRST);
    EntriesOf(LOWER, BOUNDARY, BOUNDARY);
    ElementsOf(STALE, GONE, OLD);
    ElementsOf(OLD, OLD, OLD);
    NoEntries();
    SplitNumbers();
    FreshHere(S9, [LOWER, BOUNDARY]);
    CompactIs(S9.version, [FIRST], [BASE], [], [LOWER, BOUNDARY], [LOWER, BOUNDARY, BASE]);
  }

  lemma SplitNumbers()
    ensures OutputNumbers([LOWER, BOUNDARY], 6, 8) && OutputNumbers([OUTPUT], 10, 11)
  {
  }

  /** With or without the later write of key 5. */
  lemma CompactionIsTaken(st: State)
    requires Inv(st) && (st == BEFORE || st == WRITTEN)
    ensures Next(st, COMPACTION, st.(nextFile := 11, version := AFTER.version))
  {
    hide Inv, Legal, Survivors, Installed, FileEntries, Elements, Disjoint, ValidFiles, Ordered, CompactionEdit;
    hide ValidVersion;
    hide ApartNumbers;
    ChoiceIsLegal();
    OnlyFreshSurvives(st.lastSequence);
    FilesAreValid();
    EntriesOf(UPPER, UPPER, UPPER);
    EntriesOf(LOWER, LOWER, LOWER);
    EntriesOf(OUTPUT, OUTPUT, OUTPUT);
    ElementsOf(FRESH, STALE, GONE);
    ElementsOf(STALE, GONE, GONE);
    SplitNumbers();
    FreshHere(st, [OUTPUT]);
    CompactIs(st.version, [UPPER], [LOWER, BOUNDARY, BASE], [LOWER], [OUTPUT], [OUTPUT, BOUNDARY, BASE]);
  }

  // ---- the run up to the last compaction -------------------------------------------------------------

  lemma FirstPart()
    ensures Next(START, EVENTS[0], S1) && Next(S1, EVENTS[1], S2) && Next(S2, EVENTS[2], S3) && Next(S3, EVENTS[3], S4)
    ensures Next(S4, EVENTS[4], S5) && Next(S5, EVENTS[5], S6) && Next(S6, EVENTS[6], S7) && Inv(S7)
  {
    hide Inv, Next, Tree, TableOf;
    StartRefinesEmpty(2);
    WritesAre();
    SimpleSteps();
    assert START.(nextFile := 2) == START;
    StepKeepsInv(START, EVENTS[0], S1);
    StepKeepsInv(S1, Switch, S2);
    FlushIs(S2, MAX_LEVEL_2, BASE, [], S3);
    StepKeepsInv(S2, EVENTS[2], S3);
    MoveIsTaken();
    StepKeepsInv(S3, EVENTS[3], S4);
    StepKeepsInv(S4, EVENTS[4], S5);
    StepKeepsInv(S5, Snapshot, S6);
    StepKeepsInv(S6, EVENTS[6], S7);
  }

  lemma SecondPart()
    requires Inv(S7)
    ensures Next(S7, EVENTS[7], S8) && Next(S8, EVENTS[8], S9) && Next(S9, EVENTS[9], S10) && Next(S10, EVENTS[10], S11)
    ensures Next(S11, EVENTS[11], S12) && Next(S12, EVENTS[12], S13) && Next(S13, EVENTS[13], BEFORE) && Inv(BEFORE)
  {
    hide Inv, Next, Tree, TableOf;
    WritesAre();
    SimpleSteps();
    StepKeepsInv(S7, Switch, S8);
    FlushIs(S8, MAX_FILE + 100, FIRST, [BASE], S9);
    StepKeepsInv(S8, EVENTS[8], S9);
    SplitIsTaken();
    StepKeepsInv(S9, SPLIT, S10);
    StepKeepsInv(S10, Release(0), S11);
    StepKeepsInv(S11, EVENTS[11], S12);
    StepKeepsInv(S12, Switch, S13);
    FlushIs(S13, 100, UPPER, [LOWER, BOUNDARY, BASE], BEFORE);
    StepKeepsInv(S13, EVENTS[13], BEFORE);
  }

  ghost predicate AllDecided(states: seq<State>, events: seq<Event>) {
    |states| == |events| + 1 && forall i :: 0 <= i < |events| ==> AsDecided(states[i], events[i])
  }

  /** The events are steps, one after the other, and what the code decides by itself. */
  lemma RunIsTaken()
    ensures Run(STATES, EVENTS) && Inv(BEFORE)
  {
    hide Inv, Next, Tree, TableOf;
    FirstPart();
    SecondPart();
  }

  lemma RunIsDecided()
    ensures AllDecided(STATES, EVENTS)
  {
    hide PickedLevel, MovesByItself, OnRequest, Tree, TableOf, DbImpl.TookRequested, DbImpl.CutInside;
    FlushesAreDecided();
    MoveIsDecided();
    RequestsAreDecided();
  }

  lemma OneMore(states: seq<State>, events: seq<Event>, ev: Event, st: State)
    requires Run(states, events) && Next(states[|events|], ev, st) && AllDecided(states, events) &&
      AsDecided(states[|events|], ev)
    ensures Run(states + [st], events + [ev]) && AllDecided(states + [st], events + [ev])
  {
    hide Next, AsDecided;
  }

  // ---- the deleted key comes back --------------------------------------------------------------------------

  /** In front of the last compaction key 5 is deleted and nobody holds an older snapshot; behind it the old value is
    read. */
  lemma DeletedKeyComesBack()
    requires Inv(BEFORE)
    ensures Visible(Stored(BEFORE.version), 5, 5) == None && Visible(Stored(AFTER.version), 5, 5) == Some("old")
    ensures All(BEFORE) == Stored(BEFORE.version) && All(AFTER) == Stored(AFTER.version)
  {
    hide Inv, Visible, Stored, ValidVersion, Installed, Survivors, Legal, FileEntries, RestEntries;
    hide NoDeeperData, IsNewest, Ran, Resurrects, Next, Elements;
    CompactionIsTaken(BEFORE);
    LastIsStep();
    CompactionStepRan(BEFORE, 2, [UPPER], [LOWER], [FRESH, STALE, GONE], [OUTPUT], AFTER);
    NothingInMemory();
    Uncovered();
    ResurrectionShows({}, BEFORE.version, 2, [UPPER], [LOWER], [FRESH, STALE, GONE], 5, [OUTPUT], AFTER.version, 5,
                      GONE, OLD);
    assert {} + Stored(BEFORE.version) == Stored(BEFORE.version) && {} + Stored(AFTER.version) == Stored(AFTER.version);
  }

  lemma LastIsStep()
    requires Next(BEFORE, COMPACTION, AFTER)
    ensures CompactStep(BEFORE, 2, [UPPER], [LOWER], [FRESH, STALE, GONE], [OUTPUT], AFTER) &&
      SmallestSnapshot(BEFORE) == 5
  {
  }

  lemma NothingInMemory()
    ensures MemSet(BEFORE) == {} && MemSet(AFTER) == {}
    ensures All(BEFORE) == {} + Stored(BEFORE.version) && All(AFTER) == {} + Stored(AFTER.version)
  {
    hide Stored;
  }

  lemma Uncovered()
    ensures Resurrects({}, BEFORE.version, 2, [LOWER], 5, 5, GONE, OLD)
  {
    hide Stored, FileEntries, RestEntries, Elements;
    TreeEntries([UPPER], [LOWER, BOUNDARY, BASE]);
    EntriesOf(UPPER, UPPER, UPPER);
    EntriesOf(LOWER, BOUNDARY, BASE);
    ElementsOf(FRESH, FRESH, FRESH);
    ElementsOf(STALE, GONE, GONE);
    ElementsOf(OLD, OLD, OLD);
    ElementsOf(DEEP, DEEP, DEEP);
    assert NoDeeperData(BEFORE.version, 2, 5);
  }

  // ---- what the map says --------------------------------------------------------------------------------------

  lemma SpecStep(spec: Spec, events: seq<Event>, k: nat)
    requires k < |events|
    ensures SpecRun(spec, events[k..]) == SpecRun(SpecNext(spec, events[k]), events[k + 1..])
  {
    hide SpecNext;
    assert events[k..][1..] == events[k + 1..];
  }

  /** Steps that mean nothing to the map. */
  lemma UpkeepStep(spec: Spec, events: seq<Event>, k: nat)
    requires k < |events| && !events[k].Write? && !events[k].Snapshot? && !events[k].Release?
    ensures SpecRun(spec, events[k..]) == SpecRun(spec, events[k + 1..])
  {
    hide SpecRun;
    SpecStep(spec, events, k);
  }

  lemma WritesMean(m: Contents)
    ensures ApplyOps(m, [Op(9, Value, "base")]) == m[9 := "base"]
    ensures ApplyOps(m, [Op(1, Value, "stale"), Op(5, Value, "old")]) == m[1 := "stale"][5 := "old"]
    ensures ApplyOps(m, [Op(5, Deletion, "")]) == m - {5}
    ensures ApplyOps(m, [Op(1, Value, "fresh")]) == m[1 := "fresh"]
  {
    var a, b, c, d := [Op(9, Value, "base")], [Op(1, Value, "stale"), Op(5, Value, "old")], [Op(5, Deletion, "")],
      [Op(1, Value, "fresh")];
    assert a[1..] == [] && b[1..] == [Op(5, Value, "old")] && b[1..][1..] == [] && c[1..] == [] && d[1..] == [];
  }

  /** The map behind the write of the deletion does not have key 5. */
  lemma FirstContents() returns (spec: Spec)
    ensures SpecRun(Spec(map[], []), EVENTS) == SpecRun(spec, EVENTS[7..]) && 5 !in spec.current && |spec.saved| == 1
  {
    hide SpecRun, Tree, TableOf, ApplyOps;
    WritesMean(map[]);
    var one := Spec(map[9 := "base"], []);
    WritesMean(one.current);
    var two := one.(current := one.current[1 := "stale"][5 := "old"]);
    WritesMean(two.current);
    var three := two.(saved := two.saved + [two.current]);
    spec := three.(current := three.current - {5});
    assert EVENTS[0..] == EVENTS;
    SpecStep(Spec(map[], []), EVENTS, 0);
    UpkeepStep(one, EVENTS, 1);
    UpkeepStep(one, EVENTS, 2);
    UpkeepStep(one, EVENTS, 3);
    SpecStep(one, EVENTS, 4);
    SpecStep(two, EVENTS, 5);
    SpecStep(three, EVENTS, 6);
  }

  /** Nor has the map at the end of the run. */
  lemma ContentsLack()
    ensures 5 !in SpecRun(Spec(map[], []), EVENTS).current
  {
    hide SpecRun, Tree, TableOf, ApplyOps;
    var spec := FirstContents();
    UpkeepStep(spec, EVENTS, 7);
    UpkeepStep(spec, EVENTS, 8);
    UpkeepStep(spec, EVENTS, 9);
    SpecStep(spec, EVENTS, 10);
    var two := SpecNext(spec, EVENTS[10]);
    WritesMean(two.current);
    SpecStep(two, EVENTS, 11);
    var three := SpecNext(two, EVENTS[11]);
    UpkeepStep(three, EVENTS, 12);
    UpkeepStep(three, EVENTS, 13);
    assert EVENTS[14..] == [];
    NothingRun(three, EVENTS[14..]);
  }

  lemma ReadsOtherwise(all: set<Entry>, s: nat, m: Contents)
    requires Visible(all, 5, s) == Some("old") && 5 !in m
    ensures !ReadsLike(all, s, m)
  {
    hide Visible;
  }

  lemma LastIsUpkeep()
    ensures SpecRun(Spec(map[], []), EVENTS + [COMPACTION]).current == SpecRun(Spec(map[], []), EVENTS).current
  {
    hide SpecRun;
    SpecRunLast(Spec(map[], []), EVENTS + [COMPACTION]);
    assert (EVENTS + [COMPACTION])[..|EVENTS|] == EVENTS;
  }

  lemma LastOfRun()
    ensures |EVENTS| == 14 && |STATES| == 15 && STATES[14] == BEFORE && STATES[0] == START && AFTER.lastSequence == 5
  {
  }

  /** A run that starts with an empty database, of steps as the code decides them, and does not read like the map at
    its end. */
  lemma UnsafeRun() returns (states: seq<State>, events: seq<Event>)
    ensures Run(states, events) && states[0] == START && AllDecided(states, events)
    ensures var last := states[|events|];
      !ReadsLike(All(last), last.lastSequence, SpecRun(Spec(map[], []), events).current)
  {
    hide Visible, All, SpecRun, Inv, ReadsLike, Next, Run, AllDecided, AsDecided, STATES, EVENTS, Stored;
    LastOfRun();
    RunIsTaken();
    RunIsDecided();
    RequestsAreDecided();
    CompactionIsTaken(BEFORE);
    OneMore(STATES, EVENTS, COMPACTION, AFTER);
    states, events := STATES + [AFTER], EVENTS + [COMPACTION];
    DeletedKeyComesBack();
    ContentsLack();
    LastIsUpkeep();
    ReadsOtherwise(All(AFTER), AFTER.lastSequence, SpecRun(Spec(map[], []), events).current);
  }

  // ---- the same behind a crash ---------------------------------------------------------------------------------

  lemma NoInputsSafe(st: State, ev: Event)
    requires ev.Compact? && ev.inputs1 == []
    ensures Safe(st, ev)
  {
    hide Stored, IsNewest, RestEntries, NoDeeperData;
    NoEntries();
  }

  /** Key 5 was written again: no reader misses its deletion. */
  lemma WrittenIsSafe()
    ensures Safe(WRITTEN, COMPACTION)
  {
    hide Stored, RestEntries, NoDeeperData, FileEntries;
    EntriesOf(LOWER, LOWER, LOWER);
    ElementsOf(STALE, GONE, GONE);
    assert NEW in Elements(WRITTEN.mem);
    assert NEW in MemSet(WRITTEN) + Stored(WRITTEN.version);
    assert AtOrBelow(NEW, 5, 6);
  }

  ghost predicate AllSafe(states: seq<State>, events: seq<Event>) {
    |states| == |events| + 1 && forall i :: 0 <= i < |events| ==> Safe(states[i], events[i])
  }

  lemma RunIsSafe()
    ensures AllSafe(STATES, EVENTS)
  {
    hide Resurrects, Tree, TableOf, SmallestSnapshot;
    NoInputsSafe(S9, SPLIT);
  }

  lemma OneMoreSafe(states: seq<State>, events: seq<Event>, ev: Event, st: State)
    requires AllSafe(states, events) && Safe(states[|events|], ev)
    ensures AllSafe(states + [st], events + [ev])
  {
    hide Safe;
  }

  lemma LostPart(events: seq<Event>)
    requires events == EVENTS + [AGAIN] + [COMPACTION]
    ensures FlushedPart(events, 16) == 12
  {
    assert FlushedPart(events, 16) == FlushedPart(events, 14) && events[13].Flush? && events[12].Switch?;
  }

  /** What is left when the write of "new" is lost. */
  lemma NothingLeftInMemory()
    ensures Left(LOSING, 5) == Stored(AFTER.version)
  {
    hide Stored;
    assert forall e :: e in MemSet(LOSING) ==> e == NEW;
  }

  /** A run of safe steps, as the code decides them, behind which a crash brings a deleted key back: the newest write
    of the key kept the compaction safe, and the crash takes it. */
  lemma SafeRunCrashes() returns (states: seq<State>, events: seq<Event>, j: nat)
    ensures Run(states, events) && states[0] == START && AllDecided(states, events) && AllSafe(states, events)
    ensures FlushedPart(events, |events|) <= j <= |events|
    ensures var s := states[j].lastSequence;
      !ReadsLike(Left(states[|events|], s), s, SpecRun(Spec(map[], []), events[..j]).current)
  {
    hide Visible, All, SpecRun, Inv, ReadsLike, Next, Run, AllDecided, AsDecided, STATES, EVENTS, Stored, AllSafe;
    hide Safe, FlushedPart;
    LastOfRun();
    RunIsTaken();
    RunIsDecided();
    RunIsSafe();
    RequestsAreDecided();
    WritesAre();
    StepKeepsInv(BEFORE, AGAIN, WRITTEN);
    CompactionIsTaken(WRITTEN);
    WrittenIsSafe();
    WriteIsSafe();
    OneMore(STATES, EVENTS, AGAIN, WRITTEN);
    OneMoreSafe(STATES, EVENTS, AGAIN, WRITTEN);
    OneMore(STATES + [WRITTEN], EVENTS + [AGAIN], COMPACTION, LOSING);
    OneMoreSafe(STATES + [WRITTEN], EVENTS + [AGAIN], COMPACTION, LOSING);
    states, events, j := STATES + [WRITTEN] + [LOSING], EVENTS + [AGAIN] + [COMPACTION], 14;
    LostPart(events);
    assert events[..14] == EVENTS;
    DeletedKeyComesBack();
    NothingLeftInMemory();
    ContentsLack();
    ReadsOtherwise(Left(LOSING, 5), 5, SpecRun(Spec(map[], []), EVENTS).current);
  }

  lemma WriteIsSafe()
    ensures Safe(BEFORE, AGAIN) && AsDecided(BEFORE, AGAIN)
  {
  }
}
