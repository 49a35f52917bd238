/** A compaction that a user asks for may read files with a gap between them: a memtable that is flushed meanwhile
  goes into the gap at the output level, and an output then spans it. */
module SpannedTable {
  import opened Options
  import opened InternalKeys
  import opened Versions
  import opened Overlap
  import opened CompactionInputs
  import opened VersionEdits
  import opened ManifestReplay
  import opened Compactions
  import opened SnapshotReads
  import opened Install
  import opened Database
  import opened MapRefinement
  import opened CrashConsistency
  import opened FlushInCompaction
  import opened Resurrection
  import InputExpansion

  /** Files on levels 1 and 2 only. */
  function Pair(one: seq<File>, two: seq<File>): (v: Version)
    ensures |v| == NUM_LEVELS
  {
    [[], one, two, [], [], [], []]
  }

  const E1 := Entry(IKey(1, 1, Value), "a")
  const E2 := Entry(IKey(9, 2, Value), "b")
  const E3 := Entry(IKey(1, 3, Value), "c")
  const E4 := Entry(IKey(9, 4, Value), "d")
  const E5 := Entry(IKey(5, 5, Value), "e")

  const LEFT2 := TableOf([E1], 3, 100)
  const RIGHT2 := TableOf([E2], 5, 100)
  const LEFT1 := TableOf([E3], 7, 100)
  const RIGHT1 := TableOf([E4], 9, 100)
  const SPANNING := TableOf([E3, E4], 11, 200)

  /** The state behind a flush, in which nothing is in memory. */
  function Quiet(one: seq<File>, two: seq<File>, last: SequenceNumber, next: nat): State {
    State([], None, Pair(one, two), last, [], next)
  }

  /** One more write, and the switch behind it. */
  function Wrote(st: State, e: Entry): State {
    st.(mem := [e], lastSequence := e.key.sequence)
  }

  function Sealed(st: State, e: Entry): State {
    st.(imm := Some([e]), lastSequence := e.key.sequence, nextFile := st.nextFile + 1)
  }

  const Q0 := Quiet([], [], 0, 2)
  const Q1 := Quiet([], [LEFT2], 1, 4)
  const Q2 := Quiet([], [LEFT2, RIGHT2], 2, 6)
  const Q3 := Quiet([LEFT1], [LEFT2, RIGHT2], 3, 8)
  const Q4 := Quiet([LEFT1, RIGHT1], [LEFT2, RIGHT2], 4, 10)
  const WAITING := Sealed(Q4, E5)

  const PUTS: seq<Event> := [
    Write([Op(1, Value, "a")]), Switch, Flush(2, 100), Write([Op(9, Value, "b")]), Switch, Flush(2, 100),
    Write([Op(1, Value, "c")]), Switch, Flush(1, 100), Write([Op(9, Value, "d")]), Switch, Flush(1, 100),
    Write([Op(5, Value, "e")]), Switch]
  const MOMENTS: seq<State> := [
    Q0, Wrote(Q0, E1), Sealed(Q0, E1), Q1, Wrote(Q1, E2), Sealed(Q1, E2), Q2,
    Wrote(Q2, E3), Sealed(Q2, E3), Q3, Wrote(Q3, E4), Sealed(Q3, E4), Q4, Wrote(Q4, E5), WAITING]

  const REQUESTED := Compact(1, [LEFT1, RIGHT1], [LEFT2, RIGHT2], [E3, E1, E4, E2], [SPANNING])

  // ---- one write, one switch, one flush ------------------------------------------------------------------

  lemma WriteAndSwitch(st: State, op: Op, e: Entry)
    requires Inv(st) && st.mem == [] && st.imm == None && st.lastSequence + 1 < MAX_SEQUENCE &&
      e == EntryOf(op, st.lastSequence + 1)
    ensures Next(st, Write([op]), Wrote(st, e)) && Next(Wrote(st, e), Switch, Sealed(st, e)) && Inv(Sealed(st, e))
  {
    hide Inv;
    WriteSingle(st, op);
    assert MemInsert([], e) == [e];
    assert WriteOne(st, op) == Wrote(st, e);
    StepKeepsInv(st, Write([op]), Wrote(st, e));
    StepKeepsInv(Wrote(st, e), Switch, Sealed(st, e));
  }

  /** The flush leads to the tree with the table in its level. */
  lemma Flushes(st: State, e: Entry, level: nat, f: File, one: seq<File>, two: seq<File>, one': seq<File>,
                two': seq<File>)
    requires Inv(Sealed(st, e)) && st.version == Pair(one, two) && f == TableOf([e], st.nextFile + 1, 100) &&
      (level == 1 || level == 2)
    requires Placed(st.version, level, e.key.user, e.key.user) && Ordered(one') && Ordered(two')
    requires if level == 1 then two' == two && forall g :: g in one' <==> g in one || g == f
             else one' == one && forall g :: g in two' <==> g in two || g == f
    ensures var st' := Sealed(st, e).(imm := None, nextFile := st.nextFile + 2, version := Pair(one', two'));
      Next(Sealed(st, e), Flush(level, 100), st') && Inv(st')
  {
    hide ValidVersion, Stored, Saved, Applied, Sorted, Newer, NoneAfter, Placed, Ordered, SnapshotsOrdered;
    var was := Sealed(st, e);
    InstalledIsFlushed(was.version, level, f);
    var v := Installed(was.version, Edit([], [(level, f)]));
    OrderedIsUnique(v[level], if level == 1 then one' else two');
    assert v == Pair(one', two');
    hide Inv;
    StepKeepsInv(was, Flush(level, 100), was.(imm := None, nextFile := st.nextFile + 2, version := Pair(one', two')));
  }

  lemma Levels()
    ensures Ordered([]) && Ordered([LEFT2]) && Ordered([LEFT2, RIGHT2]) && Ordered([LEFT1]) && Ordered([LEFT1, RIGHT1])
  {
  }

  /** Each memtable with its level, as the code picks it. */
  lemma LevelsArePicked()
    ensures PickedLevel(Q0.version, [E1], 2) && PickedLevel(Q1.version, [E2], 2) && PickedLevel(Q2.version, [E3], 1)
    ensures PickedLevel(Q3.version, [E4], 1) && PickedLevel(Q4.version, [E5], 2)
  {
    hide PickedFor;
    DeepLevels();
    ShallowLevels();
  }

  lemma DeepLevels()
    ensures PickedFor(Q0.version, 1, 1, MAX_FILE, 2) && PickedFor(Q1.version, 9, 9, MAX_FILE, 2)
    ensures PickedFor(Q4.version, 5, 5, MAX_FILE, 2)
  {
    hide TotalFileSize, Selected, PickedFor;
    NothingMeets(Range(Some(1), Some(1)));
    NothingMeets(Range(Some(5), Some(5)));
    NothingMeets(Range(Some(9), Some(9)));
    SmallOverlap(LEFT2, RIGHT2, 5);
    SmallOverlap(LEFT2, RIGHT2, 9);
    PicksDown(Q0.version, 1);
    PicksDown(Q1.version, 9);
    PicksDown(Q4.version, 5);
  }

  lemma ShallowLevels()
    ensures PickedFor(Q2.version, 1, 1, MAX_FILE, 1) && PickedFor(Q3.version, 9, 9, MAX_FILE, 1)
  {
    hide TotalFileSize, Selected, PickedFor;
    SmallOverlap(LEFT2, RIGHT2, 1);
    SmallOverlap(LEFT2, RIGHT2, 9);
    assert LEFT2 in Q2.version[2] && Touches(LEFT2, Some(1), Some(1));
    assert RIGHT2 in Q3.version[2] && Touches(RIGHT2, Some(9), Some(9));
    PicksOne(Q2.version, 1);
    PicksOne(Q3.version, 9);
  }

  lemma SmallOverlap(f: File, g: File, u: UserKey)
    requires f.size + g.size <= MAX_FILE
    ensures TotalFileSize(Selected([f], Range(Some(u), Some(u)))) <= MAX_FILE
    ensures TotalFileSize(Selected([f, g], Range(Some(u), Some(u)))) <= MAX_FILE
  {
    assert [f][..0] == [] && [f, g][..1] == [f] && [f][1..] == [] && [g][1..] == [] && [f, g][1..] == [g];
  }

  lemma PicksDown(v: Version, u: UserKey)
    requires |v| == NUM_LEVELS && v[0] == [] && v[3] == [] &&
      forall l, f :: 1 <= l <= 2 && f in v[l] ==> !Touches(f, Some(u), Some(u))
    requires TotalFileSize(Selected(v[2], Range(Some(u), Some(u)))) <= MAX_FILE
    requires TotalFileSize(Selected([], Range(Some(u), Some(u)))) == 0
    ensures PickedFor(v, u, u, MAX_FILE, 2)
  {
    hide Selected, TotalFileSize;
    forall l | 0 <= l < 2 ensures GoesDeeper(v, l, u, u, MAX_FILE) {
    }
  }

  lemma PicksOne(v: Version, u: UserKey)
    requires |v| == NUM_LEVELS && v[0] == [] && (forall f :: f in v[1] ==> !Touches(f, Some(u), Some(u)))
    requires TotalFileSize(Selected(v[2], Range(Some(u), Some(u)))) <= MAX_FILE
    requires exists f :: f in v[2] && Touches(f, Some(u), Some(u))
    ensures PickedFor(v, u, u, MAX_FILE, 1)
  {
    hide Selected, TotalFileSize;
    assert GoesDeeper(v, 0, u, u, MAX_FILE) && !GoesDeeper(v, 1, u, u, MAX_FILE);
  }

  // ---- the run ---------------------------------------------------------------------------------------------

  lemma StartIsQuiet()
    ensures Q0 == START
  {
  }

  lemma FirstRounds()
    ensures Next(Q0, PUTS[0], Wrote(Q0, E1)) && Next(Wrote(Q0, E1), PUTS[1], Sealed(Q0, E1)) &&
      Next(Sealed(Q0, E1), PUTS[2], Q1)
    ensures Next(Q1, PUTS[3], Wrote(Q1, E2)) && Next(Wrote(Q1, E2), PUTS[4], Sealed(Q1, E2)) &&
      Next(Sealed(Q1, E2), PUTS[5], Q2)
    ensures Inv(Q2)
  {
    hide Inv, Next, Wrote, Ordered;
    StartRefinesEmpty(2);
    StartIsQuiet();
    Levels();
    WriteAndSwitch(Q0, Op(1, Value, "a"), E1);
    Flushes(Q0, E1, 2, LEFT2, [], [], [], [LEFT2]);
    WriteAndSwitch(Q1, Op(9, Value, "b"), E2);
    Flushes(Q1, E2, 2, RIGHT2, [], [LEFT2], [], [LEFT2, RIGHT2]);
  }

  lemma LastRounds()
    requires Inv(Q2)
    ensures Next(Q2, PUTS[6], Wrote(Q2, E3)) && Next(Wrote(Q2, E3), PUTS[7], Sealed(Q2, E3)) &&
      Next(Sealed(Q2, E3), PUTS[8], Q3)
    ensures Next(Q3, PUTS[9], Wrote(Q3, E4)) && Next(Wrote(Q3, E4), PUTS[10], Sealed(Q3, E4)) &&
      Next(Sealed(Q3, E4), PUTS[11], Q4)
    ensures Next(Q4, PUTS[12], Wrote(Q4, E5)) && Next(Wrote(Q4, E5), PUTS[13], WAITING) && Inv(WAITING)
  {
    hide Inv, Next, Wrote, Ordered;
    Levels();
    WriteAndSwitch(Q2, Op(1, Value, "c"), E3);
    Flushes(Q2, E3, 1, LEFT1, [], [LEFT2, RIGHT2], [LEFT1], [LEFT2, RIGHT2]);
    WriteAndSwitch(Q3, Op(9, Value, "d"), E4);
    Flushes(Q3, E4, 1, RIGHT1, [LEFT1], [LEFT2, RIGHT2], [LEFT1, RIGHT1], [LEFT2, RIGHT2]);
    WriteAndSwitch(Q4, Op(5, Value, "e"), E5);
  }

  lemma MomentsAreRun()
    ensures Run(MOMENTS, PUTS) && Inv(WAITING)
  {
    hide Inv, Next, Wrote, Sealed, Quiet;
    FirstRounds();
    LastRounds();
  }

  lemma MomentsAreDecided()
    ensures AllDecided(MOMENTS, PUTS)
  {
    hide PickedLevel, Pair, TableOf;
    LevelsArePicked();
  }

  // ---- the compaction that was asked for --------------------------------------------------------------------

  lemma RequestIsLegal()
    ensures Legal(WAITING.version, 1, [LEFT1, RIGHT1], [LEFT2, RIGHT2])
  {
    var v, r := WAITING.version, Range(Some(1), Some(9));
    assert Severed(v[1], 0, 2) && [LEFT1, RIGHT1] == v[1][0..2];
    assert [LEFT1, RIGHT1][0] == LEFT1 && [LEFT1, RIGHT1][1] == RIGHT1;
    assert Hull([LEFT1, RIGHT1], r);
    assert [LEFT2, RIGHT2][..1] == [LEFT2] && [LEFT2][..0] == [];
    assert Selected([], r) == [] && Selected([LEFT2], r) == [LEFT2];
    assert Selected(v[2], r) == [LEFT2, RIGHT2];
  }

  /** CompactRange takes both files of level 1, and both of level 2. */
  lemma RequestTakesBoth()
    ensures LevelsValid(WAITING.version)
    ensures RequestedInputs(WAITING.version, 1, Range(None, None), MAX_FILE, [LEFT1, RIGHT1], [LEFT2, RIGHT2])
  {
    hide HullOf, Selected, Bounded, TotalFileSize, Lower, ChosenFrom;
    var v, upper, lower := WAITING.version, [LEFT1, RIGHT1], [LEFT2, RIGHT2];
    assert v[1] == upper && v[2] == lower && LevelsValid(v);
    assert RIGHT1 == upper[1] && LEFT1 == upper[0];
    InputExpansion.NoBoundary(upper, upper, RIGHT1);
    InputExpansion.HullOfTwo(LEFT1, RIGHT1);
    InputExpansion.SelectedOfTwo(LEFT2, RIGHT2, HullOf(upper));
    LowerIsBoth(v, upper, lower);
    InputExpansion.SelectedOfTwo(LEFT1, RIGHT1, Range(None, None));
    BothMeet(upper, lower);
    InputExpansion.SelectedOfTwo(LEFT1, RIGHT1, HullOf(upper + lower));
    assert Overlapping(v, 1, HullOf(upper + lower), upper);
    InputExpansion.StaysAsItIs(v, 1, upper, MAX_FILE, lower);
    InputExpansion.TotalOfTwo(LEFT1, RIGHT1);
    assert upper[..2] == upper && upper[..1] == [LEFT1];
    assert Overlapping(v, 1, Range(None, None), upper) && CutAt(1, upper, 2, MAX_FILE);
    assert ChosenFrom(v, 1, upper[..2], MAX_FILE, upper, lower);
  }

  lemma LowerIsBoth(v: Version, upper: seq<File>, lower: seq<File>)
    requires |v| > 2 && |upper| > 0 && Selected(v[2], HullOf(upper)) == lower
    ensures Lower(v, 1, upper) == lower
  {
  }

  lemma BothMeet(upper: seq<File>, lower: seq<File>)
    requires upper == [LEFT1, RIGHT1]
    ensures Meets(LEFT1, HullOf(upper + lower)) && Meets(RIGHT1, HullOf(upper + lower))
  {
    var r := HullOf(upper + lower);
    assert LEFT1 == (upper + lower)[0] && RIGHT1 == (upper + lower)[1];
    assert Inside(LEFT1, r) && Inside(RIGHT1, r);
  }

  lemma NewestSurvive()
    ensures Survivors([E3, E1, E4, E2], 4, 5, WAITING.version, 1) == [E3, E4]
  {
    var input, v := [E3, E1, E4, E2], WAITING.version;
    assert !Dropped(input, 0, 5, v, 1) && Dropped(input, 1, 5, v, 1) && !Dropped(input, 2, 5, v, 1) &&
      Dropped(input, 3, 5, v, 1);
    assert Survivors(input, 0, 5, v, 1) == [];
    assert Survivors(input, 1, 5, v, 1) == [E3];
    assert Survivors(input, 2, 5, v, 1) == [E3];
    assert Survivors(input, 3, 5, v, 1) == [E3, E4];
  }

  lemma InputsHold()
    ensures Elements([E3, E1, E4, E2]) == FileEntries([LEFT1, RIGHT1]) + FileEntries([LEFT2, RIGHT2])
    ensures FileEntries([SPANNING]) == Elements([E3, E4])
  {
    hide Elements, FileEntries;
    EntriesOf(LEFT1, RIGHT1, RIGHT1);
    EntriesOf(LEFT2, RIGHT2, RIGHT2);
    EntriesOf(SPANNING, SPANNING, SPANNING);
    ElementsOf(E3, E3, E3);
    ElementsOf(E4, E4, E4);
    ElementsOf(E1, E1, E1);
    ElementsOf(E2, E2, E2);
    FourElements();
  }

  lemma FourElements()
    ensures Elements([E3, E1, E4, E2]) == {E3, E4, E1, E2}
  {
    assert forall e :: e in [E3, E1, E4, E2] <==> e == E3 || e == E1 || e == E4 || e == E2;
  }

  /** Without the flush it is a step like any other. */
  lemma RequestIsStep() returns (done: State)
    requires Inv(WAITING)
    ensures Next(WAITING, REQUESTED, done) && done.nextFile == 13
  {
    hide Inv, Legal, Survivors, Installed, FileEntries, Elements, CompactionEdit;
    var edit := CompactionEdit(1, [LEFT1, RIGHT1], [LEFT2, RIGHT2], [SPANNING]);
    done := WAITING.(nextFile := 13, version := Installed(WAITING.version, edit));
    RequestIsLegal();
    NewestSurvive();
    InputsHold();
    SpanningIsValid();
  }

  lemma SpanningIsValid()
    ensures ValidFiles([SPANNING]) && Disjoint([SPANNING]) && OutputNumbers([SPANNING], 11, 13) &&
      Sorted([E3, E1, E4, E2])
    ensures SmallestSnapshot(WAITING) == 5 && Numbers([SPANNING]) == {11}
  {
    assert SPANNING in [SPANNING];
  }

  /** A run from an empty database, as the code decides its steps, then a compaction of all of level 1, and the
    memtable that waits is flushed to the level the code picks while it runs: level 2 is not disjoint afterwards. */
  lemma RequestCanSpan()
      returns (states: seq<State>, events: seq<Event>, ev: Event, done: State, number: nat, size: nat)
    ensures Run(states, events) && states[0] == START && AllDecided(states, events)
    ensures var st := states[|events|];
      Interrupts(st, ev, done, 2, number, size) && PickedLevel(st.version, ImmEntries(st), 2) &&
      ev.level == 1 && ev.inputs0 == st.version[1] && |st.version[2]| > 0 && LevelsValid(st.version) &&
      RequestedInputs(st.version, 1, Range(None, None), MAX_FILE, ev.inputs0, ev.inputs1) &&
      !Inv(Interrupted(st, ev, done, 2, number, size))
  {
    hide Inv, Next, Run, AllDecided, MOMENTS, PUTS, Interrupted, PickedLevel, PickedFor, RequestedInputs, LevelsValid;
    RequestTakesBoth();
    MomentsAreRun();
    MomentsAreDecided();
    Ends();
    LevelsArePicked();
    SpanningIsValid();
    states, events, ev, number, size := MOMENTS, PUTS, REQUESTED, 12, 100;
    done := RequestIsStep();
    GapIsClear();
    FlushInBetween(WAITING, REQUESTED, done, 2, 12, 100);
    assert Spans(SPANNING, Table(WAITING, 12, 100)) && SPANNING in REQUESTED.outputs;
  }

  lemma Ends()
    ensures |PUTS| == 14 && |MOMENTS| == 15 && MOMENTS[0] == START && MOMENTS[14] == WAITING
  {
    StartIsQuiet();
  }

  lemma GapIsClear()
    ensures Placed(WAITING.version, 2, 5, 5)
  {
  }
}
