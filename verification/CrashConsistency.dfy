/** What a crash leaves of the contents: whatever part of the last memtable's writes is lost, the files and the rest of
  the writes read like the map as it was behind the last write that is left. */
module CrashConsistency {
  import opened Options
  import opened InternalKeys
  import opened ReadSpec
  import opened Versions
  import opened VersionEdits
  import opened CompactionInputs
  import opened Compactions
  import opened Install
  import opened SnapshotReads
  import opened Database
  import opened MapRefinement
  import opened ManifestRuns

  /** What is left when everything written after s is lost. */
  ghost function Below(all: set<Entry>, s: nat): set<Entry> {
    set e | e in all && e.key.sequence <= s
  }

  /** What was lost is not missed by a read that would not have seen it, nor is it found by a later one. */
  lemma BelowReads(all: set<Entry>, u: UserKey, s: nat, t: nat)
    requires Identified(all) && s <= t
    ensures Visible(Below(all, s), u, t) == Visible(all, u, s)
  {
    if !NoneVisible(all, u, s) {
      var x := Newest(all, u, s);
      assert AtOrBelow(x, u, s);
      LookupIs(all, u, s, x);
      assert IsNewest(Below(all, s), u, t, x);
      LookupIs(Below(all, s), u, t, x);
    } else {
      assert NoneVisible(Below(all, s), u, t) by {
        forall x | x in Below(all, s) ensures !AtOrBelow(x, u, t) {
          assert !AtOrBelow(x, u, s);
        }
      }
    }
  }

  // ---- which writes a crash can take ---------------------------------------------------------------

  /** How many of the first n events came before the switch that made the immutable memtable. */
  function SealedPart(events: seq<Event>, n: nat): (k: nat)
    requires n <= |events|
    ensures k <= n
  {
    if n == 0 then 0 else if events[n - 1].Switch? then n - 1 else SealedPart(events, n - 1)
  }

  /** How many of the first n events came before the switch whose memtable was flushed last: their writes are in
    files. */
  function FlushedPart(events: seq<Event>, n: nat): (k: nat)
    requires n <= |events|
    ensures k <= SealedPart(events, n)
  {
    if n == 0 then 0 else if events[n - 1].Flush? then SealedPart(events, n - 1) else FlushedPart(events, n - 1)
  }

  /** Files hold nothing written after the flushed part of the run, the immutable memtable nothing after the sealed
    part. */
  ghost predicate Layered(states: seq<State>, events: seq<Event>, n: nat)
    requires |states| == |events| + 1 && n <= |events|
  {
    NoneAfter(Stored(states[n].version), states[FlushedPart(events, n)].lastSequence) &&
    NoneAfter(Elements(ImmEntries(states[n])), states[SealedPart(events, n)].lastSequence)
  }

  lemma {:induction false} WriteMoves(st: State, ops: seq<Op>)
    requires st.lastSequence + |ops| <= MAX_SEQUENCE
    ensures WriteAll(st, ops).lastSequence == st.lastSequence + |ops|
    ensures WriteAll(st, ops).imm == st.imm && WriteAll(st, ops).version == st.version
    decreases |ops|
  {
    if |ops| > 0 {
      WriteMoves(WriteOne(st, ops[0]), ops[1..]);
    }
  }

  lemma StepMoves(st: State, ev: Event, st': State)
    requires Next(st, ev, st')
    ensures st.lastSequence <= st'.lastSequence
    ensures !ev.Write? ==> st'.lastSequence == st.lastSequence
    ensures !ev.Switch? && !ev.Flush? ==> st'.imm == st.imm
  {
    hide CompactStep, MoveStep, WriteAll;
    match ev
    case Write(ops) => WriteMoves(st, ops);
    case Compact(level, inputs0, inputs1, input, outputs) =>
      CompactSettings(st, level, inputs0, inputs1, input, outputs, st');
    case Move(level, file) => MoveSettings(st, level, file, st');
    case _ =>
  }

  lemma CompactSettings(st: State, level: nat, inputs0: seq<File>, inputs1: seq<File>, input: seq<Entry>,
                        outputs: seq<File>, st': State)
    requires CompactStep(st, level, inputs0, inputs1, input, outputs, st')
    ensures st' == st.(nextFile := st'.nextFile, version := st'.version)
  {
  }

  lemma MoveSettings(st: State, level: nat, file: File, st': State)
    requires MoveStep(st, level, file, st')
    ensures st' == st.(version := st'.version)
  {
  }

  lemma NotInBoth(mem: set<Entry>, stored: set<Entry>, e: Entry)
    requires Newer(mem, stored) && e in stored
    ensures e !in mem
  {
  }

  /** What a flush or a move leaves in files was in files or in the immutable memtable before. */
  lemma StoredComesFrom(st: State, st': State)
    requires Inv(st') && All(st') == All(st) && st'.mem == st.mem
    ensures Stored(st'.version) <= Stored(st.version) + Elements(ImmEntries(st))
  {
    hide ValidVersion, Stored, Sorted, NumbersBelow, NoneAfter;
    forall e | e in Stored(st'.version) ensures e in Stored(st.version) + Elements(ImmEntries(st)) {
      assert e in All(st);
      NotInBoth(MemSet(st'), Stored(st'.version), e);
      assert Elements(st.mem) <= MemSet(st');
    }
  }

  /** The files of a step hold nothing they did not hold, but for a flush. */
  lemma StepStores(st: State, ev: Event, st': State)
    requires Inv(st) && Next(st, ev, st')
    ensures Stored(st'.version) <= Stored(st.version) + (if ev.Flush? then Elements(ImmEntries(st)) else {})
  {
    hide Inv, Stored, FlushStep, CompactStep, MoveStep, All, Elements;
    match ev
    case Write(ops) => WriteMoves(st, ops);
    case Flush(level, size) =>
      FlushKeepsInv(st, level, size, st');
      FlushSettings(st, level, size, st');
      StoredComesFrom(st, st');
    case Compact(level, inputs0, inputs1, input, outputs) =>
      CompactionStepRan(st, level, inputs0, inputs1, input, outputs, st');
      StoredAfterIsOld(st.version, level, inputs0, inputs1, input, SmallestSnapshot(st), outputs, st'.version);
    case Move(level, file) =>
      MoveStores(st, level, file, st');
    case _ =>
  }

  lemma FlushSettings(st: State, level: nat, size: nat, st': State)
    requires FlushStep(st, level, size, st')
    ensures st'.mem == st.mem && st'.imm == None
  {
  }

  lemma MoveStores(st: State, level: nat, file: File, st': State)
    requires Inv(st) && MoveStep(st, level, file, st')
    ensures Stored(st'.version) <= Stored(st.version)
  {
    hide ValidVersion, Stored, Sorted, NumbersBelow, NoneAfter, MoveStep;
    MoveKeepsInv(st, level, file, st');
    MoveSettings(st, level, file, st');
    forall e | e in Stored(st'.version) ensures e in Stored(st.version) {
      assert e in All(st') && All(st') == All(st);
      NotInBoth(MemSet(st'), Stored(st'.version), e);
      assert MemSet(st) == MemSet(st');
    }
  }

  lemma {:induction false} SequencesGrow(states: seq<State>, events: seq<Event>, j: nat, n: nat)
    requires Run(states, events) && j <= n <= |events|
    ensures states[j].lastSequence <= states[n].lastSequence
    decreases n
  {
    hide Next;
    if j < n {
      assert Next(states[n - 1], events[n - 1], states[n - 1 + 1]);
      StepMoves(states[n - 1], events[n - 1], states[n]);
      SequencesGrow(states, events, j, n - 1);
    }
  }

  lemma NoneAfterMore(a: set<Entry>, s: nat, b: set<Entry>, t: nat)
    requires NoneAfter(a, s) && b <= a && s <= t
    ensures NoneAfter(b, t)
  {
  }

  lemma LayersOfInv(st: State)
    requires Inv(st)
    ensures NoneAfter(Stored(st.version), st.lastSequence) && NoneAfter(Elements(ImmEntries(st)), st.lastSequence)
    ensures NoneAfter(Elements(st.mem), st.lastSequence) && NoneAfter({}, 0)
  {
    hide ValidVersion, Stored, Sorted, NumbersBelow, Newer;
    assert forall e :: e in Stored(st.version) || e in Elements(ImmEntries(st)) || e in Elements(st.mem) ==>
      e in All(st);
  }

  lemma {:induction false} RunIsLayered(states: seq<State>, events: seq<Event>, n: nat)
    requires Run(states, events) && Inv(states[0]) && n <= |events|
    ensures Inv(states[n]) && Layered(states, events, n)
    decreases n
  {
    hide Inv, Next, Stored, Elements;
    if n == 0 {
      LayersOfInv(states[0]);
    } else {
      var st, ev, st' := states[n - 1], events[n - 1], states[n];
      assert Next(states[n - 1], events[n - 1], states[n - 1 + 1]);
      RunIsLayered(states, events, n - 1);
      StepKeepsInv(st, ev, st');
      LayersOfInv(st);
      StepMoves(st, ev, st');
      StepStores(st, ev, st');
      var f, i := FlushedPart(events, n - 1), SealedPart(events, n - 1);
      SequencesGrow(states, events, f, i);
      NewImm(st, ev, st');
      if ev.Flush? {
        NoneAfterMore(Stored(st.version), states[f].lastSequence, Stored(st.version), states[i].lastSequence);
        NoneAfterMore(Stored(st.version) + Elements(ImmEntries(st)), states[i].lastSequence, Stored(st'.version),
                      states[i].lastSequence);
        assert Elements([]) == {} by { NoElements(); }
      } else {
        NoneAfterMore(Stored(st.version), states[f].lastSequence, Stored(st'.version), states[f].lastSequence);
        assert FlushedPart(events, n) == f;
      }
    }
  }

  lemma NoElements()
    ensures Elements([]) == {}
  {
  }

  lemma NewImm(st: State, ev: Event, st': State)
    requires Next(st, ev, st')
    ensures ev.Switch? ==> ImmEntries(st') == st.mem
    ensures ev.Flush? ==> ImmEntries(st') == []
  {
    hide CompactStep, MoveStep, WriteAll;
  }

  // ---- which compactions lose nothing in a crash -----------------------------------------------------

  function Smaller(s: nat, t: nat): nat {
    if s < t then s else t
  }

  /** Files and the part of the memtables that is not newer than s. */
  ghost function Left(st: State, s: nat): set<Entry> {
    Below(MemSet(st), s) + Stored(st.version)
  }

  /** The compaction brings back an old value if a crash takes everything newer than s, for a reader at s or at the
    oldest snapshot, whichever is older. */
  ghost predicate Uncovers(st: State, ev: Event, s: nat, u: UserKey, x: Entry, y: Entry)
    requires ev.Compact?
  {
    NoneAfter(Stored(st.version), s) &&
    Resurrects(Below(MemSet(st), s), st.version, ev.level, ev.inputs1, Smaller(s, SmallestSnapshot(st)), u, x, y)
  }

  /** No such value shows after the crash, when everybody reads at s or later. */
  ghost predicate CrashSafe(st: State, ev: Event) {
    ev.Compact? ==> forall s: nat, u, x, y :: Uncovers(st, ev, s, u, x, y) ==> !IsNewest(Left(st, s), u, s, x)
  }

  /** No such value shows at all: neither after a crash nor at a snapshot that is live now. */
  ghost predicate AlwaysSafe(st: State, ev: Event) {
    ev.Compact? ==> forall s: nat, u, x, y :: !Uncovers(st, ev, s, u, x, y)
  }

  lemma AlwaysIsBoth(st: State, ev: Event)
    requires Inv(st) && AlwaysSafe(st, ev)
    ensures Safe(st, ev) && CrashSafe(st, ev)
  {
    hide ValidVersion, Stored, Resurrects, Elements, NumbersBelow, Newer, IsNewest;
    if ev.Compact? {
      LayersOfInv(st);
      assert Below(MemSet(st), st.lastSequence) == MemSet(st);
      InvBounds(st);
      forall u, x, y ensures !Resurrects(MemSet(st), st.version, ev.level, ev.inputs1, SmallestSnapshot(st), u, x, y) {
        assert !Uncovers(st, ev, st.lastSequence, u, x, y);
      }
    }
  }

  lemma AboveBelow(mem: set<Entry>, v: Version, s: nat)
    requires Above(mem, v)
    ensures Above(Below(mem, s), v)
  {
    hide Stored;
  }

  /** No boundary file behind the lower inputs: that compaction is safe whatever is lost. */
  lemma NoBoundaryIsAlwaysSafe(st: State, ev: Event)
    requires Inv(st) && ev.Compact? && Legal(st.version, ev.level, ev.inputs0, ev.inputs1)
    requires NoBoundaryBelow(st.version, ev.level, ev.inputs1)
    ensures AlwaysSafe(st, ev)
  {
    hide ValidVersion, Stored, NumbersBelow, NoneAfter, Legal, NoBoundaryBelow, Resurrects, Newer;
    MemSetIsIdentified(st);
    forall s: nat, u, x, y ensures !Uncovers(st, ev, s, u, x, y) {
      AboveBelow(MemSet(st), st.version, s);
      NoBoundaryNoResurrection(Below(MemSet(st), s), st.version, ev.level, ev.inputs0, ev.inputs1,
                               Smaller(s, SmallestSnapshot(st)), u, x, y);
    }
  }

  /** A compaction of entries no newer than s drops what it would drop if s were the oldest snapshot. */
  lemma {:induction false} SameSurvivors(input: seq<Entry>, n: nat, s: nat, t: nat, v: Version, level: nat)
    requires n <= |input| && s <= t < MAX_SEQUENCE && NoneAfter(Elements(input), s)
    ensures Survivors(input, n, s, v, level) == Survivors(input, n, t, v, level)
  {
    hide NoDeeperData;
    if n > 0 {
      SameSurvivors(input, n - 1, s, t, v, level);
      assert input[n - 1] in Elements(input);
      if n > 1 {
        assert input[n - 2] in Elements(input);
      }
    }
  }

  lemma RanAt(v: Version, level: nat, inputs0: seq<File>, inputs1: seq<File>, input: seq<Entry>, s: nat, t: nat,
              outputs: seq<File>, v': Version)
    requires Ran(v, level, inputs0, inputs1, input, t, outputs, v') && NoneAfter(Stored(v), s) && s <= t < MAX_SEQUENCE
    ensures Ran(v, level, inputs0, inputs1, input, s, outputs, v')
  {
    hide ValidVersion, Legal, Sorted, Compacted, Survivors, FileEntries, Disjoint, ValidFiles, Stored;
    InputIsStored(v, level, inputs0, inputs1, input);
    NoneAfterMore(Stored(v), s, Elements(input), s);
    SameSurvivors(input, |input|, s, t, v, level);
  }

  /** What a compaction does to what a crash at s would leave, as if s, or the oldest snapshot, were the only one. */
  lemma RanBelow(st: State, ev: Event, st': State, s: nat)
    requires Inv(st) && ev.Compact? && Next(st, ev, st') && NoneAfter(Stored(st.version), s)
    ensures var t := Smaller(s, SmallestSnapshot(st));
      t < MAX_SEQUENCE && Above(Below(MemSet(st), s), st.version) && Identified(Left(st, s)) &&
      Ran(st.version, ev.level, ev.inputs0, ev.inputs1, ev.input, t, ev.outputs, st'.version)
  {
    hide ValidVersion, Legal, Disjoint, ValidFiles, Sorted, Installed, OutputNumbers, Survivors, Stored, Newer, Ran;
    hide Above, FileEntries, Elements, Compacted;
    CompactionStepRan(st, ev.level, ev.inputs0, ev.inputs1, ev.input, ev.outputs, st');
    InvBounds(st);
    AboveBelow(MemSet(st), st.version, s);
    AllIsIdentified(Below(MemSet(st), s), st.version);
    if Smaller(s, SmallestSnapshot(st)) == s {
      RanAt(st.version, ev.level, ev.inputs0, ev.inputs1, ev.input, s, SmallestSnapshot(st), ev.outputs, st'.version);
    }
  }

  /** A crash-safe compaction changes no read of what a crash can leave. */
  lemma CompactReadsBelow(st: State, ev: Event, st': State, u: UserKey, s: nat)
    requires Inv(st) && ev.Compact? && Next(st, ev, st') && CrashSafe(st, ev) && NoneAfter(Stored(st.version), s)
    ensures Visible(Below(MemSet(st), s) + Stored(st'.version), u, s) == Visible(Left(st, s), u, s)
  {
    hide Inv, Next, Stored, Ran, Above, Visible, Resurrects, IsNewest, NoneAfter;
    RanBelow(st, ev, st', s);
    var t := Smaller(s, SmallestSnapshot(st));
    forall x, y | Resurrects(Below(MemSet(st), s), st.version, ev.level, ev.inputs1, t, u, x, y)
      ensures !IsNewest(Left(st, s), u, s, x)
    {
      assert Uncovers(st, ev, s, u, x, y);
    }
    ReadUnchanged(Below(MemSet(st), s), st.version, ev.level, ev.inputs0, ev.inputs1, ev.input, t, ev.outputs,
                  st'.version, u, s);
  }

  /** If nothing of the key lies between t and s, and nothing is added, a read at s is a read at t. */
  lemma SameRead(all: set<Entry>, part: set<Entry>, u: UserKey, t: nat, s: nat, x: Entry)
    requires Identified(all) && part <= all && t <= s && IsNewest(all, u, s, x) && x.key.sequence <= t
    ensures Visible(part, u, s) == Visible(part, u, t)
  {
    assert forall e :: e in part && AtOrBelow(e, u, s) ==> AtOrBelow(e, u, t);
    if !NoneVisible(part, u, t) {
      var e := Newest(part, u, t);
      assert AtOrBelow(e, u, t);
      LookupIs(part, u, t, e);
      LookupIs(part, u, s, e);
    }
  }

  lemma ResurrectedFacts(mem: set<Entry>, v: Version, level: nat, inputs1: seq<File>, t: nat, u: UserKey, x: Entry,
                         y: Entry)
    requires Resurrects(mem, v, level, inputs1, t, u, x, y)
    ensures x.key.sequence <= t && x.key.kind.Deletion?
  {
    hide Stored, NoDeeperData, FileEntries, RestEntries;
  }

  /** One that is not shows once the newer writes are lost: a deleted key reads as its old value. */
  lemma UncoveredShows(st: State, ev: Event, st': State, s: nat, u: UserKey, x: Entry, y: Entry)
    requires Inv(st) && ev.Compact? && Next(st, ev, st') && Uncovers(st, ev, s, u, x, y) &&
      IsNewest(Left(st, s), u, s, x)
    ensures Visible(Left(st, s), u, s) == None
    ensures Visible(Below(MemSet(st), s) + Stored(st'.version), u, s) == Some(y.value)
  {
    hide Inv, Next, Stored, Ran, Above, Resurrects, IsNewest, NoneAfter, Identified;
    var mem, t := Below(MemSet(st), s), Smaller(s, SmallestSnapshot(st));
    RanBelow(st, ev, st', s);
    ResurrectionShows(mem, st.version, ev.level, ev.inputs0, ev.inputs1, ev.input, t, ev.outputs, st'.version, u, x, y);
    StoredAfterIsOld(st.version, ev.level, ev.inputs0, ev.inputs1, ev.input, t, ev.outputs, st'.version);
    ResurrectedFacts(mem, st.version, ev.level, ev.inputs1, t, u, x, y);
    LookupIs(Left(st, s), u, s, x);
    SameRead(Left(st, s), mem + Stored(st'.version), u, t, s, x);
  }

  /** A later read of what a crash at s leaves is a read at s. */
  lemma LaterIsSame(st: State, v: Version, u: UserKey, s: nat, r: nat)
    requires Identified(Below(MemSet(st), s) + Stored(v)) && NoneAfter(Stored(v), s) && s <= r
    ensures Visible(Below(MemSet(st), s) + Stored(v), u, r) == Visible(Below(MemSet(st), s) + Stored(v), u, s)
  {
    hide Stored, MemSet, Visible;
    var left := Below(MemSet(st), s) + Stored(v);
    assert Below(left, s) == left;
    BelowReads(left, u, s, r);
  }

  lemma BothIdentified(st: State, ev: Event, st': State, s: nat)
    requires Inv(st) && ev.Compact? && Next(st, ev, st') && NoneAfter(Stored(st.version), s)
    ensures Identified(Left(st, s)) && Identified(Below(MemSet(st), s) + Stored(st'.version)) &&
      NoneAfter(Stored(st'.version), s)
  {
    hide Inv, Next, Stored, Ran, Above, MemSet;
    var t := Smaller(s, SmallestSnapshot(st));
    RanBelow(st, ev, st', s);
    StoredAfterIsOld(st.version, ev.level, ev.inputs0, ev.inputs1, ev.input, t, ev.outputs, st'.version);
  }

  /** The exact condition: a compaction is crash-safe if and only if, whatever a crash takes, every later read of
    every key is what it would have been without the compaction. */
  lemma CrashSafeIsExact(st: State, ev: Event, st': State)
    requires Inv(st) && ev.Compact? && Next(st, ev, st')
    ensures CrashSafe(st, ev) <==> forall s: nat, u, r: nat :: NoneAfter(Stored(st.version), s) && s <= r ==>
      Visible(Below(MemSet(st), s) + Stored(st'.version), u, r) == Visible(Left(st, s), u, r)
  {
    hide Inv, Next, Stored, MemSet, Visible, NoneAfter, Uncovers, IsNewest, Identified, Below;
    if CrashSafe(st, ev) {
      forall s: nat, u, r: nat | NoneAfter(Stored(st.version), s) && s <= r
        ensures Visible(Below(MemSet(st), s) + Stored(st'.version), u, r) == Visible(Left(st, s), u, r)
      {
        CompactReadsBelow(st, ev, st', u, s);
        BothIdentified(st, ev, st', s);
        LaterIsSame(st, st.version, u, s, r);
        LaterIsSame(st, st'.version, u, s, r);
      }
    } else {
      var s: nat, u, x, y :| Uncovers(st, ev, s, u, x, y) && IsNewest(Left(st, s), u, s, x);
      UncoveredShows(st, ev, st', s, u, x, y);
      assert NoneAfter(Stored(st.version), s) by { UncoversFacts(st, ev, s, u, x, y); }
    }
  }

  lemma UncoversFacts(st: State, ev: Event, s: nat, u: UserKey, x: Entry, y: Entry)
    requires ev.Compact? && Uncovers(st, ev, s, u, x, y)
    ensures NoneAfter(Stored(st.version), s)
    ensures Resurrects(Below(MemSet(st), s), st.version, ev.level, ev.inputs1, Smaller(s, SmallestSnapshot(st)),
                       u, x, y)
  {
  }

  /** And the exact condition for readers at live snapshots too. */
  lemma AlwaysSafeIsExact(st: State, ev: Event, st': State)
    requires Inv(st) && ev.Compact? && Next(st, ev, st')
    ensures AlwaysSafe(st, ev) <==>
      forall s: nat, u, r: nat :: NoneAfter(Stored(st.version), s) && Smaller(s, SmallestSnapshot(st)) <= r ==>
        Visible(Below(MemSet(st), s) + Stored(st'.version), u, r) == Visible(Left(st, s), u, r)
  {
    hide Inv, Next, Stored, MemSet, Visible, NoneAfter, Resurrects, Ran, Above, Below;
    if AlwaysSafe(st, ev) {
      forall s: nat, u, r: nat | NoneAfter(Stored(st.version), s) && Smaller(s, SmallestSnapshot(st)) <= r
        ensures Visible(Below(MemSet(st), s) + Stored(st'.version), u, r) == Visible(Left(st, s), u, r)
      {
        RanBelow(st, ev, st', s);
        forall x, y
          ensures !Resurrects(Below(MemSet(st), s), st.version, ev.level, ev.inputs1,
                              Smaller(s, SmallestSnapshot(st)), u, x, y)
        {
          assert !Uncovers(st, ev, s, u, x, y);
        }
        ReadUnchanged(Below(MemSet(st), s), st.version, ev.level, ev.inputs0, ev.inputs1, ev.input,
                      Smaller(s, SmallestSnapshot(st)),
                      ev.outputs, st'.version, u, r);
      }
    } else {
      var s: nat, u, x, y :| Uncovers(st, ev, s, u, x, y);
      RanBelow(st, ev, st', s);
      var t: nat := Smaller(s, SmallestSnapshot(st));
      ResurrectionShows(Below(MemSet(st), s), st.version, ev.level, ev.inputs0, ev.inputs1, ev.input, t, ev.outputs,
                        st'.version, u, x, y);
      assert Visible(Below(MemSet(st), s) + Stored(st'.version), u, t) != Visible(Left(st, s), u, t);
    }
  }

  // ---- runs ----------------------------------------------------------------------------------------------

  lemma LeftIsBelow(st: State, s: nat)
    requires NoneAfter(Stored(st.version), s)
    ensures Left(st, s) == Below(All(st), s)
  {
    hide Stored;
  }

  lemma {:induction false} WriteReadsOlder(st: State, ops: seq<Op>, u: UserKey, s: nat)
    requires Inv(st) && st.lastSequence + |ops| < MAX_SEQUENCE && s <= st.lastSequence
    ensures Visible(All(WriteAll(st, ops)), u, s) == Visible(All(st), u, s)
    decreases |ops|
  {
    hide Inv, Visible, MemInsert, All;
    if |ops| > 0 {
      var e := EntryOf(ops[0], st.lastSequence + 1);
      WriteOneKeepsInv(st, ops[0]);
      StateIsIdentified(st);
      InvBounds(st);
      OlderReadsSame(All(st), st.lastSequence, e, u, s);
      WriteReadsOlder(WriteOne(st, ops[0]), ops[1..], u, s);
    }
  }

  /** A crash-safe step changes no read at s, if nothing in the files is newer than s and s is no later than now. */
  lemma StepReadsSame(st: State, ev: Event, st': State, u: UserKey, s: nat)
    requires Inv(st) && Next(st, ev, st') && CrashSafe(st, ev) && NoneAfter(Stored(st.version), s) &&
      s <= st.lastSequence
    ensures Visible(All(st'), u, s) == Visible(All(st), u, s)
  {
    hide Inv, Visible, FlushStep, MoveStep, All, CrashSafe, NoneAfter, Stored;
    match ev
    case Write(ops) => WriteReadsOlder(st, ops, u, s);
    case Compact(level, inputs0, inputs1, input, outputs) =>
      CompactReadsSameBelow(st, ev, st', u, s);
    case Switch => SwitchKeepsInv(st);
    case Flush(level, size) => FlushKeepsInv(st, level, size, st');
    case Move(level, file) => MoveKeepsInv(st, level, file, st');
    case _ => SameAll(st, st');
  }

  lemma SameAll(st: State, st': State)
    requires st' == st.(snapshots := st'.snapshots)
    ensures All(st') == All(st)
  {
  }

  lemma CompactReadsSameBelow(st: State, ev: Event, st': State, u: UserKey, s: nat)
    requires Inv(st) && ev.Compact? && Next(st, ev, st') && CrashSafe(st, ev) && NoneAfter(Stored(st.version), s)
    ensures Visible(All(st'), u, s) == Visible(All(st), u, s)
  {
    hide Inv, Visible, All, CrashSafe, Stored, CompactStep;
    CompactSettings(st, ev.level, ev.inputs0, ev.inputs1, ev.input, ev.outputs, st');
    CompactReadsBelow(st, ev, st', u, s);
    StepStores(st, ev, st');
    StepKeepsInv(st, ev, st');
    NoneAfterMore(Stored(st.version), s, Stored(st'.version), s);
    LeftIsBelow(st, s);
    LeftIsBelow(st', s);
    StateIsIdentified(st);
    StateIsIdentified(st');
    BelowReads(All(st), u, s, s);
    BelowReads(All(st'), u, s, s);
    assert MemSet(st') == MemSet(st);
  }

  lemma FlushedGrows(events: seq<Event>, n: nat)
    requires 0 < n <= |events|
    ensures FlushedPart(events, n - 1) <= FlushedPart(events, n)
  {
  }

  /** Writes show at once, whatever the snapshots are. */
  lemma {:induction false} WriteReadsNow(st: State, ops: seq<Op>, m: Contents)
    requires Inv(st) && st.lastSequence + |ops| < MAX_SEQUENCE && ReadsLike(All(st), st.lastSequence, m)
    ensures ReadsLike(All(WriteAll(st, ops)), WriteAll(st, ops).lastSequence, ApplyOps(m, ops))
    decreases |ops|
  {
    hide Inv, Visible, MemInsert, All;
    if |ops| > 0 {
      var e, next := EntryOf(ops[0], st.lastSequence + 1), WriteOne(st, ops[0]);
      WriteOneKeepsInv(st, ops[0]);
      StateIsIdentified(st);
      InvBounds(st);
      forall u ensures Visible(All(next), u, next.lastSequence) == ReadOf(ApplyOp(m, ops[0]), u) {
        NewReads(All(st), st.lastSequence, e, u);
        assert Visible(All(st), u, st.lastSequence) == ReadOf(m, u);
      }
      WriteReadsNow(next, ops[1..], ApplyOp(m, ops[0]));
    }
  }

  lemma {:induction false} SpecRunLast(spec: Spec, events: seq<Event>)
    requires |events| > 0
    ensures SpecRun(spec, events) == SpecNext(SpecRun(spec, events[..|events| - 1]), events[|events| - 1])
    decreases |events|
  {
    hide SpecNext;
    var n := |events| - 1;
    if n == 0 {
      assert events[1..] == [] && events[..0] == [];
    } else {
      SpecRunLast(SpecNext(spec, events[0]), events[1..]);
      assert events[1..][..n - 1] == events[..n][1..];
    }
  }

  lemma OtherEventsKeepCurrent(spec: Spec, ev: Event)
    ensures SpecNext(spec, ev).current == if ev.Write? then ApplyOps(spec.current, ev.ops) else spec.current
  {
  }

  /** After a crash-safe step reads now are those of the map after it. */
  lemma StepReadsNow(st: State, ev: Event, st': State, spec: Spec)
    requires Inv(st) && Next(st, ev, st') && CrashSafe(st, ev) && ReadsLike(All(st), st.lastSequence, spec.current)
    ensures ReadsLike(All(st'), st'.lastSequence, SpecNext(spec, ev).current)
  {
    hide Inv, Next, Visible, All, CrashSafe, SpecNext, WriteAll, Stored;
    OtherEventsKeepCurrent(spec, ev);
    StepMoves(st, ev, st');
    if ev.Write? {
      WriteFacts(st, ev, st');
      WriteReadsNow(st, ev.ops, spec.current);
    } else {
      LayersOfInv(st);
      forall u ensures Visible(All(st'), u, st'.lastSequence) == ReadOf(spec.current, u) {
        StepReadsSame(st, ev, st', u, st.lastSequence);
      }
    }
  }

  lemma WriteFacts(st: State, ev: Event, st': State)
    requires Next(st, ev, st') && ev.Write?
    ensures st.lastSequence + |ev.ops| < MAX_SEQUENCE && st' == WriteAll(st, ev.ops)
  {
    hide WriteAll;
  }

  /** Behind n steps, reads at the sequence number behind j steps are those of the map then, for every j that is not
    wholly flushed yet: an implicit snapshot at every write a crash can take. */
  lemma {:induction false} OlderMomentReads(states: seq<State>, events: seq<Event>, spec: Spec, n: nat, j: nat)
    requires Run(states, events) && Inv(states[0]) && ReadsLike(All(states[0]), states[0].lastSequence, spec.current)
    requires j <= n <= |events| && FlushedPart(events, n) <= j
    requires forall i :: 0 <= i < n ==> CrashSafe(states[i], events[i])
    ensures ReadsLike(All(states[n]), states[j].lastSequence, SpecRun(spec, events[..j]).current)
    decreases n
  {
    hide Inv, Next, CrashSafe, All, Visible, SpecRun, Stored, NoneAfter;
    if n == 0 {
      NothingRun(spec, events[..0]);
    } else {
      var st, ev, st' := states[n - 1], events[n - 1], states[n];
      assert Next(states[n - 1], events[n - 1], states[n - 1 + 1]);
      assert CrashSafe(states[n - 1], events[n - 1]);
      FlushedGrows(events, n);
      RunIsLayered(states, events, n - 1);
      if j == n {
        OlderMomentReads(states, events, spec, n - 1, n - 1);
        StepReadsNow(st, ev, st', SpecRun(spec, events[..n - 1]));
        assert events[..n][..n - 1] == events[..n - 1];
        SpecRunLast(spec, events[..n]);
      } else {
        var s := states[j].lastSequence;
        OlderMomentReads(states, events, spec, n - 1, j);
        SequencesGrow(states, events, j, n - 1);
        SequencesGrow(states, events, FlushedPart(events, n - 1), j);
        NoneAfterMore(Stored(st.version), states[FlushedPart(events, n - 1)].lastSequence, Stored(st.version), s);
        forall u ensures Visible(All(st'), u, s) == ReadOf(SpecRun(spec, events[..j]).current, u) {
          StepReadsSame(st, ev, st', u, s);
        }
      }
    }
  }

  lemma NothingRun(spec: Spec, events: seq<Event>)
    requires events == []
    ensures SpecRun(spec, events) == spec
  {
  }

  /** A crash behind n steps that loses every write behind the first j: the files and what is left of the memtables read
    like the map as it was behind these j steps, at any sequence number the recovery may go on from. */
  lemma CrashReadsLike(states: seq<State>, events: seq<Event>, spec: Spec, n: nat, j: nat, t: nat)
    requires Run(states, events) && Inv(states[0]) && ReadsLike(All(states[0]), states[0].lastSequence, spec.current)
    requires j <= n <= |events| && FlushedPart(events, n) <= j && states[j].lastSequence <= t
    requires forall i :: 0 <= i < n ==> CrashSafe(states[i], events[i])
    ensures ReadsLike(Left(states[n], states[j].lastSequence), t, SpecRun(spec, events[..j]).current)
  {
    hide Inv, Next, CrashSafe, All, Visible, Refines, Stored, NoneAfter;
    var st, s := states[n], states[j].lastSequence;
    OlderMomentReads(states, events, spec, n, j);
    RunIsLayered(states, events, n);
    SequencesGrow(states, events, FlushedPart(events, n), j);
    NoneAfterMore(Stored(st.version), states[FlushedPart(events, n)].lastSequence, Stored(st.version), s);
    LeftIsBelow(st, s);
    StateIsIdentified(st);
    forall u ensures Visible(Left(st, s), u, t) == ReadOf(SpecRun(spec, events[..j]).current, u) {
      BelowReads(All(st), u, s, t);
    }
  }

  // ---- the entries of one write ---------------------------------------------------------------------------

  /** The entries of one write behind sequence number last. */
  ghost function OpsEntries(ops: seq<Op>, last: nat): set<Entry> {
    set p | 0 <= p < |ops| && last + 1 + p <= MAX_SEQUENCE :: EntryOf(ops[p], last + 1 + p)
  }

  lemma {:induction false} WriteAddsOps(st: State, ops: seq<Op>)
    requires Inv(st) && st.lastSequence + |ops| < MAX_SEQUENCE
    ensures Elements(WriteAll(st, ops).mem) == Elements(st.mem) + OpsEntries(ops, st.lastSequence)
    decreases |ops|
  {
    hide MemInsert, Elements;
    if |ops| > 0 {
      var e, later := EntryOf(ops[0], st.lastSequence + 1), WriteOne(st, ops[0]);
      InsertIntoMem(st, e);
      WriteOneKeepsInv(st, ops[0]);
      WriteAddsOps(later, ops[1..]);
      FirstOp(ops, st.lastSequence);
    }
  }

  lemma InsertIntoMem(st: State, e: Entry)
    requires Inv(st) && st.lastSequence < e.key.sequence
    ensures Elements(MemInsert(st.mem, e)) == Elements(st.mem) + {e}
  {
    hide ValidVersion, Stored, NumbersBelow, Newer, MemInsert;
    LayersOfInv(st);
    forall x | x in st.mem ensures x.key.sequence < e.key.sequence {
      assert x in Elements(st.mem);
    }
    MemInsertIs(st.mem, e);
  }

  lemma FirstOp(ops: seq<Op>, last: nat)
    requires |ops| > 0 && last + |ops| <= MAX_SEQUENCE
    ensures OpsEntries(ops, last) == {EntryOf(ops[0], last + 1)} + OpsEntries(ops[1..], last + 1)
  {
    hide EntryOf;
    var rest := OpsEntries(ops[1..], last + 1);
    forall e | e in OpsEntries(ops, last) ensures e in {EntryOf(ops[0], last + 1)} + rest {
      var p :| 0 <= p < |ops| && last + 1 + p <= MAX_SEQUENCE && e == EntryOf(ops[p], last + 1 + p);
      if p > 0 {
        assert ops[1..][p - 1] == ops[p];
        assert e == EntryOf(ops[1..][p - 1], (last + 1) + 1 + (p - 1));
      }
    }
    forall e | e in rest ensures e in OpsEntries(ops, last) {
      var p :| 0 <= p < |ops[1..]| && (last + 1) + 1 + p <= MAX_SEQUENCE &&
        e == EntryOf(ops[1..][p], (last + 1) + 1 + p);
      assert e == EntryOf(ops[p + 1], last + 1 + (p + 1));
    }
    assert EntryOf(ops[0], last + 1 + 0) in OpsEntries(ops, last);
  }
}
