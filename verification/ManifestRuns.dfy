/** Every step of the database logs edits that the manifest can be replayed from: no level is ever given
  the same file number twice, because numbers are fresh and files only move down. */
module ManifestRuns {
  import opened Options
  import opened InternalKeys
  import opened Versions
  import opened Overlap
  import opened CompactionInputs
  import opened VersionEdits
  import opened ManifestReplay
  import opened Install
  import opened Compactions
  import opened SnapshotReads
  import opened Database

  /** The edit a step hands to LogAndApply, if it calls it. */
  function EditOf(st: State, ev: Event): Option<Edit> {
    match ev
    case Flush(level, size) =>
      Some(if |ImmEntries(st)| == 0 then Edit([], [])
           else Edit([], [(level, TableOf(ImmEntries(st), st.nextFile, size))]))
    case Compact(level, inputs0, inputs1, input, outputs) => Some(CompactionEdit(level, inputs0, inputs1, outputs))
    case Move(level, file) => Some(CompactionEdit(level, [file], [], [file]))
    case _ => None
  }

  /** used[l] holds every number level l was ever given; a file has never been below the level it is in. */
  ghost predicate UsedFits(v: Version, used: seq<set<nat>>, next: nat) {
    |v| == NUM_LEVELS && |used| == NUM_LEVELS &&
    (forall l :: 0 <= l < NUM_LEVELS ==> Numbers(v[l]) <= used[l]) &&
    (forall l, m :: 0 <= l < m < NUM_LEVELS ==> Numbers(v[l]) !! used[m]) &&
    (forall l, n :: 0 <= l < NUM_LEVELS && n in used[l] ==> n < next)
  }

  lemma AddsFreshAt(edit: Edit, used: seq<set<nat>>, level: nat, files: seq<File>)
    requires |used| == NUM_LEVELS && level < NUM_LEVELS && LevelsInRange(edit)
    requires edit.added == AdditionsOf(level, files) && ApartNumbers(files) && Numbers(files) !! used[level]
    ensures AddsFresh(edit, used)
    ensures UsedAfter(used, edit) == used[level := used[level] + Numbers(files)]
  {
    forall l | 0 <= l < NUM_LEVELS
      ensures AddsOnce(edit.added, l)
      ensures NumbersOf(AddedAt(edit.added, l)) == if l == level then Numbers(files) else {}
    {
      EditAt(level, files, l);
      assert NumbersOf(set f | f in files) == Numbers(files);
    }
    assert forall l :: 0 <= l < NUM_LEVELS ==>
      UsedAfter(used, edit)[l] == used[level := used[level] + Numbers(files)][l];
  }

  lemma CompactEditInRange(level: nat, inputs0: seq<File>, inputs1: seq<File>, outputs: seq<File>)
    requires level + 1 < NUM_LEVELS
    ensures LevelsInRange(CompactionEdit(level, inputs0, inputs1, outputs))
  {
  }

  lemma FitsAfterAdding(v: Version, used: seq<set<nat>>, next: nat, level: nat, files: seq<File>, v': Version,
                        next': nat)
    requires UsedFits(v, used, next) && level < NUM_LEVELS && |v'| == NUM_LEVELS && next <= next'
    requires forall n :: n in Numbers(files) ==> n < next'
    requires forall m :: level < m < NUM_LEVELS ==> Numbers(files) !! used[m]
    requires forall l :: 0 <= l < NUM_LEVELS ==>
      Numbers(v'[l]) <= Numbers(v[l]) + (if l == level then Numbers(files) else {})
    requires forall l :: 0 <= l < level ==> Numbers(v'[l]) !! Numbers(files)
    ensures UsedFits(v', used[level := used[level] + Numbers(files)], next')
  {
  }

  lemma FlushFits(st: State, level: nat, size: nat, st': State, used: seq<set<nat>>)
    requires Inv(st) && FlushStep(st, level, size, st') && |ImmEntries(st)| > 0 &&
      UsedFits(st.version, used, st.nextFile)
    ensures var edit := Edit([], [(level, TableOf(ImmEntries(st), st.nextFile, size))]);
      AddsFresh(edit, used) && UsedFits(st'.version, UsedAfter(used, edit), st'.nextFile)
  {
    hide LevelsValid, LevelsDisjoint, ShallowerIsNewer, NumberIsAge, UniqueNumbers, Ordered, Stored, Sorted;
    hide Placed, Newer, AddsFresh, UsedAfter, NoneAfter, SnapshotsOrdered;
    var f := TableOf(ImmEntries(st), st.nextFile, size);
    InstalledIsFlushed(st.version, level, f);
    var edit := Edit([], [(level, f)]);
    assert edit.added == AdditionsOf(level, [f]);
    assert Numbers([f]) == {st.nextFile};
    AddsFreshAt(edit, used, level, [f]);
    forall l | 0 <= l < NUM_LEVELS
      ensures Numbers(st'.version[l]) <= Numbers(st.version[l]) + (if l == level then Numbers([f]) else {})
    {
    }
    FitsAfterAdding(st.version, used, st.nextFile, level, [f], st'.version, st'.nextFile);
  }

  lemma CompactedNumbers(v: Version, level: nat, inputs0: seq<File>, inputs1: seq<File>, outputs: seq<File>,
                         v': Version, l: nat)
    requires Compacted(v, level, inputs0, inputs1, outputs, v') && l < |v|
    ensures Numbers(v'[l]) <= Numbers(v[l]) + (if l == level + 1 then Numbers(outputs) else {})
  {
  }

  lemma CompactFits(st: State, ev: Event, st': State, used: seq<set<nat>>)
    requires Inv(st) && ev.Compact? && Next(st, ev, st') && UsedFits(st.version, used, st.nextFile)
    ensures var edit := CompactionEdit(ev.level, ev.inputs0, ev.inputs1, ev.outputs);
      AddsFresh(edit, used) && UsedFits(st'.version, UsedAfter(used, edit), st'.nextFile)
  {
    hide Inv, Stored, Sorted, Survivors, FileEntries, Disjoint, ValidFiles, AddsFresh, UsedAfter, Compacted;
    hide DistinctNumbers, Upper, Hull, Selected, ValidVersion, Installed;
    var v, outputs := st.version, ev.outputs;
    CompactionStepRan(st, ev.level, ev.inputs0, ev.inputs1, ev.input, outputs, st');
    CompactEditInRangeOf(v, ev);
    assert forall n :: n in Numbers(outputs) ==> st.nextFile <= n < st'.nextFile;
    AddsFreshAt(CompactionEdit(ev.level, ev.inputs0, ev.inputs1, outputs), used, ev.level + 1, outputs);
    assert |st'.version| == |v| by { SameLevels(v, ev.level, ev.inputs0, ev.inputs1, outputs, st'.version); }
    forall l | 0 <= l < NUM_LEVELS
      ensures Numbers(st'.version[l]) <= Numbers(v[l]) + (if l == ev.level + 1 then Numbers(outputs) else {})
    {
      CompactedNumbers(v, ev.level, ev.inputs0, ev.inputs1, outputs, st'.version, l);
    }
    FitsAfterAdding(v, used, st.nextFile, ev.level + 1, outputs, st'.version, st'.nextFile);
  }

  lemma CompactEditInRangeOf(v: Version, ev: Event)
    requires |v| == NUM_LEVELS && ev.Compact? && Legal(v, ev.level, ev.inputs0, ev.inputs1)
    ensures ev.level + 1 < NUM_LEVELS
    ensures LevelsInRange(CompactionEdit(ev.level, ev.inputs0, ev.inputs1, ev.outputs))
  {
    CompactEditInRange(ev.level, ev.inputs0, ev.inputs1, ev.outputs);
  }

  lemma MoveFits(st: State, level: nat, file: File, st': State, used: seq<set<nat>>)
    requires Inv(st) && MoveStep(st, level, file, st') && UsedFits(st.version, used, st.nextFile)
    ensures var edit := CompactionEdit(level, [file], [], [file]);
      AddsFresh(edit, used) && UsedFits(st'.version, UsedAfter(used, edit), st'.nextFile)
  {
    hide Inv, Stored, Sorted, FileEntries, Disjoint, ValidFiles, AddsFresh, UsedAfter, Compacted, Upper, Hull;
    hide Selected, ValidVersion, Installed;
    var v := st.version;
    MoveIsCompacted(st, level, file, st');
    CompactEditInRange(level, [file], [], [file]);
    assert Numbers([file]) == {file.number} && file.number in Numbers(v[level]);
    AddsFreshAt(CompactionEdit(level, [file], [], [file]), used, level + 1, [file]);
    assert |st'.version| == |v| by { SameLevels(v, level, [file], [], [file], st'.version); }
    forall l | 0 <= l < NUM_LEVELS
      ensures Numbers(st'.version[l]) <= Numbers(v[l]) + (if l == level + 1 then Numbers([file]) else {})
    {
      CompactedNumbers(v, level, [file], [], [file], st'.version, l);
    }
    MovedLeaves(st, level, file, st');
    FitsAfterAdding(v, used, st.nextFile, level + 1, [file], st'.version, st'.nextFile);
  }

  lemma MovedLeaves(st: State, level: nat, file: File, st': State)
    requires Inv(st) && Compacted(st.version, level, [file], [], [file], st'.version) && file in st.version[level]
    ensures forall l :: 0 <= l < level + 1 ==> Numbers(st'.version[l]) !! Numbers([file])
  {
    hide LevelsValid, LevelsDisjoint, ShallowerIsNewer, NumberIsAge, Stored, Sorted, Newer, NoneAfter, NumbersBelow;
    var v := st.version;
    forall l, g | 0 <= l < level + 1 && g in st'.version[l] ensures g.number != file.number {
      assert g in v[l] && g.number in Numbers(v[l]) && file.number in Numbers(v[level]) && file in [file];
      assert DistinctNumbers(v[level]);
    }
  }

  lemma EmptyEditFits(v: Version, used: seq<set<nat>>, next: nat)
    requires UsedFits(v, used, next)
    ensures AddsFresh(Edit([], []), used) && UsedAfter(used, Edit([], [])) == used && UsedFits(v, used, next + 1)
  {
    forall l | 0 <= l < NUM_LEVELS ensures NumbersOf(AddedAt([], l)) == {} {
      assert AddedAt([], l) == {};
    }
    assert forall l :: 0 <= l < NUM_LEVELS ==> UsedAfter(used, Edit([], []))[l] == used[l];
  }

  /** Installing the empty edit changes nothing. */
  lemma EmptyEditInstalls(v: Version)
    requires ValidVersion(v) && Ordered(v[0])
    ensures Installed(v, Edit([], [])) == v
  {
    hide ValidVersion, Ordered, Saved, Applied;
    LevelsAreOrdered(v);
    forall l | 0 <= l < |v| ensures Saved(v[l], Applied(EMPTY, Edit([], []), l)) == v[l] {
      UntouchedLevel(v[l], Edit([], []), l);
    }
  }

  /** The edit of every step is new to every level it adds to, and installing it is the step. */
  lemma StepEditIsFresh(st: State, ev: Event, st': State, used: seq<set<nat>>)
    requires Inv(st) && Next(st, ev, st') && UsedFits(st.version, used, st.nextFile)
    ensures EditOf(st, ev).None? ==> st'.version == st.version && UsedFits(st'.version, used, st'.nextFile)
    ensures EditOf(st, ev).Some? ==>
      AddsFresh(EditOf(st, ev).value, used) && st'.version == Installed(st.version, EditOf(st, ev).value)
    ensures EditOf(st, ev).Some? ==> UsedFits(st'.version, UsedAfter(used, EditOf(st, ev).value), st'.nextFile)
  {
    hide Inv, AddsFresh, UsedAfter, UsedFits, Legal, Placed, Installed, Sorted, Survivors, FileEntries;
    hide Disjoint, ValidFiles;
    match ev
    case Flush(level, size) =>
      if |ImmEntries(st)| > 0 {
        FlushFits(st, level, size, st', used);
      } else {
        EmptyEditFits(st.version, used, st.nextFile);
        InvVersion(st);
        EmptyEditInstalls(st.version);
      }
    case Compact(_, _, _, _, _) => CompactFits(st, ev, st', used);
    case Move(level, file) => MoveFits(st, level, file, st', used);
    case Write(ops) => WriteKeepsVersion(st, ops);
    case Switch => EmptyEditFits(st.version, used, st.nextFile);
    case _ =>
  }

  lemma InvVersion(st: State)
    requires Inv(st)
    ensures ValidVersion(st.version) && Ordered(st.version[0]) && |st.version| == NUM_LEVELS
  {
  }

  lemma {:induction false} WriteKeepsVersion(st: State, ops: seq<Op>)
    requires st.lastSequence + |ops| <= MAX_SEQUENCE
    ensures WriteAll(st, ops).version == st.version && WriteAll(st, ops).nextFile == st.nextFile
    decreases |ops|
  {
    if |ops| > 0 {
      WriteKeepsVersion(WriteOne(st, ops[0]), ops[1..]);
    }
  }

  // ---- runs ----------------------------------------------------------------------------

  /** The manifest as the run writes it.  The counters play no part in the file lists. */
  function Logged(manifest: seq<Record>, states: seq<State>, events: seq<Event>): seq<Record>
    requires |states| == |events| + 1
    decreases |events|
  {
    if |events| == 0 then manifest
    else
      var more := match EditOf(states[0], events[0])
        case None => []
        case Some(edit) =>
          [Record(edit, Counters(Some(0), Some(0), Some(states[1].nextFile), Some(states[1].lastSequence)))];
      Logged(manifest + more, states[1..], events[1..])
  }

  ghost predicate Tracks(st: State, manifest: seq<Record>, used: seq<set<nat>>) {
    LeadsTo(manifest, st.version, used) && UsedFits(st.version, used, st.nextFile)
  }

  lemma StepTracks(st: State, ev: Event, st': State, manifest: seq<Record>, used: seq<set<nat>>, c: Counters)
      returns (used': seq<set<nat>>)
    requires Inv(st) && Next(st, ev, st') && Tracks(st, manifest, used)
    ensures Tracks(st', if EditOf(st, ev).Some? then manifest + [Record(EditOf(st, ev).value, c)] else manifest, used')
  {
    hide Inv, Next, LeadsTo, AddsFresh, UsedAfter, UsedFits, Installed, EditOf;
    StepEditIsFresh(st, ev, st', used);
    used' := used;
    if EditOf(st, ev).Some? {
      LogKeepsManifest(manifest, st.version, used, Record(EditOf(st, ev).value, c));
      assert |used| == NUM_LEVELS by { LeadsToLevels(manifest, st.version, used); }
      used' := UsedAfter(used, EditOf(st, ev).value);
    }
  }

  lemma LeadsToLevels(manifest: seq<Record>, v: Version, used: seq<set<nat>>)
    requires LeadsTo(manifest, v, used)
    ensures |used| == NUM_LEVELS && |v| == NUM_LEVELS
  {
  }

  /** After every run, replaying the manifest in one builder gives the version in memory. */
  lemma {:induction false} RunTracks(states: seq<State>, events: seq<Event>, manifest: seq<Record>, used: seq<set<nat>>)
      returns (used': seq<set<nat>>)
    requires |states| == |events| + 1 && (forall i :: 0 <= i < |events| ==> Next(states[i], events[i], states[i + 1]))
    requires Inv(states[0]) && Tracks(states[0], manifest, used)
    ensures Tracks(states[|events|], Logged(manifest, states, events), used')
    decreases |events|
  {
    hide Inv, Next, Tracks, EditOf;
    used' := used;
    if |events| > 0 {
      assert Next(states[0], events[0], states[1]);
      var c := Counters(Some(0), Some(0), Some(states[1].nextFile), Some(states[1].lastSequence));
      var edit := EditOf(states[0], events[0]);
      var mid := StepTracks(states[0], events[0], states[1], manifest, used, c);
      StepKeepsInv(states[0], events[0], states[1]);
      forall i | 0 <= i < |events[1..]| ensures Next(states[1..][i], events[1..][i], states[1..][i + 1]) {
        assert Next(states[i + 1], events[i + 1], states[i + 2]);
      }
      assert manifest + [] == manifest;
      used' := RunTracks(states[1..], events[1..],
                         if edit.Some? then manifest + [Record(edit.value, c)] else manifest, mid);
    }
  }
}
