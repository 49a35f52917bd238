/** Recovering a version from its manifest: VersionSet::LogAndApply, WriteSnapshot and Recover
  of db/version_set.cc.  Edits are values here; ManifestFile.dfy has the file they are
  written to. */
module ManifestReplay {
  import opened Options
  import opened InternalKeys
  import opened Versions
  import opened VersionEdits

  // ---- what one edit does to one level ----------------------------------------------

  ghost function DeletedAt(deleted: seq<(nat, nat)>, level: nat): set<nat> {
    set d | d in deleted && d.0 == level :: d.1
  }

  ghost function AddedAt(added: seq<(nat, File)>, level: nat): set<File> {
    set a | a in added && a.0 == level :: a.1
  }

  ghost function NumbersOf(files: set<File>): set<nat> {
    set f | f in files :: f.number
  }

  /** The edit adds no file number twice to the level. */
  ghost predicate AddsOnce(added: seq<(nat, File)>, level: nat) {
    forall i, j :: 0 <= i < j < |added| && added[i].0 == level && added[j].0 == level ==>
      added[i].1.number != added[j].1.number
  }

  lemma {:induction false} WithDeletedIs(st: LevelState, deleted: seq<(nat, nat)>, level: nat)
    ensures WithDeleted(st, deleted, level) == st.(deleted := st.deleted + DeletedAt(deleted, level))
  {
    if |deleted| > 0 {
      var n := |deleted| - 1;
      WithDeletedIs(st, deleted[..n], level);
      assert deleted == deleted[..n] + [deleted[n]];
      assert DeletedAt(deleted, level) ==
        DeletedAt(deleted[..n], level) + (if deleted[n].0 == level then {deleted[n].1} else {});
    }
  }

  lemma AddedAtLast(added: seq<(nat, File)>, level: nat)
    requires |added| > 0
    ensures var n := |added| - 1; var last := if added[n].0 == level then {added[n].1} else {};
      AddedAt(added, level) == AddedAt(added[..n], level) + last &&
      NumbersOf(AddedAt(added, level)) == NumbersOf(AddedAt(added[..n], level)) + NumbersOf(last)
  {
    var n := |added| - 1;
    assert added == added[..n] + [added[n]];
  }

  lemma {:induction false} WithAddedIs(st: LevelState, added: seq<(nat, File)>, level: nat)
    requires Ordered(st.added) && AddsOnce(added, level)
    requires NumbersOf(AddedAt(added, level)) !! Numbers(st.added)
    ensures var r := WithAdded(st, added, level);
      Ordered(r.added) && r.deleted == st.deleted - NumbersOf(AddedAt(added, level)) &&
      forall f :: f in r.added <==> f in st.added || f in AddedAt(added, level)
  {
    if |added| > 0 {
      var n := |added| - 1;
      AddedAtLast(added, level);
      WithAddedIs(st, added[..n], level);
      if added[n].0 == level {
        var before := WithAdded(st, added[..n], level);
        NewNumber(st, added, level, before.added);
        InsertOrders(before.added, added[n].1);
      }
    }
  }

  lemma NewNumber(st: LevelState, added: seq<(nat, File)>, level: nat, before: seq<File>)
    requires |added| > 0 && AddsOnce(added, level) && added[|added| - 1].0 == level
    requires NumbersOf(AddedAt(added, level)) !! Numbers(st.added)
    requires forall f :: f in before <==> f in st.added || f in AddedAt(added[..|added| - 1], level)
    ensures forall g :: g in before ==> g.number != added[|added| - 1].1.number
  {
    var n := |added| - 1;
    assert added[n] in added;
    assert added[n].1 in AddedAt(added, level);
    assert added[n].1.number in NumbersOf(AddedAt(added, level));
    forall g | g in before ensures g.number != added[n].1.number {
      if g in st.added {
        assert g.number in Numbers(st.added);
      } else {
        var i :| 0 <= i < n && added[i] == (level, g);
      }
    }
  }

  // ---- many edits ---------------------------------------------------------------------

  /** Builder::Apply for every edit, before any SaveTo. */
  function Replay(st: LevelState, edits: seq<Edit>, level: nat): LevelState
    decreases |edits|
  {
    if |edits| == 0 then st else Replay(Applied(st, edits[0], level), edits[1..], level)
  }

  /** A version after every edit, as a run of LogAndApply calls produced it. */
  function History(files: seq<File>, edits: seq<Edit>, level: nat): seq<File>
    decreases |edits|
  {
    if |edits| == 0 then files else History(Saved(files, Applied(EMPTY, edits[0], level)), edits[1..], level)
  }

  /** Each file number is added at most once to the level. */
  ghost predicate OnceOnly(used: set<nat>, edits: seq<Edit>, level: nat)
    decreases |edits|
  {
    |edits| == 0 ||
    (AddsOnce(edits[0].added, level) && NumbersOf(AddedAt(edits[0].added, level)) !! used &&
     OnceOnly(used + NumbersOf(AddedAt(edits[0].added, level)), edits[1..], level))
  }

  lemma AppliedIs(st: LevelState, edit: Edit, level: nat)
    requires Ordered(st.added) && AddsOnce(edit.added, level)
    requires NumbersOf(AddedAt(edit.added, level)) !! Numbers(st.added)
    ensures var r := Applied(st, edit, level);
      Ordered(r.added) &&
      r.deleted == st.deleted + DeletedAt(edit.deleted, level) - NumbersOf(AddedAt(edit.added, level)) &&
      forall f :: f in r.added <==> f in st.added || f in AddedAt(edit.added, level)
  {
    WithDeletedIs(st, edit.deleted, level);
    WithAddedIs(WithDeleted(st, edit.deleted, level), edit.added, level);
  }

  lemma StaysForeign(base: seq<File>, st: LevelState, edit: Edit, level: nat, r: LevelState)
    requires Foreign(base, st.added)
    requires NumbersOf(AddedAt(edit.added, level)) !! Numbers(base)
    requires forall f :: f in r.added <==> f in st.added || f in AddedAt(edit.added, level)
    ensures Foreign(base, r.added)
  {
    forall f, g | f in base && g in r.added ensures f.number != g.number {
      assert f.number in Numbers(base);
      if g in AddedAt(edit.added, level) {
        assert g.number in NumbersOf(AddedAt(edit.added, level));
      }
    }
  }

  /** One more edit in the builder is one more version. */
  lemma ApplyThenSave(base: seq<File>, st: LevelState, edit: Edit, level: nat)
    requires Ordered(base) && Ordered(st.added) && Foreign(base, st.added) && AddsOnce(edit.added, level)
    requires NumbersOf(AddedAt(edit.added, level)) !! Numbers(base) + Numbers(st.added)
    ensures Saved(base, Applied(st, edit, level)) == Saved(Saved(base, st), Applied(EMPTY, edit, level))
  {
    hide Saved, Applied, Ordered, Foreign, AddsOnce;
    var now, later := Applied(st, edit, level), Applied(EMPTY, edit, level);
    var middle := Saved(base, st);
    EmptyIsOrdered();
    AppliedIs(st, edit, level);
    AppliedIs(EMPTY, edit, level);
    SavedIs(base, st);
    StaysForeign(base, st, edit, level, now);
    SavedIs(base, now);
    MiddleNumbers(base, st, middle);
    EmptyIsForeign(middle);
    StaysForeign(middle, EMPTY, edit, level, later);
    SavedIs(middle, later);
    SameSurvivors(base, st, edit, level, middle, now, later);
    OrderedIsUnique(Saved(base, now), Saved(middle, later));
  }

  lemma EmptyIsOrdered()
    ensures Ordered(EMPTY.added)
  {
  }

  lemma EmptyIsForeign(files: seq<File>)
    ensures Foreign(files, EMPTY.added)
  {
  }

  lemma MiddleNumbers(base: seq<File>, st: LevelState, middle: seq<File>)
    requires forall f :: f in middle <==> (f in base || f in st.added) && f.number !in st.deleted
    ensures Numbers(middle) <= Numbers(base) + Numbers(st.added)
  {
  }

  lemma SameSurvivors(base: seq<File>, st: LevelState, edit: Edit, level: nat, middle: seq<File>, now: LevelState,
                      later: LevelState)
    requires NumbersOf(AddedAt(edit.added, level)) !! Numbers(base) + Numbers(st.added)
    requires forall f :: f in middle <==> (f in base || f in st.added) && f.number !in st.deleted
    requires now.deleted == st.deleted + DeletedAt(edit.deleted, level) - NumbersOf(AddedAt(edit.added, level))
    requires later.deleted == {} + DeletedAt(edit.deleted, level) - NumbersOf(AddedAt(edit.added, level))
    requires forall f :: f in now.added <==> f in st.added || f in AddedAt(edit.added, level)
    requires forall f :: f in later.added <==> f in AddedAt(edit.added, level)
    ensures forall f :: ((f in base || f in now.added) && f.number !in now.deleted) <==>
                        ((f in middle || f in later.added) && f.number !in later.deleted)
  {
    hide DeletedAt, AddedAt;
    forall f | f in base || f in st.added ensures f.number !in NumbersOf(AddedAt(edit.added, level)) {
      assert f.number in Numbers(base) + Numbers(st.added);
    }
    forall f | f in AddedAt(edit.added, level) ensures f.number in NumbersOf(AddedAt(edit.added, level)) {
    }
  }

  /** Replaying edits in one builder gives the version that applying them one at a time gave. */
  lemma {:induction false} ReplayIsHistory(base: seq<File>, st: LevelState, edits: seq<Edit>, level: nat,
                                           used: set<nat>)
    requires Ordered(base) && Ordered(st.added) && Foreign(base, st.added)
    requires Numbers(base) + Numbers(st.added) <= used && OnceOnly(used, edits, level)
    ensures Saved(base, Replay(st, edits, level)) == History(Saved(base, st), edits, level)
    decreases |edits|
  {
    hide Saved, Applied, Ordered, Foreign, AddsOnce;
    if |edits| > 0 {
      var edit := edits[0];
      var now := Applied(st, edit, level);
      ApplyThenSave(base, st, edit, level);
      AppliedIs(st, edit, level);
      StaysForeign(base, st, edit, level, now);
      assert Numbers(now.added) <= Numbers(st.added) + NumbersOf(AddedAt(edit.added, level));
      ReplayIsHistory(base, now, edits[1..], level, used + NumbersOf(AddedAt(edit.added, level)));
    }
  }

  /** Why a number may be added only once: deleting a file and adding it again leaves it once when
      the edits are applied one at a time and twice when they are replayed together. */
  lemma ReAddingBreaksReplay(f: File)
    ensures var base := [f];
      var edits := [Edit([(0, f.number)], []), Edit([], [(0, f)])];
      History(base, edits, 0) == [f] && Saved(base, Replay(EMPTY, edits, 0)) == [f, f]
  {
    var base := [f];
    var remove, add := Edit([(0, f.number)], []), Edit([], [(0, f)]);
    var edits := [remove, add];
    assert edits[1..] == [add] && [add][1..] == [];
    ApplyOne(EMPTY, f);
    ApplyOne(LevelState({f.number}, []), f);
    assert EMPTY.deleted + {f.number} == {f.number} && EMPTY.deleted - {f.number} == {} &&
      {f.number} - {f.number} == {};
    hide Applied;
    MergedPairs(f);
    KeptNothing(f);
    assert Saved(base, LevelState({f.number}, [])) == [] && Saved([], LevelState({}, [f])) == [f];
    assert History([f], [], 0) == [f] && History([], [add], 0) == [f];
    assert Replay(LevelState({f.number}, []), [add], 0) == LevelState({}, [f]);
  }

  lemma MergedPairs(f: File)
    ensures Insert([], f) == [f] && Merged([f], []) == [f] && Merged([], [f]) == [f] && Merged([f], [f]) == [f, f]
  {
    assert [f][1..] == [];
  }

  lemma ApplyOne(st: LevelState, f: File)
    ensures Applied(st, Edit([(0, f.number)], []), 0) == LevelState(st.deleted + {f.number}, st.added)
    ensures Applied(st, Edit([], [(0, f)]), 0) == LevelState(st.deleted - {f.number}, Insert(st.added, f))
  {
    assert [(0, f.number)][..0] == [] && [(0, f)][..0] == [];
    assert WithDeleted(st, [(0, f.number)], 0) == LevelState(st.deleted + {f.number}, st.added);
    assert WithAdded(st, [(0, f)], 0) == LevelState(st.deleted - {f.number}, Insert(st.added, f));
  }

  lemma KeptNothing(f: File)
    ensures Kept([f], {f.number}) == [] && Kept([f], {}) == [f] && Kept([f, f], {}) == [f, f]
  {
    assert [f, f][..1] == [f] && [f][..0] == [];
  }

  // ---- the version set ------------------------------------------------------------------

  /** The four counters an edit may carry. */
  datatype Counters = Counters(logNumber: Option<nat>, prevLogNumber: Option<nat>, nextFile: Option<nat>,
                               lastSequence: Option<nat>)

  /** One record of the manifest. */
  datatype Record = Record(edit: Edit, counters: Counters)

  datatype Recovery =
    | Recovered(version: Version, logNumber: nat, prevLogNumber: nat, nextFile: nat, lastSequence: nat)
    | Corruption(reason: string)
    | InvalidArgument(reason: string)

  const NONE := Counters(None, None, None, None)

  function Later(earlier: Option<nat>, recorded: Option<nat>): Option<nat> {
    if recorded.Some? then recorded else earlier
  }

  /** The counters after a manifest: each the last one recorded. */
  function LastCounters(manifest: seq<Record>): Counters {
    if |manifest| == 0 then NONE
    else
      var before := LastCounters(manifest[..|manifest| - 1]);
      var c := manifest[|manifest| - 1].counters;
      Counters(Later(before.logNumber, c.logNumber), Later(before.prevLogNumber, c.prevLogNumber),
               Later(before.nextFile, c.nextFile), Later(before.lastSequence, c.lastSequence))
  }

  ghost function RecoverySpec(manifest: seq<Record>): Recovery {
    var c := LastCounters(manifest);
    if c.nextFile.None? then Corruption("no meta-nextfile entry in descriptor")
    else if c.logNumber.None? then Corruption("no meta-lognumber entry in descriptor")
    else if c.lastSequence.None? then Corruption("no last-sequence-number entry in descriptor")
    else Recovered(seq(NUM_LEVELS, l requires 0 <= l < NUM_LEVELS => Saved([], Replay(EMPTY, EditsOf(manifest), l))),
                   c.logNumber.value, if c.prevLogNumber.Some? then c.prevLogNumber.value else 0,
                   c.nextFile.value, c.lastSequence.value)
  }

  function EditsOf(manifest: seq<Record>): (e: seq<Edit>)
    ensures |e| == |manifest| && forall i :: 0 <= i < |e| ==> e[i] == manifest[i].edit
  {
    seq(|manifest|, i requires 0 <= i < |manifest| => manifest[i].edit)
  }

  /** The files of every level, in order: WriteSnapshot. */
  function SnapshotFiles(v: Version, levels: nat): seq<(nat, File)>
    requires levels <= |v|
  {
    if levels == 0 then []
    else
      SnapshotFiles(v, levels - 1) +
      seq(|v[levels - 1]|, i requires 0 <= i < |v[levels - 1]| => (levels - 1, v[levels - 1][i]))
  }

  method WriteSnapshot(v: Version) returns (edit: Edit)
    ensures edit == Edit([], SnapshotFiles(v, |v|))
  {
    var added := [];
    for level := 0 to |v|
      invariant added == SnapshotFiles(v, level)
    {
      var files := v[level];
      ghost var before := added;
      for i := 0 to |files|
        invariant added == before + seq(i, j requires 0 <= j < i => (level, files[j]))
      {
        added := added + [(level, files[i])];
      }
    }
    edit := Edit([], added);
  }

  lemma {:induction false} SnapshotHolds(v: Version, levels: nat, l: nat)
    requires levels <= |v|
    ensures forall i :: 0 <= i < |SnapshotFiles(v, levels)| ==> SnapshotFiles(v, levels)[i].0 < levels
    ensures AddedAt(SnapshotFiles(v, levels), l) == if l < levels then set f | f in v[l] else {}
    ensures l < |v| && (forall i, j :: 0 <= i < j < |v[l]| ==> v[l][i].number != v[l][j].number) ==>
      AddsOnce(SnapshotFiles(v, levels), l)
  {
    if levels > 0 {
      SnapshotHolds(v, levels - 1, l);
      var front := SnapshotFiles(v, levels - 1);
      var back := seq(|v[levels - 1]|, i requires 0 <= i < |v[levels - 1]| => (levels - 1, v[levels - 1][i]));
      assert forall a :: a in front + back <==> a in front || a in back;
      assert AddedAt(front + back, l) == AddedAt(front, l) + AddedAt(back, l);
      if l == levels - 1 {
        forall f | f in v[l] ensures f in AddedAt(back, l) {
          var i :| 0 <= i < |v[l]| && v[l][i] == f;
          assert back[i] in back;
        }
      }
    }
  }

  lemma {:induction false} ReplayAppend(st: LevelState, edits: seq<Edit>, e: Edit, level: nat)
    ensures Replay(st, edits + [e], level) == Applied(Replay(st, edits, level), e, level)
    decreases |edits|
  {
    if |edits| == 0 {
      assert edits + [e] == [e] && [e][1..] == [];
    } else {
      assert (edits + [e])[1..] == edits[1..] + [e];
      ReplayAppend(Applied(st, edits[0], level), edits[1..], e, level);
    }
  }

  ghost predicate LevelsInRange(edit: Edit) {
    (forall i :: 0 <= i < |edit.deleted| ==> edit.deleted[i].0 < NUM_LEVELS) &&
    (forall i :: 0 <= i < |edit.added| ==> edit.added[i].0 < NUM_LEVELS)
  }

  // ---- the manifest always leads back to the current version ---------------------------

  /** Replaying the manifest gives the version, and no number outside used was ever added. */
  ghost predicate LeadsTo(manifest: seq<Record>, v: Version, used: seq<set<nat>>) {
    |v| == NUM_LEVELS && |used| == NUM_LEVELS &&
    forall l :: 0 <= l < NUM_LEVELS ==> LevelLeadsTo(Replay(EMPTY, EditsOf(manifest), l), v[l], used[l])
  }

  ghost predicate LevelLeadsTo(st: LevelState, files: seq<File>, used: set<nat>) {
    Saved([], st) == files && Ordered(st.added) && Numbers(st.added) <= used
  }

  ghost predicate Stocked(v: Version, used: seq<set<nat>>) {
    |v| == NUM_LEVELS && |used| == NUM_LEVELS &&
    forall l :: 0 <= l < NUM_LEVELS ==> Ordered(v[l]) && ApartNumbers(v[l]) && Numbers(v[l]) <= used[l]
  }

  ghost predicate ApartNumbers(files: seq<File>) {
    forall i, j :: 0 <= i < j < |files| ==> files[i].number != files[j].number
  }

  /** The edit adds to each level only numbers that level never saw, each once. */
  ghost predicate AddsFresh(edit: Edit, used: seq<set<nat>>) {
    |used| == NUM_LEVELS && LevelsInRange(edit) &&
    forall l :: 0 <= l < NUM_LEVELS ==> AddsOnce(edit.added, l) && NumbersOf(AddedAt(edit.added, l)) !! used[l]
  }

  ghost function UsedAfter(used: seq<set<nat>>, edit: Edit): seq<set<nat>>
    requires |used| == NUM_LEVELS
  {
    seq(NUM_LEVELS, l requires 0 <= l < NUM_LEVELS => used[l] + NumbersOf(AddedAt(edit.added, l)))
  }

  lemma LevelStepLeads(st: LevelState, files: seq<File>, used: set<nat>, edit: Edit, level: nat)
    requires LevelLeadsTo(st, files, used) && AddsOnce(edit.added, level) &&
      NumbersOf(AddedAt(edit.added, level)) !! used
    ensures LevelLeadsTo(Applied(st, edit, level), Saved(files, Applied(EMPTY, edit, level)),
                         used + NumbersOf(AddedAt(edit.added, level)))
  {
    EmptyIsOrdered();
    assert Numbers([]) == {};
    assert Foreign([], st.added);
    ApplyThenSave([], st, edit, level);
    AppliedIs(st, edit, level);
    AddedNumbersAreUsed(st, edit, level, used);
  }

  lemma AddedNumbersAreUsed(st: LevelState, edit: Edit, level: nat, used: set<nat>)
    requires Numbers(st.added) <= used
    requires forall f :: f in Applied(st, edit, level).added <==> f in st.added || f in AddedAt(edit.added, level)
    ensures Numbers(Applied(st, edit, level).added) <= used + NumbersOf(AddedAt(edit.added, level))
  {
    hide Applied, AddedAt;
    forall f | f in Applied(st, edit, level).added ensures f.number in used + NumbersOf(AddedAt(edit.added, level)) {
      if f in st.added {
        assert f.number in Numbers(st.added);
      }
    }
  }

  /** Logging an edit and installing it keeps the manifest in step with the current version. */
  lemma LogKeepsManifest(manifest: seq<Record>, v: Version, used: seq<set<nat>>, record: Record)
    requires LeadsTo(manifest, v, used) && AddsFresh(record.edit, used)
    ensures LeadsTo(manifest + [record], Installed(v, record.edit), UsedAfter(used, record.edit))
  {
    hide LevelLeadsTo, AddsOnce, Saved, Applied;
    assert EditsOf(manifest + [record]) == EditsOf(manifest) + [record.edit];
    forall l | 0 <= l < NUM_LEVELS
      ensures LevelLeadsTo(Replay(EMPTY, EditsOf(manifest + [record]), l), Installed(v, record.edit)[l],
                           UsedAfter(used, record.edit)[l])
    {
      ReplayAppend(EMPTY, EditsOf(manifest), record.edit, l);
      LevelStepLeads(Replay(EMPTY, EditsOf(manifest), l), v[l], used[l], record.edit, l);
    }
  }

  /** A manifest that holds one snapshot leads to the version the snapshot was taken of. */
  lemma SnapshotLeads(v: Version, used: seq<set<nat>>, record: Record)
    requires Stocked(v, used) && record.edit == Edit([], SnapshotFiles(v, NUM_LEVELS))
    ensures LeadsTo([record], v, used)
  {
    hide SnapshotFiles, AddedAt, AddsOnce, Saved, Applied, Ordered;
    assert EditsOf([record]) == [] + [record.edit];
    forall l | 0 <= l < NUM_LEVELS ensures LevelLeadsTo(Replay(EMPTY, EditsOf([record]), l), v[l], used[l]) {
      ReplayAppend(EMPTY, [], record.edit, l);
      SnapshotHolds(v, NUM_LEVELS, l);
      EmptyIsOrdered();
      SnapshotLevel(v[l], used[l], record.edit, l);
    }
  }

  lemma SnapshotLevel(files: seq<File>, used: set<nat>, edit: Edit, l: nat)
    requires Ordered(files) && Numbers(files) <= used && edit.deleted == [] && AddsOnce(edit.added, l)
    requires AddedAt(edit.added, l) == set f | f in files
    ensures LevelLeadsTo(Applied(EMPTY, edit, l), files, used)
  {
    EmptyIsOrdered();
    AppliedIs(EMPTY, edit, l);
    var st := Applied(EMPTY, edit, l);
    assert DeletedAt([], l) == {};
    SavedIs([], st);
    OrderedIsUnique(Saved([], st), files);
  }

  /** So recovery rebuilds exactly what was in memory. */
  lemma RecoveryIsCurrent(manifest: seq<Record>, v: Version, used: seq<set<nat>>)
    requires LeadsTo(manifest, v, used) && |manifest| > 0
    requires var c := manifest[|manifest| - 1].counters;
      c.logNumber.Some? && c.prevLogNumber.Some? && c.nextFile.Some? && c.lastSequence.Some?
    ensures var c := manifest[|manifest| - 1].counters;
      RecoverySpec(manifest) ==
      Recovered(v, c.logNumber.value, c.prevLogNumber.value, c.nextFile.value, c.lastSequence.value)
  {
    hide Replay, Saved;
    assert seq(NUM_LEVELS, l requires 0 <= l < NUM_LEVELS => Saved([], Replay(EMPTY, EditsOf(manifest), l))) == v;
  }

  /** Counters that name the two logs, and the rest. */
  ghost predicate SaysLogs(c: Counters, logNumber: nat, prevLogNumber: nat) {
    c.logNumber == Some(logNumber) && c.prevLogNumber == Some(prevLogNumber) && c.nextFile.Some? &&
    c.lastSequence.Some?
  }

  /** The part of VersionSet that LogAndApply touches. */
  class VersionSet {
    var current: Version
    var nextFileNumber: nat
    var lastSequence: SequenceNumber
    var logNumber: nat
    var prevLogNumber: nat
    /** The manifest log; None until the first LogAndApply opens it. */
    var manifest: Option<seq<Record>>
    /** The file numbers each level has ever been given. */
    ghost var used: seq<set<nat>>

    ghost predicate Valid()
      reads this
    {
      |current| == NUM_LEVELS && |used| == NUM_LEVELS &&
      (manifest.None? ==> Stocked(current, used)) &&
      (manifest.Some? ==>
        LeadsTo(manifest.value, current, used) && |manifest.value| > 0 &&
        SaysLogs(manifest.value[|manifest.value| - 1].counters, logNumber, prevLogNumber))
    }

    constructor ()
      ensures Valid() && current == seq(NUM_LEVELS, i => []) && manifest == None
      ensures used == seq(NUM_LEVELS, i => {}) && nextFileNumber == 2 && lastSequence == 0
      ensures logNumber == 0 && prevLogNumber == 0
    {
      current := seq(NUM_LEVELS, i => []);
      nextFileNumber, lastSequence, logNumber, prevLogNumber := 2, 0, 0, 0;
      manifest := None;
      used := seq(NUM_LEVELS, i => {});
    }

    /** What VersionSet::Recover found in a manifest: file numbers go on from one past the recorded one. */
    constructor Reopened(r: Recovery, ghost numbers: seq<set<nat>>)
      requires r.Recovered? && r.lastSequence <= MAX_SEQUENCE && Stocked(r.version, numbers)
      ensures Valid() && current == r.version && manifest == None && used == numbers
      ensures nextFileNumber == r.nextFile + 1 && lastSequence == r.lastSequence && logNumber == r.logNumber
      ensures prevLogNumber == r.prevLogNumber
    {
      current := r.version;
      nextFileNumber, lastSequence, logNumber, prevLogNumber := r.nextFile + 1, r.lastSequence, r.logNumber,
        r.prevLogNumber;
      manifest := None;
      used := numbers;
    }

    /** Numbers up to this one are taken. */
    method MarkFileNumberUsed(number: nat)
      requires Valid()
      modifies this`nextFileNumber
      ensures Valid() && nextFileNumber == if old(nextFileNumber) <= number then number + 1 else old(nextFileNumber)
    {
      if nextFileNumber <= number {
        nextFileNumber := number + 1;
      }
    }

    method NewFileNumber() returns (n: nat)
      requires Valid()
      modifies this`nextFileNumber
      ensures Valid() && n == old(nextFileNumber) && nextFileNumber == n + 1
    {
      n := nextFileNumber;
      nextFileNumber := nextFileNumber + 1;
    }

    method SetLastSequence(s: SequenceNumber)
      requires Valid() && lastSequence <= s
      modifies this`lastSequence
      ensures Valid() && lastSequence == s
    {
      lastSequence := s;
    }

    /** Builds the new version, opens the manifest with a snapshot if need be, logs, installs. */
    method LogAndApply(edit: Edit, newLogNumber: Option<nat>, newPrevLogNumber: Option<nat>)
      requires Valid() && AddsFresh(edit, used)
      requires newLogNumber.Some? ==> logNumber <= newLogNumber.value < nextFileNumber
      modifies this
      ensures Valid() && current == Installed(old(current), edit) && used == UsedAfter(old(used), edit)
      ensures logNumber == (if newLogNumber.Some? then newLogNumber.value else old(logNumber))
      ensures prevLogNumber == (if newPrevLogNumber.Some? then newPrevLogNumber.value else old(prevLogNumber))
      ensures nextFileNumber == old(nextFileNumber) && lastSequence == old(lastSequence)
      ensures manifest ==
        Some((if old(manifest).Some? then old(manifest).value
              else [Record(Edit([], SnapshotFiles(old(current), NUM_LEVELS)), NONE)]) +
        [Record(edit, Counters(Some(logNumber), Some(prevLogNumber), Some(nextFileNumber), Some(lastSequence)))])
      ensures RecoverySpec(manifest.value) == Recovered(current, logNumber, prevLogNumber, nextFileNumber, lastSequence)
    {
      hide LeadsTo, Stocked, RecoverySpec, Saved, Applied;
      var log := if newLogNumber.Some? then newLogNumber.value else logNumber;
      var prev := if newPrevLogNumber.Some? then newPrevLogNumber.value else prevLogNumber;
      var record := Record(edit, Counters(Some(log), Some(prev), Some(nextFileNumber), Some(lastSequence)));
      var builder := new Builder(current);
      builder.Apply(edit);
      var v := builder.SaveTo();
      if manifest.None? {
        var snapshot := WriteSnapshot(current);
        manifest := Some([Record(snapshot, NONE)]);
        SnapshotLeads(current, used, Record(snapshot, NONE));
      }
      LogKeepsManifest(manifest.value, current, used, record);
      manifest := Some(manifest.value + [record]);
      assert v == Installed(current, edit);
      current, logNumber, prevLogNumber := v, log, prev;
      used := UsedAfter(used, edit);
      RecoveryIsCurrent(manifest.value, current, used);
    }
  }
}
