/** What a crash leaves of a run of the database: the manifest its steps wrote, cut off anywhere, leads back to a
  version the run went through. */
module RunRecovery {
  import opened Options
  import opened Coding
  import opened InternalKeys
  import opened Versions
  import opened VersionEdits
  import opened ManifestReplay
  import opened ManifestRuns
  import opened CompactionInputs
  import opened Compactions
  import opened Install
  import opened Database
  import opened MapRefinement
  import opened ManifestFile
  import Log

  const NO_NUMBERS: seq<set<nat>> := [{}, {}, {}, {}, {}, {}, {}]

  /** The manifest a run starts with: it leads to the version and the counters of its first state. */
  ghost predicate Opens(first: seq<Record>, st: State) {
    |first| > 0 && (exists used :: Tracks(st, first, used)) && FoundAgain(RecoverySpec(first), st)
  }

  /** Recovery found the files, the next file number and the last sequence number of the state. */
  ghost predicate FoundAgain(r: Recovery, st: State) {
    r.Recovered? && r.version == st.version && r.nextFile == st.nextFile && r.lastSequence == st.lastSequence
  }

  /** The record DBImpl::NewDB starts a manifest with. */
  function NewDb(next: nat): Record {
    Record(Edit([], []), Counters(Some(0), None, Some(next), Some(0)))
  }

  lemma NewDbOpens(next: nat)
    ensures Opens([NewDb(next)], START.(nextFile := next))
  {
    hide Saved, Ordered, Replay;
    var v, first := START.version, [NewDb(next)];
    EmptyIsOrdered();
    NothingSaved();
    forall l | 0 <= l < NUM_LEVELS ensures Replay(EMPTY, EditsOf(first), l) == EMPTY {
      OneEmptyEdit(EditsOf(first), l);
    }
    assert Tracks(START.(nextFile := next), first, NO_NUMBERS);
    assert first[..0] == [];
    assert LastCounters(first[..0]) == NONE;
    assert seq(NUM_LEVELS, l requires 0 <= l < NUM_LEVELS => Saved([], Replay(EMPTY, EditsOf(first), l))) == v;
  }

  lemma OneEmptyEdit(edits: seq<Edit>, level: nat)
    requires edits == [Edit([], [])]
    ensures Replay(EMPTY, edits, level) == EMPTY
  {
    assert edits[1..] == [];
  }

  lemma NothingSaved()
    ensures Saved([], EMPTY) == []
  {
  }

  // ---- the manifest after the first k steps --------------------------------------------------------

  function LoggedBefore(first: seq<Record>, states: seq<State>, events: seq<Event>, k: nat): seq<Record>
    requires |states| == |events| + 1 && k <= |events|
  {
    Logged(first, states[..k + 1], events[..k])
  }

  function RecordAt(states: seq<State>, events: seq<Event>, k: nat): seq<Record>
    requires |states| == |events| + 1 && k < |events|
  {
    match EditOf(states[k], events[k])
    case None => []
    case Some(edit) =>
      [Record(edit, Counters(Some(0), Some(0), Some(states[k + 1].nextFile), Some(states[k + 1].lastSequence)))]
  }

  lemma {:induction false} LoggedSnoc(manifest: seq<Record>, states: seq<State>, events: seq<Event>)
    requires |states| == |events| + 1 && |events| > 0
    ensures var n := |events| - 1;
      Logged(manifest, states, events) == Logged(manifest, states[..n + 1], events[..n]) + RecordAt(states, events, n)
    decreases |events|
  {
    hide EditOf;
    var n := |events| - 1;
    var more := RecordAt(states, events, 0);
    if n == 0 {
      assert states[1..] == [states[1]] && events[1..] == [] && events[..0] == [];
    } else {
      LoggedSnoc(manifest + more, states[1..], events[1..]);
      assert states[1..][..n] == states[..n + 1][1..] && events[1..][..n - 1] == events[..n][1..];
      assert RecordAt(states[1..], events[1..], n - 1) == RecordAt(states, events, n);
    }
  }

  lemma LoggedStep(first: seq<Record>, states: seq<State>, events: seq<Event>, k: nat)
    requires |states| == |events| + 1 && k < |events|
    ensures LoggedBefore(first, states, events, k + 1) ==
      LoggedBefore(first, states, events, k) + RecordAt(states, events, k)
  {
    hide Logged, EditOf;
    LoggedSnoc(first, states[..k + 2], events[..k + 1]);
    assert states[..k + 2][..k + 1] == states[..k + 1] && events[..k + 1][..k] == events[..k];
  }

  /** State k is the start, or a step that logs an edit leads to it. */
  predicate JustLogged(states: seq<State>, events: seq<Event>, k: nat)
    requires |states| == |events| + 1 && k <= |events|
  {
    k > 0 ==> EditOf(states[k - 1], events[k - 1]).Some?
  }

  /** Every part of the manifest is the manifest as it was behind some step that logged. */
  lemma {:induction false} PartIsMoment(first: seq<Record>, states: seq<State>, events: seq<Event>, n: nat, m: nat)
      returns (k: nat)
    requires |states| == |events| + 1 && n <= |events| && |first| <= m <= |LoggedBefore(first, states, events, n)|
    ensures k <= n && LoggedBefore(first, states, events, k) == LoggedBefore(first, states, events, n)[..m]
    ensures JustLogged(states, events, k)
    decreases n
  {
    hide Logged, EditOf, RecordAt;
    k := n;
    if n > 0 {
      LoggedStep(first, states, events, n - 1);
      OneRecordAtMost(states, events, n - 1);
      if m <= |LoggedBefore(first, states, events, n - 1)| {
        k := PartIsMoment(first, states, events, n - 1, m);
      }
    } else {
      OnlyFirst(first, states, events);
    }
  }

  lemma OneRecordAtMost(states: seq<State>, events: seq<Event>, k: nat)
    requires |states| == |events| + 1 && k < |events|
    ensures |RecordAt(states, events, k)| == if EditOf(states[k], events[k]).Some? then 1 else 0
  {
    hide EditOf;
  }

  lemma OnlyFirst(first: seq<Record>, states: seq<State>, events: seq<Event>)
    requires |states| == |events| + 1
    ensures LoggedBefore(first, states, events, 0) == first
  {
  }

  // ---- a moment of the run, found again ----------------------------------------------------------

  lemma PartOfRun(states: seq<State>, events: seq<Event>, k: nat)
    requires Run(states, events) && k <= |events|
    ensures Run(states[..k + 1], events[..k])
  {
    hide Next;
    forall i | 0 <= i < k ensures Next(states[..k + 1][i], events[..k][i], states[..k + 1][i + 1]) {
      assert Next(states[i], events[i], states[i + 1]);
    }
  }

  /** What the manifest says behind a step that logged is what was in memory then. */
  lemma MomentRecovers(first: seq<Record>, states: seq<State>, events: seq<Event>, k: nat)
    requires Run(states, events) && Inv(states[0]) && Opens(first, states[0])
    requires k <= |events| && JustLogged(states, events, k)
    ensures FoundAgain(RecoverySpec(LoggedBefore(first, states, events, k)), states[k])
  {
    hide Inv, Logged, EditOf, RecoverySpec, LeadsTo, UsedFits, Next;
    if k == 0 {
      OnlyFirst(first, states, events);
    } else {
      var used :| Tracks(states[0], first, used);
      PartOfRun(states, events, k);
      var used' := RunTracks(states[..k + 1], events[..k], first, used);
      LoggedStep(first, states, events, k - 1);
      var manifest := LoggedBefore(first, states, events, k);
      RecoveryIsCurrent(manifest, states[k].version, used');
    }
  }

  // ---- the tables the manifest names -----------------------------------------------------------------

  /** The disk holds the tables of every record and of the version, all with numbers that are used up. */
  ghost predicate Matches(disk: Disk, manifest: seq<Record>, v: Version, next: nat) {
    (forall i, a :: 0 <= i < |manifest| && a in manifest[i].edit.added ==>
     a.1.number < next && disk(a.1.number) == a.1.entries) &&
    forall l, f :: 0 <= l < |v| && f in v[l] ==> f.number < next && disk(f.number) == f.entries
  }

  ghost function TableAt(disk: Disk, files: seq<File>, n: nat): seq<Entry> {
    if exists f :: f in files && f.number == n then
      var f :| f in files && f.number == n;
      f.entries
    else disk(n)
  }

  /** New tables under new numbers. */
  lemma AddTables(disk: Disk, next: nat, files: seq<File>) returns (disk': Disk)
    requires DistinctNumbers(files) && forall f :: f in files ==> next <= f.number
    ensures forall f :: f in files ==> disk'(f.number) == f.entries
    ensures forall n: nat :: n < next ==> disk'(n) == disk(n)
  {
    disk' := (n: nat) => TableAt(disk, files, n);
    forall f | f in files ensures TableAt(disk, files, f.number) == f.entries {
      var g :| g in files && g.number == f.number && TableAt(disk, files, f.number) == g.entries;
    }
  }

  /** The files a step adds: tables it made, under numbers taken in this step, or a file it moves. */
  function Made(st: State, ev: Event): seq<File> {
    match ev
    case Flush(level, size) => if |ImmEntries(st)| == 0 then [] else [TableOf(ImmEntries(st), st.nextFile, size)]
    case Compact(_, _, _, _, outputs) => outputs
    case _ => []
  }

  lemma MadeIsNew(st: State, ev: Event, st': State)
    requires Inv(st) && Next(st, ev, st')
    ensures DistinctNumbers(Made(st, ev)) && st.nextFile <= st'.nextFile
    ensures forall f :: f in Made(st, ev) ==> st.nextFile <= f.number < st'.nextFile
  {
    hide Inv, Legal, Survivors, Installed, Sorted, Elements, FileEntries, ValidFiles, Disjoint, Placed, MemInsert;
    match ev
    case Write(ops) => WriteKeepsVersion(st, ops);
    case _ =>
  }

  lemma AddedIsMadeOrMoved(st: State, ev: Event, st': State, a: (nat, File))
    requires Inv(st) && Next(st, ev, st') && EditOf(st, ev).Some? && a in EditOf(st, ev).value.added
    ensures a.1 in Made(st, ev) || exists l :: 0 <= l < |st.version| && a.1 in st.version[l]
  {
    hide Inv, Survivors, Installed, Sorted, Elements, FileEntries, ValidFiles, Disjoint, Placed, OutputNumbers, TableOf;
    match ev
    case Compact(level, _, _, _, outputs) =>
      var i :| 0 <= i < |AdditionsOf(level + 1, outputs)| && AdditionsOf(level + 1, outputs)[i] == a;
    case Move(level, file) =>
      var i :| 0 <= i < |AdditionsOf(level + 1, [file])| && AdditionsOf(level + 1, [file])[i] == a;
      assert file in [file];
    case _ =>
  }

  lemma MatchesStep(disk: Disk, manifest: seq<Record>, st: State, ev: Event, st': State, used: seq<set<nat>>,
                    c: Counters)
      returns (disk': Disk)
    requires Inv(st) && Next(st, ev, st') && Matches(disk, manifest, st.version, st.nextFile) &&
      UsedFits(st.version, used, st.nextFile)
    ensures Matches(disk',
                    if EditOf(st, ev).Some? then manifest + [Record(EditOf(st, ev).value, c)] else manifest,
                    st'.version, st'.nextFile)
  {
    hide Inv, Next, EditOf, Made, AddsFresh, Installed, DistinctNumbers, UsedAfter;
    StepEditIsFresh(st, ev, st', used);
    MadeIsNew(st, ev, st');
    disk' := AddTables(disk, st.nextFile, Made(st, ev));
    if EditOf(st, ev).Some? {
      var edit := EditOf(st, ev).value;
      LevelsOfInv(st);
      forall a | a in edit.added ensures a.1.number < st'.nextFile && disk'(a.1.number) == a.1.entries {
        AddedIsMadeOrMoved(st, ev, st', a);
      }
      forall l, f | 0 <= l < |st'.version| && f in st'.version[l]
        ensures f.number < st'.nextFile && disk'(f.number) == f.entries
      {
        InstalledLength(st.version, edit);
        InstalledHolds(st.version, edit, used, l, f);
        assert f in st.version[l] || (l, f) in edit.added;
      }
    }
  }

  lemma InstalledLength(v: Version, edit: Edit)
    ensures |Installed(v, edit)| == |v|
  {
  }

  lemma LevelsOfInv(st: State)
    requires Inv(st)
    ensures |st.version| == NUM_LEVELS && forall l :: 0 <= l < NUM_LEVELS ==> Ordered(st.version[l])
  {
    hide Ordered, Sorted, Newer;
    LevelsAreOrdered(st.version);
  }

  /** There is a disk that holds every table the manifest of a run ever names: a number never stands for two tables. */
  lemma {:induction false} TablesExist(first: seq<Record>, disk: Disk, states: seq<State>, events: seq<Event>,
                                       used: seq<set<nat>>, k: nat)
      returns (disk': Disk, used': seq<set<nat>>)
    requires Run(states, events) && Inv(states[0]) && Tracks(states[0], first, used) && k <= |events|
    requires Matches(disk, first, states[0].version, states[0].nextFile)
    ensures Inv(states[k]) && Tracks(states[k], LoggedBefore(first, states, events, k), used')
    ensures Matches(disk', LoggedBefore(first, states, events, k), states[k].version, states[k].nextFile)
    decreases k
  {
    hide Inv, Next, EditOf, Matches, Tracks, LoggedBefore;
    if k == 0 {
      OnlyFirst(first, states, events);
      disk', used' := disk, used;
    } else {
      disk', used' := TablesExist(first, disk, states, events, used, k - 1);
      var st, ev, st', manifest := states[k - 1], events[k - 1], states[k], LoggedBefore(first, states, events, k - 1);
      assert Next(states[k - 1], events[k - 1], states[k - 1 + 1]);
      LoggedStep(first, states, events, k - 1);
      StepKeepsInv(st, ev, st');
      var c := Counters(Some(0), Some(0), Some(st'.nextFile), Some(st'.lastSequence));
      TracksFits(st, manifest, used');
      disk' := MatchesStep(disk', manifest, st, ev, st', used', c);
      used' := StepTracks(st, ev, st', manifest, used', c);
      assert manifest + [] == manifest;
    }
  }

  lemma TracksFits(st: State, manifest: seq<Record>, used: seq<set<nat>>)
    requires Tracks(st, manifest, used)
    ensures UsedFits(st.version, used, st.nextFile)
  {
    hide LeadsTo, UsedFits;
  }

  /** Files change only with a record of the manifest. */
  lemma {:induction false} VersionSince(first: seq<Record>, states: seq<State>, events: seq<Event>, k: nat, n: nat)
    requires Run(states, events) && k <= n <= |events|
    requires LoggedBefore(first, states, events, k) == LoggedBefore(first, states, events, n)
    ensures states[k].version == states[n].version
    decreases n
  {
    hide Next, EditOf, LoggedBefore, RecordAt;
    if k < n {
      assert Next(states[n - 1], events[n - 1], states[n - 1 + 1]);
      LoggedStep(first, states, events, n - 1);
      OneRecordAtMost(states, events, n - 1);
      LoggedGrows(first, states, events, k, n - 1);
      VersionSince(first, states, events, k, n - 1);
      UnloggedKeepsVersion(states[n - 1], events[n - 1], states[n]);
    }
  }

  lemma {:induction false} LoggedGrows(first: seq<Record>, states: seq<State>, events: seq<Event>, k: nat, n: nat)
    requires |states| == |events| + 1 && k <= n <= |events|
    ensures LoggedBefore(first, states, events, k) <= LoggedBefore(first, states, events, n)
    decreases n
  {
    hide LoggedBefore, RecordAt;
    if k < n {
      LoggedStep(first, states, events, n - 1);
      LoggedGrows(first, states, events, k, n - 1);
    }
  }

  lemma UnloggedKeepsVersion(st: State, ev: Event, st': State)
    requires Next(st, ev, st') && EditOf(st, ev).None?
    ensures st'.version == st.version
  {
    match ev
    case Write(ops) => WriteKeepsVersion(st, ops);
    case _ =>
  }

  // ---- the file ----------------------------------------------------------------------------------------

  /** The same edits and counters; only the log numbers may differ, which the states of the run do not have. */
  ghost predicate Alike(a: seq<Record>, b: seq<Record>) {
    |a| == |b| && forall i :: 0 <= i < |a| ==>
      a[i].edit == b[i].edit && a[i].counters.nextFile == b[i].counters.nextFile &&
      a[i].counters.lastSequence == b[i].counters.lastSequence &&
      (a[i].counters.logNumber.Some? <==> b[i].counters.logNumber.Some?)
  }

  lemma {:induction false} AlikeCounters(a: seq<Record>, b: seq<Record>)
    requires Alike(a, b)
    ensures LastCounters(a).nextFile == LastCounters(b).nextFile &&
      LastCounters(a).lastSequence == LastCounters(b).lastSequence
    ensures LastCounters(a).logNumber.Some? <==> LastCounters(b).logNumber.Some?
  {
    if |a| > 0 {
      AlikeCounters(a[..|a| - 1], b[..|b| - 1]);
    }
  }

  lemma AlikeRecovers(a: seq<Record>, b: seq<Record>, st: State)
    requires Alike(a, b) && FoundAgain(RecoverySpec(b), st)
    ensures FoundAgain(RecoverySpec(a), st)
  {
    hide Saved, Replay, LastCounters;
    AlikeCounters(a, b);
    assert EditsOf(a) == EditsOf(b);
  }

  /** The file holds the manifest of the run, as LogAndApply wrote it behind the records it started with. */
  ghost predicate ManifestOf(names: Naming, disk: Disk, comparator: Bytes, written: seq<Written>, first: seq<Record>,
                             states: seq<State>, events: seq<Event>)
    requires |states| == |events| + 1
  {
    Alike(RecordsOf(written), LoggedBefore(first, states, events, |events|)) && Intact(names, disk, written) &&
    !Refused(comparator, written)
  }

  /** LogAndApply records a log number together with the next file number, which is larger. */
  ghost predicate LogsBelow(manifest: seq<Record>) {
    forall i :: 0 <= i < |manifest| ==> LogBelow(manifest[i].counters)
  }

  ghost predicate LogBelow(c: Counters) {
    (c.logNumber.Some? <==> c.nextFile.Some?) && (c.logNumber.Some? ==> c.logNumber.value < c.nextFile.value)
  }

  lemma {:induction false} LastLogBelow(manifest: seq<Record>)
    requires LogsBelow(manifest)
    ensures LogBelow(LastCounters(manifest))
  {
    if |manifest| > 0 {
      LastLogBelow(manifest[..|manifest| - 1]);
    }
  }

  lemma RecoveredLogBelow(written: seq<Written>, m: nat, comparator: Bytes)
    requires m <= |written| && LogsBelow(RecordsOf(written)) && ReopenSpec(comparator, written[..m]).Recovered?
    ensures ReopenSpec(comparator, written[..m]).logNumber < ReopenSpec(comparator, written[..m]).nextFile
  {
    hide Replay, Saved, Refused;
    assert RecordsOf(written[..m]) == RecordsOf(written)[..m];
    LastLogBelow(RecordsOf(written[..m]));
  }

  /** Opening the database on the manifest of a run that was cut off anywhere behind its first records: the files, the
    next file number and the last sequence number are those of the run behind the last step whose record is left. */
  method RecoverRun(file: Bytes, sum: Log.Checksum, comparator: Bytes, names: Naming, disk: Disk,
                    ghost written: seq<Written>, ghost first: seq<Record>, ghost states: seq<State>,
                    ghost events: seq<Event>)
      returns (r: Recovery, ghost m: nat, ghost k: nat)
    requires Run(states, events) && Inv(states[0]) && Opens(first, states[0])
    requires ManifestOf(names, disk, comparator, written, first, states, events)
    requires |first| <= |written| && |Log.FileOf(sum, AllBytes(names, written[..|first|]))| <= |file|
    requires file <= Log.FileOf(sum, AllBytes(names, written))
    ensures Log.WhollyKept(sum, AllBytes(names, written), |file|, m)
    ensures k <= |events| && m == |LoggedBefore(first, states, events, k)| && JustLogged(states, events, k) &&
      FoundAgain(r, states[k])
    ensures file == Log.FileOf(sum, AllBytes(names, written)) ==> r.version == states[|events|].version
    ensures LogsBelow(RecordsOf(written)) ==> r.logNumber < r.nextFile
  {
    hide LogsBelow;
    hide Log.FileOf, RecoverySpec, Inv, Next, LoggedBefore, Log.WhollyKept, BytesOf, Refused, Intact, Tracks;
    hide JustLogged;
    var pointers;
    r, pointers, m := Recover(file, sum, comparator, names, disk, written);
    NotRefusedBefore(comparator, written, m);
    FirstIsKept(names, sum, written, |first|, |file|, m);
    k := PartIsMoment(first, states, events, |events|, m);
    MomentRecovers(first, states, events, k);
    AlikeRecovers(RecordsOf(written[..m]), LoggedBefore(first, states, events, k), states[k]);
    if LogsBelow(RecordsOf(written)) {
      RecoveredLogBelow(written, m, comparator);
    }
    if file == Log.FileOf(sum, AllBytes(names, written)) {
      AllKept(sum, AllBytes(names, written), m);
      VersionSince(first, states, events, k, |events|);
    }
  }

  lemma FirstIsKept(names: Naming, sum: Log.Checksum, written: seq<Written>, n: nat, length: nat, m: nat)
    requires n <= |written| && |Log.FileOf(sum, AllBytes(names, written[..n]))| <= length
    requires Log.WhollyKept(sum, AllBytes(names, written), length, m)
    ensures n <= m <= |written|
  {
    hide Log.FileOf;
    var all := AllBytes(names, written);
    assert AllBytes(names, written[..n]) == all[..n];
    if m < n {
      Log.FilesGrow(sum, all, m + 1, n);
    }
  }
}
