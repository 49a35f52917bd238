/** Which files RemoveObsoleteFiles of db/db_impl.cc deletes, in a machine with one background worker, any
  number of readers that hold versions, and writers that switch logs.  A step is one stretch of work under
  the mutex or one file operation done while it is released. */
module ObsoleteFiles {
  import opened Options
  import opened InternalKeys

  datatype FileName = Table(number: nat) | LogFile(number: nat) | Manifest(number: nat)

  /** A Version object: its table numbers and its reference count. */
  datatype Ver = Ver(files: set<nat>, refs: nat)

  /** CompactMemTable: the table is built, then taken off pending_outputs_, then logged, then installed. */
  datatype Flush =
    | Building(number: nat, base: nat, written: bool)
    | Built(number: nat, kept: bool)
    | Logged(number: nat, kept: bool)

  /** A compaction holds its input version and opens one output after the other. */
  datatype Compaction =
    | Running(input: nat, outputs: set<nat>, written: set<nat>)
    | Committed(input: nat, outputs: set<nat>, files: set<nat>)
    | Over(input: nat, outputs: set<nat>)

  /** durable and durableLog are what recovery would find in the manifest; immSaved says that the table of
      the immutable memtable is in it. */
  datatype State = State(disk: set<FileName>, nextFile: nat, versions: map<nat, Ver>, current: nat,
                         readers: multiset<nat>,
                         pending: set<nat>, logfile: nat, immLog: Option<nat>, logNumber: nat, manifest: nat,
                           bgError: bool,
                         flush: Option<Flush>, compaction: Option<Compaction>, collecting: bool, doomed: set<FileName>,
                         durable: set<nat>, durableLog: nat, immSaved: bool)

  datatype Step =
    | Acquire | Release(id: nat) | Switch | BackgroundError
    | StartFlush | WriteTable | FinishTable(empty: bool) | LogFlush(written: bool, ok: bool) | InstallFlush(id: nat)
    | StartCompaction | OpenOutput | WriteOutput(number: nat) | LogCompaction(deleted: set<nat>, written: bool,
        ok: bool)
    | AbortCompaction | InstallCompaction(id: nat) | Cleanup
    | Collect | Delete(file: FileName) | EndCollect

  function CurrentFiles(s: State): set<nat> {
    if s.current in s.versions then s.versions[s.current].files else {}
  }

  /** AddLiveFiles, and the test RemoveObsoleteFiles makes on each file name. */
  ghost predicate Kept(s: State, f: FileName) {
    match f
    case Table(n) => n in s.pending || exists id :: id in s.versions && n in s.versions[id].files
    case LogFile(n) => n >= s.logNumber
    case Manifest(n) => n >= s.manifest
  }

  function Ref(s: State, id: nat): State
    requires id in s.versions
  {
    s.(versions := s.versions[id := s.versions[id].(refs := s.versions[id].refs + 1)])
  }

  /** The last reference takes the version off the list. */
  function Unref(s: State, id: nat): State
    requires id in s.versions
  {
    if s.versions[id].refs <= 1 then s.(versions := s.versions - {id})
    else s.(versions := s.versions[id := s.versions[id].(refs := s.versions[id].refs - 1)])
  }

  /** AppendVersion: the new version takes over the reference of current_. */
  function Append(s: State, id: nat, files: set<nat>): State
    requires s.current in s.versions
  {
    var s1 := Unref(s, s.current);
    s1.(versions := s1.versions[id := Ver(files, 1)], current := id)
  }

  ghost predicate Busy(s: State) {
    s.flush.Some? || s.collecting || (s.compaction.Some? && !s.compaction.value.Running?)
  }

  ghost predicate Enabled(s: State, step: Step) {
    match step
    case Acquire => s.current in s.versions
    case Release(id) => id in s.readers && id in s.versions
    case Switch => s.immLog.None?
    case BackgroundError => true
    case StartFlush => s.immLog.Some? && !Busy(s) && s.current in s.versions
    case WriteTable => s.flush.Some? && s.flush.value.Building? && !s.flush.value.written
    case FinishTable(empty) => s.flush.Some? && s.flush.value.Building? && s.flush.value.written &&
    s.flush.value.base in s.versions
    case LogFlush(written, ok) => s.flush.Some? && s.flush.value.Built? && (ok ==> written)
    case InstallFlush(id) => s.flush.Some? && s.flush.value.Logged? && id !in s.versions && s.current in s.versions
    case StartCompaction => !Busy(s) && s.compaction.None? && s.current in s.versions
    case OpenOutput => !Busy(s) && s.compaction.Some?
    case WriteOutput(n) => !Busy(s) && s.compaction.Some? && n in s.compaction.value.outputs
    case LogCompaction(deleted, written, ok) =>
      !Busy(s) && s.compaction.Some? && s.compaction.value.written == s.compaction.value.outputs && (ok ==> written)
    case AbortCompaction => !Busy(s) && s.compaction.Some?
    case InstallCompaction(id) => s.compaction.Some? && s.compaction.value.Committed? && id !in s.versions &&
    s.current in s.versions
    case Cleanup => s.compaction.Some? && s.compaction.value.Over? && !s.collecting &&
    s.compaction.value.input in s.versions
    case Collect => !Busy(s) && !s.bgError
    case Delete(f) => s.collecting && f in s.doomed
    case EndCollect => s.collecting
  }

  ghost function After(s: State, step: Step): State
    requires Enabled(s, step)
  {
    match step
    case Acquire => Ref(s, s.current).(readers := s.readers + multiset{s.current})
    case Release(id) => Unref(s, id).(readers := s.readers - multiset{id})
    case Switch =>
      s.(logfile := s.nextFile, nextFile := s.nextFile + 1, disk := s.disk + {LogFile(s.nextFile)},
         immLog := Some(s.logfile), immSaved := false)
    case BackgroundError => s.(bgError := true)
    case StartFlush =>
      Ref(s, s.current).(flush := Some(Building(s.nextFile, s.current, false)), nextFile := s.nextFile + 1,
                         pending := s.pending + {s.nextFile})
    case WriteTable =>
      s.(flush := Some(Building(s.flush.value.number, s.flush.value.base, true)),
         disk := s.disk + {Table(s.flush.value.number)})
    case FinishTable(empty) =>
      var n := s.flush.value.number;
      Unref(s, s.flush.value.base).(flush := Some(Built(n, !empty)), pending := s.pending - {n},
                                    disk := if empty then s.disk - {Table(n)} else s.disk)
    case LogFlush(written, ok) =>
      var added := if s.flush.value.kept then {s.flush.value.number} else {};
      s.(flush := if ok then Some(Logged(s.flush.value.number, s.flush.value.kept)) else None,
         bgError := s.bgError || !ok,
         durable := if written then s.durable + added else s.durable,
         durableLog := if written then s.logfile else s.durableLog, immSaved := s.immSaved || written)
    case InstallFlush(id) =>
      var added := if s.flush.value.kept then {s.flush.value.number} else {};
      Append(s, id, CurrentFiles(s) + added).(flush := None, immLog := None, logNumber := s.logfile)
    case StartCompaction => Ref(s, s.current).(compaction := Some(Running(s.current, {}, {})))
    case OpenOutput =>
      var c := s.compaction.value;
      s.(compaction := Some(Running(c.input, c.outputs + {s.nextFile}, c.written)),
         pending := s.pending + {s.nextFile}, nextFile := s.nextFile + 1)
    case WriteOutput(n) =>
      var c := s.compaction.value;
      s.(compaction := Some(Running(c.input, c.outputs, c.written + {n})),
         disk := s.disk + {Table(n)})
    case LogCompaction(deleted, written, ok) =>
      var c := s.compaction.value;
      var installed := (CurrentFiles(s) - deleted) + c.outputs;
      s.(compaction := Some(if ok then Committed(c.input, c.outputs, installed) else Over(c.input, c.outputs)),
         bgError := s.bgError || !ok, durable := if written then (s.durable - deleted) + c.outputs else s.durable,
         durableLog := if written then s.logNumber else s.durableLog)
    case AbortCompaction =>
      s.(compaction := Some(Over(s.compaction.value.input, s.compaction.value.outputs)), bgError := true)
    case InstallCompaction(id) =>
      Append(s, id,
             s.compaction.value.files).(compaction := Some(Over(s.compaction.value.input, s.compaction.value.outputs)))
    case Cleanup =>
      Unref(s, s.compaction.value.input).(compaction := None, pending := s.pending - s.compaction.value.outputs)
    case Collect => s.(collecting := true, doomed := set f | f in s.disk && !Kept(s, f))
    case Delete(f) => s.(disk := s.disk - {f}, doomed := s.doomed - {f})
    case EndCollect => s.(collecting := false, doomed := {})
  }

  // ---- the invariant -----------------------------------------------------------------------------

  ghost predicate InVersion(s: State, n: nat) {
    exists id :: id in s.versions && n in s.versions[id].files
  }

  /** The table an unfinished flush has written. */
  predicate FlushTable(s: State, n: nat) {
    s.flush.Some? && s.flush.value.number == n &&
    (if s.flush.value.Building? then s.flush.value.written else s.flush.value.kept)
  }

  predicate CompactionTable(s: State, n: nat) {
    s.compaction.Some? &&
    match s.compaction.value
    case Running(_, _, written) => n in written
    case Committed(_, outputs, files) => n in outputs || n in files
    case Over(_, _) => false
  }

  /** What a reader, the background work or a recovery may still open. */
  ghost predicate Needed(s: State, f: FileName) {
    match f
    case Table(n) => n in s.durable || InVersion(s, n) || FlushTable(s, n) || CompactionTable(s, n)
    case LogFile(n) => n == s.logfile || Some(n) == s.immLog
    case Manifest(n) => n == s.manifest
  }

  ghost predicate Present(s: State) {
    forall f :: Needed(s, f) ==> f in s.disk && f !in s.doomed
  }

  function Count(s: State, id: nat): nat {
    s.readers[id] + (if id == s.current then 1 else 0) +
    (if s.flush.Some? && s.flush.value.Building? && s.flush.value.base == id then 1 else 0) +
    (if s.compaction.Some? && s.compaction.value.input == id then 1 else 0)
  }

  /** A version is on the list exactly while somebody holds it. */
  ghost predicate RefsCounted(s: State) {
    (forall id :: id in s.versions <==> Count(s, id) > 0) &&
    forall id :: id in s.versions ==> s.versions[id].refs == Count(s, id)
  }

  /** Numbers handed out so far. */
  ghost predicate Bounded(s: State) {
    (forall f :: f in s.disk || f in s.doomed ==> f.number < s.nextFile) &&
    (forall n :: n in s.pending ==> n < s.nextFile) &&
    s.logfile < s.nextFile && (s.flush.Some? ==> s.flush.value.number < s.nextFile)
  }

  /** What the one worker can be doing. */
  ghost predicate OneThing(s: State) {
    (!s.collecting ==> s.doomed == {}) &&
    (s.flush.Some? ==> !s.collecting && s.immLog.Some?) &&
    (s.compaction.Some? && !s.compaction.value.Running? ==> !s.collecting && s.flush.None?) &&
    (s.compaction.Some? && s.compaction.value.Running? ==> s.compaction.value.written <= s.compaction.value.outputs)
  }

  /** The table being built is new to everybody else. */
  ghost predicate FlushIsFresh(s: State) {
    s.flush.Some? && s.flush.value.Building? ==>
      var n := s.flush.value.number;
      n !in s.durable && !InVersion(s, n) && !CompactionTable(s, n) &&
      (s.compaction.Some? ==> n !in s.compaction.value.outputs)
  }

  ghost predicate PendingIs(s: State) {
    s.pending == (if s.flush.Some? && s.flush.value.Building? then {s.flush.value.number} else {}) +
                 (if s.compaction.Some? then s.compaction.value.outputs else {})
  }

  function Agreed(s: State): set<nat> {
    if s.flush.Some? &&
        s.flush.value.Logged? then CurrentFiles(s) + (if s.flush.value.kept then {s.flush.value.number} else {})
    else if s.compaction.Some? && s.compaction.value.Committed? then s.compaction.value.files
    else CurrentFiles(s)
  }

  /** While nothing has failed, the manifest describes the current version, or the one about to be installed. */
  ghost predicate DurableIs(s: State) {
    !s.bgError ==> s.durable == Agreed(s)
  }

  /** Recovery replays every log whose writes are not in a table of the manifest. */
  ghost predicate LogsReplayed(s: State) {
    s.durableLog <= s.logfile && s.logNumber <= s.logfile &&
    (s.immLog.Some? ==> s.logNumber <= s.immLog.value < s.logfile && (!s.immSaved ==> s.durableLog <= s.immLog.value))
  }

  ghost predicate LogsOnDisk(s: State) {
    forall n: nat :: LogFile(n) in s.disk ==> n < s.logNumber || n == s.logfile || Some(n) == s.immLog
  }

  ghost predicate FilesInv(s: State) {
    Present(s) && Bounded(s) && OneThing(s) && FlushIsFresh(s) && PendingIs(s) && DurableIs(s) && LogsReplayed(s) &&
    LogsOnDisk(s)
  }

  ghost predicate Inv(s: State) {
    RefsCounted(s) && FilesInv(s)
  }

  // ---- references --------------------------------------------------------------------------------

  lemma RefCounts(s: State, id: nat, s': State)
    requires RefsCounted(s) && id in s.versions && s'.versions == Ref(s, id).versions
    requires forall x :: Count(s', x) == Count(s, x) + if x == id then 1 else 0
    ensures RefsCounted(s')
  {
    hide Count;
  }

  lemma UnrefCounts(s: State, id: nat, s': State)
    requires RefsCounted(s) && id in s.versions && s'.versions == Unref(s, id).versions
    requires forall x :: Count(s, x) == Count(s', x) + if x == id then 1 else 0
    ensures RefsCounted(s')
  {
    hide Count;
  }

  /** current_ moves to a new version. */
  lemma AppendCounts(s: State, id: nat, files: set<nat>, s': State)
    requires RefsCounted(s) && s.current in s.versions && id !in s.versions &&
      s'.versions == Append(s, id, files).versions
    requires s'.current == id &&
      forall x :: Count(s', x) == Count(s, x) - (if x == s.current then 1 else 0) + if x == id then 1 else 0
    ensures RefsCounted(s')
  {
    hide Count;
  }

  lemma CurrentIsHeld(s: State)
    requires RefsCounted(s)
    ensures s.current in s.versions
  {
  }

  /** References come and go, and no version changes its files. */
  ghost predicate OnlyRefs(s: State, s': State) {
    s' == s.(versions := s'.versions, readers := s'.readers) &&
    (forall id :: id in s'.versions ==> id in s.versions && s'.versions[id].files == s.versions[id].files) &&
    s.current in s'.versions && s.current in s.versions
  }

  lemma RefsKeepFiles(s: State, s': State)
    requires FilesInv(s) && OnlyRefs(s, s')
    ensures FilesInv(s')
  {
    hide Present;
    assert forall n :: InVersion(s', n) ==> InVersion(s, n);
    assert Present(s') by { FewerNeeds(s, s'); }
  }

  lemma FewerNeeds(s: State, s': State)
    requires Present(s) && forall f :: Needed(s', f) ==> Needed(s, f)
    requires s.disk <= s'.disk && s'.doomed <= s.doomed
    ensures Present(s')
  {
    hide Needed;
  }

  lemma CountsSame(s: State, s': State)
    requires RefsCounted(s) && s'.versions == s.versions && forall x :: Count(s', x) == Count(s, x)
    ensures RefsCounted(s')
  {
    hide Count;
  }

  lemma AcquireKeepsInv(s: State)
    requires Inv(s) && Enabled(s, Acquire)
    ensures Inv(After(s, Acquire))
  {
    hide FilesInv, RefsCounted;
    var s' := After(s, Acquire);
    RefCounts(s, s.current, s');
    RefsKeepFiles(s, s');
  }

  lemma ReleaseCounts(s: State, id: nat)
    requires Enabled(s, Release(id))
    ensures forall x :: Count(s, x) == Count(After(s, Release(id)), x) + if x == id then 1 else 0
  {
  }

  lemma ReleaseKeepsInv(s: State, id: nat)
    requires Inv(s) && Enabled(s, Release(id))
    ensures Inv(After(s, Release(id)))
  {
    hide FilesInv, RefsCounted, Count;
    var s' := After(s, Release(id));
    ReleaseCounts(s, id);
    UnrefCounts(s, id, s');
    CurrentIsHeld(s);
    CurrentIsHeld(s');
    RefsKeepFiles(s, s');
  }

  // ---- the flush -------------------------------------------------------------------------------------

  lemma StartFlushKeepsInv(s: State)
    requires Inv(s) && Enabled(s, StartFlush)
    ensures Inv(After(s, StartFlush))
  {
    hide FilesInv, RefsCounted;
    var s', s1 := After(s, StartFlush), Ref(s, s.current);
    RefCounts(s, s.current, s');
    RefsKeepFiles(s, s1);
    StartFlushKeepsFiles(s1, s');
  }

  lemma StartFlushKeepsFiles(s: State, s': State)
    requires FilesInv(s) && s.flush.None? && !s.collecting && s.immLog.Some? &&
      (s.compaction.Some? ==> s.compaction.value.Running?)
    requires s' ==
      s.(flush := Some(Building(s.nextFile, s.current, false)), nextFile := s.nextFile + 1,
         pending := s.pending + {s.nextFile})
    ensures FilesInv(s')
  {
    FewerNeedsIn(s, s');
    NewNumber(s);
    SameVersions(s, s');
  }

  lemma SameVersions(s: State, s': State)
    requires s'.versions == s.versions
    ensures forall n :: InVersion(s', n) <==> InVersion(s, n)
    ensures s'.current == s.current ==> CurrentFiles(s') == CurrentFiles(s)
  {
  }

  /** The next file number is in use nowhere. */
  lemma NewNumber(s: State)
    requires Present(s) && Bounded(s) && PendingIs(s) && OneThing(s)
    ensures s.nextFile !in s.durable && !InVersion(s, s.nextFile) && !CompactionTable(s, s.nextFile) &&
      !FlushTable(s, s.nextFile)
    ensures s.nextFile !in s.pending && (s.compaction.Some? ==> s.nextFile !in s.compaction.value.outputs)
  {
    hide InVersion, CompactionTable, FlushTable;
    assert Needed(s, Table(s.nextFile)) ==> Table(s.nextFile) in s.disk;
  }

  lemma FewerNeedsIn(s: State, s': State)
    requires Present(s) && s'.disk == s.disk && s'.doomed == s.doomed && s'.versions == s.versions
    requires s'.durable == s.durable && s'.logfile == s.logfile && s'.immLog == s.immLog && s'.manifest == s.manifest
    requires forall n :: FlushTable(s', n) ==> FlushTable(s, n)
    requires forall n :: CompactionTable(s', n) ==> CompactionTable(s, n)
    ensures Present(s')
  {
    hide Present, FlushTable, CompactionTable;
    assert forall n :: InVersion(s', n) ==> InVersion(s, n);
    FewerNeeds(s, s');
  }

  lemma WriteTableKeepsInv(s: State)
    requires Inv(s) && Enabled(s, WriteTable)
    ensures Inv(After(s, WriteTable))
  {
    var s', n := After(s, WriteTable), s.flush.value.number;
    CountsSame(s, s');
    SameVersions(s, s');
    assert Present(s') by { MoreNeeds(s, s', n); }
  }

  lemma MoreNeeds(s: State, s': State, n: nat)
    requires Present(s) && s.doomed == {} == s'.doomed && s'.disk == s.disk + {Table(n)}
    requires forall f :: Needed(s', f) ==> Needed(s, f) || f == Table(n)
    ensures Present(s')
  {
    hide Needed;
  }

  lemma FinishTableCounts(s: State, empty: bool)
    requires Enabled(s, FinishTable(empty))
    ensures forall x :: Count(s, x) == Count(After(s, FinishTable(empty)), x) + if x == s.flush.value.base then 1 else 0
  {
  }

  lemma FinishTableKeepsInv(s: State, empty: bool)
    requires Inv(s) && Enabled(s, FinishTable(empty))
    ensures Inv(After(s, FinishTable(empty)))
  {
    hide FilesInv, RefsCounted, Count;
    var base := s.flush.value.base;
    var s1, s' := Unref(s, base), After(s, FinishTable(empty));
    FinishTableCounts(s, empty);
    UnrefCounts(s, base, s');
    CurrentIsHeld(s);
    CurrentIsHeld(s');
    RefsKeepFiles(s, s1);
    FinishTableKeepsFiles(s1, empty, s');
  }

  lemma FinishTableKeepsFiles(s: State, empty: bool, s': State)
    requires FilesInv(s) && s.flush.Some? && s.flush.value.Building? && s.flush.value.written
    requires var n := s.flush.value.number;
      s' == s.(flush := Some(Built(n, !empty)), pending := s.pending - {n},
               disk := if empty then s.disk - {Table(n)} else s.disk)
    ensures FilesInv(s')
  {
    var n := s.flush.value.number;
    SameVersions(s, s');
    assert Present(s') by {
      if empty {
        LessDisk(s, s', Table(n));
      } else {
        FewerNeedsIn(s, s');
      }
    }
  }

  lemma LessDisk(s: State, s': State, f: FileName)
    requires Present(s) && s'.disk == s.disk - {f} && s'.doomed == s.doomed && !Needed(s', f)
    requires forall g :: Needed(s', g) ==> Needed(s, g)
    ensures Present(s')
  {
    hide Needed;
  }

  lemma LogFlushKeepsInv(s: State, written: bool, ok: bool)
    requires Inv(s) && Enabled(s, LogFlush(written, ok))
    ensures Inv(After(s, LogFlush(written, ok)))
  {
    hide RefsCounted;
    var s' := After(s, LogFlush(written, ok));
    CountsSame(s, s');
    LogFlushKeepsFiles(s, written, ok);
  }

  lemma LogFlushKeepsFiles(s: State, written: bool, ok: bool)
    requires FilesInv(s) && Enabled(s, LogFlush(written, ok))
    ensures FilesInv(After(s, LogFlush(written, ok)))
  {
    var s' := After(s, LogFlush(written, ok));
    SameVersions(s, s');
    assert Present(s') by {
      hide InVersion, CompactionTable;
      assert forall f :: Needed(s', f) ==> Needed(s, f);
      FewerNeeds(s, s');
    }
  }

  /** s' is s with a new current version that lists these files; every other version on the list was there before. */
  ghost predicate Appended(s: State, s': State, files: set<nat>) {
    s.current in s.versions && CurrentFiles(s') == files &&
    forall n :: InVersion(s', n) ==> InVersion(s, n) || n in files
  }

  lemma AppendIs(s: State, id: nat, files: set<nat>)
    requires s.current in s.versions && id !in s.versions
    ensures Appended(s, Append(s, id, files), files)
  {
  }

  lemma CurrentInVersion(s: State)
    ensures forall n :: n in CurrentFiles(s) ==> InVersion(s, n)
  {
  }

  lemma AppendedSame(s: State, s1: State, s2: State, files: set<nat>)
    requires Appended(s, s1, files) && s2.versions == s1.versions && s2.current == s1.current
    ensures Appended(s, s2, files)
  {
    SameVersions(s1, s2);
  }

  lemma InstallFlushKeepsInv(s: State, id: nat)
    requires Inv(s) && Enabled(s, InstallFlush(id))
    ensures Inv(After(s, InstallFlush(id)))
  {
    hide FilesInv, RefsCounted, Appended;
    var files := CurrentFiles(s) + if s.flush.value.kept then {s.flush.value.number} else {};
    var s' := After(s, InstallFlush(id));
    AppendCounts(s, id, files, s');
    AppendIs(s, id, files);
    AppendedSame(s, Append(s, id, files), s', files);
    InstallFlushKeepsFiles(s, files, s');
  }

  lemma InstallFlushKeepsFiles(s: State, files: set<nat>, s': State)
    requires FilesInv(s) && s.flush.Some? && s.flush.value.Logged? && Appended(s, s', files)
    requires files == CurrentFiles(s) + if s.flush.value.kept then {s.flush.value.number} else {}
    requires s' ==
      s.(versions := s'.versions, current := s'.current, flush := None, immLog := None, logNumber := s.logfile)
    ensures FilesInv(s')
  {
    hide InVersion, CurrentFiles, Present;
    InstallFlushNeeds(s, files, s');
    FewerNeeds(s, s');
  }

  lemma InstallFlushNeeds(s: State, files: set<nat>, s': State)
    requires s.flush.Some? && s.flush.value.Logged? && Appended(s, s', files)
    requires files == CurrentFiles(s) + if s.flush.value.kept then {s.flush.value.number} else {}
    requires s' ==
      s.(versions := s'.versions, current := s'.current, flush := None, immLog := None, logNumber := s.logfile)
    ensures forall f :: Needed(s', f) ==> Needed(s, f)
  {
    hide InVersion, CurrentFiles, CompactionTable;
    CurrentInVersion(s);
    assert forall n :: CompactionTable(s', n) ==> CompactionTable(s, n) by { SameCompaction(s, s'); }
  }

  lemma SameCompaction(s: State, s': State)
    requires s'.compaction == s.compaction
    ensures forall n :: CompactionTable(s', n) <==> CompactionTable(s, n)
  {
  }

  // ---- the compaction --------------------------------------------------------------------------------

  lemma StartCompactionKeepsInv(s: State)
    requires Inv(s) && Enabled(s, StartCompaction)
    ensures Inv(After(s, StartCompaction))
  {
    hide FilesInv, RefsCounted;
    var s', s1 := After(s, StartCompaction), Ref(s, s.current);
    RefCounts(s, s.current, s');
    RefsKeepFiles(s, s1);
    StartCompactionKeepsFiles(s1, s');
  }

  lemma StartCompactionKeepsFiles(s: State, s': State)
    requires FilesInv(s) && !Busy(s) && s.compaction.None? && s' == s.(compaction := Some(Running(s.current, {}, {})))
    ensures FilesInv(s')
  {
    FewerNeedsIn(s, s');
    SameVersions(s, s');
  }

  lemma OpenOutputKeepsInv(s: State)
    requires Inv(s) && Enabled(s, OpenOutput)
    ensures Inv(After(s, OpenOutput))
  {
    hide RefsCounted, InVersion;
    var s' := After(s, OpenOutput);
    CountsSame(s, s');
    FewerNeedsIn(s, s');
    SameVersions(s, s');
  }

  lemma WriteOutputKeepsInv(s: State, n: nat)
    requires Inv(s) && Enabled(s, WriteOutput(n))
    ensures Inv(After(s, WriteOutput(n)))
  {
    hide RefsCounted, InVersion, Present, CurrentFiles;
    var s' := After(s, WriteOutput(n));
    CountsSame(s, s');
    SameVersions(s, s');
    MoreNeeds(s, s', n);
  }

  lemma LogCompactionKeepsInv(s: State, deleted: set<nat>, written: bool, ok: bool)
    requires Inv(s) && Enabled(s, LogCompaction(deleted, written, ok))
    ensures Inv(After(s, LogCompaction(deleted, written, ok)))
  {
    hide RefsCounted, InVersion, Present, CurrentFiles;
    var s' := After(s, LogCompaction(deleted, written, ok));
    CountsSame(s, s');
    SameVersions(s, s');
    CurrentInVersion(s);
    FewerNeeds(s, s');
  }

  lemma AbortKeepsInv(s: State)
    requires Inv(s) && Enabled(s, AbortCompaction)
    ensures Inv(After(s, AbortCompaction))
  {
    hide RefsCounted, InVersion, Present, CurrentFiles;
    var s' := After(s, AbortCompaction);
    CountsSame(s, s');
    SameVersions(s, s');
    FewerNeeds(s, s');
  }

  lemma InstallCompactionKeepsInv(s: State, id: nat)
    requires Inv(s) && Enabled(s, InstallCompaction(id))
    ensures Inv(After(s, InstallCompaction(id)))
  {
    hide FilesInv, RefsCounted, Appended;
    var files := s.compaction.value.files;
    var s' := After(s, InstallCompaction(id));
    AppendCounts(s, id, files, s');
    AppendIs(s, id, files);
    AppendedSame(s, Append(s, id, files), s', files);
    InstallCompactionKeepsFiles(s, files, s');
  }

  lemma InstallCompactionKeepsFiles(s: State, files: set<nat>, s': State)
    requires FilesInv(s) && s.compaction.Some? && s.compaction.value.Committed? && Appended(s, s', files) &&
      files == s.compaction.value.files
    requires s' ==
      s.(versions := s'.versions, current := s'.current,
         compaction := Some(Over(s.compaction.value.input, s.compaction.value.outputs)))
    ensures FilesInv(s')
  {
    hide InVersion, CurrentFiles, Present;
    assert forall f :: Needed(s', f) ==> Needed(s, f);
    FewerNeeds(s, s');
  }

  lemma CleanupKeepsInv(s: State)
    requires Inv(s) && Enabled(s, Cleanup)
    ensures Inv(After(s, Cleanup))
  {
    hide FilesInv, RefsCounted;
    var input := s.compaction.value.input;
    var s1, s' := Unref(s, input), After(s, Cleanup);
    UnrefCounts(s, input, s');
    CurrentIsHeld(s);
    CurrentIsHeld(s');
    RefsKeepFiles(s, s1);
    CleanupKeepsFiles(s1, s');
  }

  lemma CleanupKeepsFiles(s: State, s': State)
    requires FilesInv(s) && s.compaction.Some? && s.compaction.value.Over? && !s.collecting
    requires s' == s.(compaction := None, pending := s.pending - s.compaction.value.outputs)
    ensures FilesInv(s')
  {
    FewerNeedsIn(s, s');
    SameVersions(s, s');
  }

  // ---- the rest -----------------------------------------------------------------------------------------

  lemma SwitchKeepsInv(s: State)
    requires Inv(s) && Enabled(s, Switch)
    ensures Inv(After(s, Switch))
  {
    hide RefsCounted, InVersion, CurrentFiles;
    var s' := After(s, Switch);
    CountsSame(s, s');
    SameVersions(s, s');
    SwitchPresent(s);
  }

  lemma SwitchPresent(s: State)
    requires Present(s) && Bounded(s) && Enabled(s, Switch)
    ensures Present(After(s, Switch))
  {
    hide FlushTable, CompactionTable, InVersion;
    var s' := After(s, Switch);
    SameVersions(s, s');
    SameCompaction(s, s');
    SameFlush(s, s');
    assert forall f :: Needed(s', f) ==> Needed(s, f) || f == LogFile(s.nextFile);
  }

  lemma SameFlush(s: State, s': State)
    requires s'.flush == s.flush
    ensures forall n :: FlushTable(s', n) <==> FlushTable(s, n)
  {
  }

  lemma BackgroundErrorKeepsInv(s: State)
    requires Inv(s)
    ensures Inv(s.(bgError := true))
  {
    hide RefsCounted, InVersion;
    var s' := s.(bgError := true);
    CountsSame(s, s');
    SameVersions(s, s');
    FewerNeedsIn(s, s');
  }

  /** While the worker is between jobs and nothing has failed, whatever is needed is kept. */
  lemma NeededIsKept(s: State, f: FileName)
    requires Inv(s) && Enabled(s, Collect) && Needed(s, f)
    ensures Kept(s, f)
  {
    hide RefsCounted, Present;
    CurrentInVersion(s);
  }

  lemma CollectKeepsInv(s: State)
    requires Inv(s) && Enabled(s, Collect)
    ensures Inv(After(s, Collect))
  {
    hide RefsCounted, InVersion, Kept;
    var s' := After(s, Collect);
    CountsSame(s, s');
    SameVersions(s, s');
    assert Present(s') by {
      forall f | Needed(s', f) ensures f in s'.disk && f !in s'.doomed {
        assert Needed(s, f);
        NeededIsKept(s, f);
      }
    }
  }

  lemma DeleteKeepsInv(s: State, f: FileName)
    requires Inv(s) && Enabled(s, Delete(f))
    ensures Inv(After(s, Delete(f)))
  {
    hide RefsCounted, InVersion;
    var s' := After(s, Delete(f));
    CountsSame(s, s');
    SameVersions(s, s');
    DeletePresent(s, f, s');
  }

  lemma DeletePresent(s: State, f: FileName, s': State)
    requires Present(s) && f in s.doomed && s' == s.(disk := s.disk - {f}, doomed := s.doomed - {f})
    ensures Present(s')
  {
    hide InVersion;
    SameVersions(s, s');
    assert forall g :: Needed(s', g) ==> Needed(s, g);
  }

  lemma EndCollectKeepsInv(s: State)
    requires Inv(s) && Enabled(s, EndCollect)
    ensures Inv(After(s, EndCollect))
  {
    hide RefsCounted, InVersion, Present;
    var s' := After(s, EndCollect);
    CountsSame(s, s');
    SameVersions(s, s');
    FewerNeeds(s, s');
  }

  lemma StepKeepsInv(s: State, step: Step)
    requires Inv(s) && Enabled(s, step)
    ensures Inv(After(s, step))
  {
    hide Inv;
    match step
    case Acquire => AcquireKeepsInv(s);
    case Release(id) => ReleaseKeepsInv(s, id);
    case Switch => SwitchKeepsInv(s);
    case BackgroundError => BackgroundErrorKeepsInv(s);
    case StartFlush => StartFlushKeepsInv(s);
    case WriteTable => WriteTableKeepsInv(s);
    case FinishTable(empty) => FinishTableKeepsInv(s, empty);
    case LogFlush(written, ok) => LogFlushKeepsInv(s, written, ok);
    case InstallFlush(id) => InstallFlushKeepsInv(s, id);
    case StartCompaction => StartCompactionKeepsInv(s);
    case OpenOutput => OpenOutputKeepsInv(s);
    case WriteOutput(n) => WriteOutputKeepsInv(s, n);
    case LogCompaction(deleted, written, ok) => LogCompactionKeepsInv(s, deleted, written, ok);
    case AbortCompaction => AbortKeepsInv(s);
    case InstallCompaction(id) => InstallCompactionKeepsInv(s, id);
    case Cleanup => CleanupKeepsInv(s);
    case Collect => CollectKeepsInv(s);
    case Delete(f) => DeleteKeepsInv(s, f);
    case EndCollect => EndCollectKeepsInv(s);
  }

  // ---- runs ------------------------------------------------------------------------------------------------

  /** A database that was just opened: one version, one log, and whatever an earlier run left lying around. */
  function Opened(files: set<nat>, log: nat, manifest: nat, next: nat, disk: set<FileName>): State {
    State(disk, next, map[0 := Ver(files, 1)], 0, multiset{}, {}, log, None, log, manifest, false, None, None, false,
          {}, files, log, false)
  }

  ghost predicate Start(s: State) {
    exists files: set<nat>, log: nat, manifest: nat, next: nat, disk: set<FileName> ::
      s == Opened(files, log, manifest, next, disk) && log < next && LogFile(log) in disk &&
      Manifest(manifest) in disk &&
      (forall n :: n in files ==> Table(n) in disk) && (forall f :: f in disk ==> f.number < next) &&
      forall n: nat :: LogFile(n) in disk ==> n <= log
  }

  lemma StartHolds(s: State)
    requires Start(s)
    ensures Inv(s)
  {
    assert s.versions == map[0 := Ver(s.durable, 1)];
    assert forall n :: InVersion(s, n) ==> n in s.durable;
  }

  ghost predicate Run(states: seq<State>, steps: seq<Step>) {
    |states| == |steps| + 1 && Start(states[0]) &&
    forall i :: 0 <= i < |steps| ==> Enabled(states[i], steps[i]) && states[i + 1] == After(states[i], steps[i])
  }

  lemma {:induction false} RunKeepsInv(states: seq<State>, steps: seq<Step>, i: nat)
    requires Run(states, steps) && i < |states|
    ensures Inv(states[i])
  {
    hide Inv, Enabled, After, Start;
    if i == 0 {
      StartHolds(states[0]);
    } else {
      RunKeepsInv(states, steps, i - 1);
      StepKeepsInv(states[i - 1], steps[i - 1]);
    }
  }

  /** Nothing still needed is ever deleted: not by a reader, not by the background work, not by a recovery
      that starts here and now. */
  lemma NothingNeededIsDeleted(states: seq<State>, steps: seq<Step>, i: nat)
    requires Run(states, steps) && i < |states|
    ensures forall f :: Needed(states[i], f) ==> f in states[i].disk
    ensures LogsReplayed(states[i])
  {
    hide Needed, Run;
    RunKeepsInv(states, steps, i);
  }

  /** And what is not needed goes: a collection dooms exactly the tables and logs that nobody needs, except
      for the outputs a compaction is writing. */
  lemma CollectIsExact(s: State, f: FileName)
    requires Inv(s) && Enabled(s, Collect) && f in s.disk && !f.Manifest?
    ensures f in After(s, Collect).doomed <==>
      !Needed(s, f) && !(f.Table? && s.compaction.Some? && f.number in s.compaction.value.outputs)
  {
    hide RefsCounted, Present, CurrentFiles, FlushIsFresh, DurableIs;
    if Needed(s, f) {
      NeededIsKept(s, f);
    }
  }

  /** It is the single worker that makes this safe.  WriteLevel0Table takes the new table off pending_outputs_
      before LogAndApply, which releases the mutex: a collection in that window would delete the table. */
  lemma OnlyOneWorkerIsSafe(start: State) returns (states: seq<State>, steps: seq<Step>, f: FileName)
    requires Start(start)
    ensures Run(states, steps) && states[0] == start && !states[|steps|].bgError
    ensures Needed(states[|steps|], f) && !Kept(states[|steps|], f)
  {
    hide Inv, FilesInv, RefsCounted, Present, Start;
    StartHolds(start);
    StartShape(start);
    var s1 := After(start, Switch);
    SwitchKeepsInv(start);
    var s2 := After(s1, StartFlush);
    StartFlushKeepsInv(s1);
    var s3 := After(s2, WriteTable);
    WriteTableKeepsInv(s2);
    var s4 := After(s3, FinishTable(false));
    states, steps := [start, s1, s2, s3, s4], [Switch, StartFlush, WriteTable, FinishTable(false)];
    f := Table(s2.flush.value.number);
    WindowIsOpen(s3);
  }

  lemma StartShape(s: State)
    requires Start(s)
    ensures s.immLog.None? && s.flush.None? && s.compaction.None? && !s.collecting && !s.bgError &&
      s.current in s.versions && s.pending == {}
  {
  }

  lemma WindowIsOpen(s: State)
    requires Inv(s) && Enabled(s, FinishTable(false)) && s.compaction.None?
    ensures var n := s.flush.value.number;
      Needed(After(s, FinishTable(false)), Table(n)) && !Kept(After(s, FinishTable(false)), Table(n))
  {
    hide RefsCounted, Present, CurrentFiles;
    var s' := After(s, FinishTable(false));
    assert forall n :: InVersion(s', n) ==> InVersion(s, n);
  }
}
