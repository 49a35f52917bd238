/** The manifest as a file: what VersionSet::LogAndApply and WriteSnapshot of db/version_set.cc write, down to the
  bytes, and what Recover makes of it wherever a crash cut it off. */
module ManifestFile {
  import opened Options
  import opened Coding
  import opened InternalKeys
  import opened Versions
  import opened VersionEdits
  import opened ManifestReplay
  import Codec = VersionEditCodec
  import Comparator
  import Log

  // ---- keys, files and edits as they are stored --------------------------------------------------

  /** User keys are points of an order in the model and byte strings in the file. */
  datatype Naming = Naming(encode: UserKey -> Bytes, decode: Bytes -> UserKey)

  /** The names tell this key from the others, and it is short enough to be stored. */
  ghost predicate Named(names: Naming, u: UserKey) {
    names.decode(names.encode(u)) == u && |names.encode(u)| + 8 < WORD32
  }

  function KeyBytes(names: Naming, k: IKey): Bytes {
    Comparator.InternalKey(names.encode(k.user), Pack(k.sequence, k.kind))
  }

  /** A key too short to hold a trailer is none; nothing is promised of it. */
  function KeyOf(names: Naming, key: Bytes): IKey {
    if |key| < 8 then IKey(names.decode(key), 0, Deletion)
    else
      TrailerIsBounded(key);
      var t := Comparator.Trailer(key);
      IKey(names.decode(Comparator.UserPart(key)), t / 256, if t % 256 == 0 then Deletion else Value)
  }

  lemma TrailerIsBounded(key: Bytes)
    requires |key| >= 8
    ensures Comparator.Trailer(key) / 256 <= MAX_SEQUENCE
  {
    hide Unfixed, Fixed;
    UnfixedIsBounded(key[|key| - 8..]);
    Widths();
  }

  lemma PackParts(sequence: SequenceNumber, kind: ValueType)
    ensures var t := Pack(sequence, kind); t < WORD64 && t / 256 == sequence && t % 256 == if kind.Value? then 1 else 0
  {
  }

  lemma KeyBack(names: Naming, k: IKey)
    requires Named(names, k.user)
    ensures 8 <= |KeyBytes(names, k)| < WORD32 && KeyOf(names, KeyBytes(names, k)) == k
  {
    hide Comparator.InternalKey, Comparator.Trailer, Comparator.UserPart, Pack;
    PackParts(k.sequence, k.kind);
    Comparator.InternalKeyParts(names.encode(k.user), Pack(k.sequence, k.kind));
  }

  /** What the table files on disk hold, by number. */
  type Disk = nat -> seq<Entry>

  function MetaOf(names: Naming, f: File): Codec.FileMeta {
    Codec.FileMeta(f.number, f.size, KeyBytes(names, f.smallest), KeyBytes(names, f.largest))
  }

  function FileOf(names: Naming, disk: Disk, m: Codec.FileMeta): File {
    File(m.number, m.size, KeyOf(names, m.smallest), KeyOf(names, m.largest), disk(m.number))
  }

  ghost predicate StoresFile(names: Naming, f: File) {
    f.number < WORD64 && f.size < WORD64 && Named(names, f.smallest.user) && Named(names, f.largest.user)
  }

  lemma FileBack(names: Naming, disk: Disk, f: File)
    requires StoresFile(names, f) && disk(f.number) == f.entries
    ensures FileOf(names, disk, MetaOf(names, f)) == f
  {
    hide KeyBytes, KeyOf;
    KeyBack(names, f.smallest);
    KeyBack(names, f.largest);
  }

  function MetasOf(names: Naming, added: seq<(nat, File)>): (r: seq<(nat, Codec.FileMeta)>)
    ensures |r| == |added|
  {
    seq(|added|, i requires 0 <= i < |added| => (added[i].0, MetaOf(names, added[i].1)))
  }

  function FilesOf(names: Naming, disk: Disk, added: seq<(nat, Codec.FileMeta)>): (r: seq<(nat, File)>)
    ensures |r| == |added|
  {
    seq(|added|, i requires 0 <= i < |added| => (added[i].0, FileOf(names, disk, added[i].1)))
  }

  /** deleted_files_ is a std::set: in order, each pair once. */
  function Listing(deleted: seq<(nat, nat)>): seq<(nat, nat)> {
    if |deleted| == 0 then [] else Codec.Insert(Listing(deleted[..|deleted| - 1]), deleted[|deleted| - 1])
  }

  lemma {:induction false} InsertLists(s: seq<(nat, nat)>, x: (nat, nat))
    requires Codec.Listed(s)
    ensures Codec.Listed(Codec.Insert(s, x)) && forall d :: d in Codec.Insert(s, x) <==> d in s || d == x
  {
    if |s| > 0 && !Codec.Before(x, s[0]) && x != s[0] {
      InsertLists(s[1..], x);
      assert s == [s[0]] + s[1..];
      var rest := Codec.Insert(s[1..], x);
      forall i | 0 <= i < |rest| ensures Codec.Before(s[0], rest[i]) {
        assert rest[i] in rest;
        if rest[i] in s[1..] {
          var j :| 0 <= j < |s[1..]| && s[1..][j] == rest[i];
          assert s[j + 1] == rest[i];
        }
      }
    } else if |s| > 0 {
      assert forall d :: d in [x] + s <==> d == x || d in s;
      assert s[0] in s;
    }
  }

  lemma {:induction false} ListingIs(deleted: seq<(nat, nat)>)
    ensures Codec.Listed(Listing(deleted)) && forall d :: d in Listing(deleted) <==> d in deleted
  {
    if |deleted| > 0 {
      var n := |deleted| - 1;
      ListingIs(deleted[..n]);
      InsertLists(Listing(deleted[..n]), deleted[n]);
      assert deleted == deleted[..n] + [deleted[n]];
    }
  }

  /** One record of the manifest with what only the file holds of it: the comparator and the compaction pointers. */
  datatype Written = Written(record: Record, comparator: Option<Bytes>, pointers: seq<(nat, Bytes)>)

  function EditRecordOf(names: Naming, w: Written): Codec.EditRecord {
    var c := w.record.counters;
    Codec.EditRecord(w.comparator, c.logNumber, c.prevLogNumber, c.nextFile, c.lastSequence, w.pointers,
                     Listing(w.record.edit.deleted), MetasOf(names, w.record.edit.added))
  }

  /** What the loop of Recover takes from a decoded edit. */
  function RecordOf(names: Naming, disk: Disk, e: Codec.EditRecord): Record {
    Record(Edit(e.deleted, FilesOf(names, disk, e.added)),
           Counters(e.logNumber, e.prevLogNumber, e.nextFileNumber, e.lastSequence))
  }

  function BytesOf(names: Naming, w: Written): Bytes {
    Codec.ItemsBytes(Codec.ItemsOf(EditRecordOf(names, w)))
  }

  function AllBytes(names: Naming, written: seq<Written>): (r: seq<Bytes>)
    ensures |r| == |written|
  {
    seq(|written|, i requires 0 <= i < |written| => BytesOf(names, written[i]))
  }

  function RecordsOf(written: seq<Written>): (r: seq<Record>)
    ensures |r| == |written|
  {
    seq(|written|, i requires 0 <= i < |written| => written[i].record)
  }

  /** 64-bit numbers, levels below 7, keys with names: what a VersionEdit can store. */
  ghost predicate Stores(names: Naming, w: Written) {
    (w.comparator.Some? ==> |w.comparator.value| < WORD32) && StoresEdit(names, w.record.edit) &&
    StoresCounters(w.record.counters) &&
    forall i :: 0 <= i < |w.pointers| ==> Codec.Storable(Codec.CompactPointer(w.pointers[i].0, w.pointers[i].1))
  }

  ghost predicate StoresCounters(c: Counters) {
    Codec.Fits(c.logNumber) && Codec.Fits(c.prevLogNumber) && Codec.Fits(c.nextFile) && Codec.Fits(c.lastSequence)
  }

  ghost predicate StoresEdit(names: Naming, edit: Edit) {
    (forall d :: d in edit.deleted ==> d.0 < NUM_LEVELS && d.1 < WORD64) &&
    forall a :: a in edit.added ==> a.0 < NUM_LEVELS && StoresFile(names, a.1)
  }

  /** The tables on disk are those the edit adds. */
  ghost predicate OnDisk(disk: Disk, edit: Edit) {
    forall a :: a in edit.added ==> disk(a.1.number) == a.1.entries
  }

  lemma CanStoreIt(names: Naming, w: Written)
    requires Stores(names, w)
    ensures Codec.CanStore(EditRecordOf(names, w)) && Codec.Listed(EditRecordOf(names, w).deleted)
  {
    hide KeyBytes, Listing, Named, Codec.Listed;
    var e, added := EditRecordOf(names, w), w.record.edit.added;
    ListingIs(w.record.edit.deleted);
    forall i | 0 <= i < |e.deleted| ensures Codec.Storable(Codec.DeletedFile(e.deleted[i].0, e.deleted[i].1)) {
      assert e.deleted[i] in e.deleted;
    }
    forall i | 0 <= i < |e.added| ensures Codec.Storable(Codec.NewFile(e.added[i].0, e.added[i].1)) {
      assert added[i] in added;
      KeyBack(names, added[i].1.smallest);
      KeyBack(names, added[i].1.largest);
    }
  }

  /** A record that is written and decoded is the same record, with its deletions in order. */
  lemma RecordBack(names: Naming, disk: Disk, w: Written)
    requires Stores(names, w) && OnDisk(disk, w.record.edit)
    ensures Codec.Decode(BytesOf(names, w), 0, Codec.CLEARED) == Some(EditRecordOf(names, w))
    ensures var r := RecordOf(names, disk, EditRecordOf(names, w));
      r.counters == w.record.counters && r.edit == Edit(Listing(w.record.edit.deleted), w.record.edit.added)
  {
    hide Listing, StoresFile, MetaOf, FileOf, Codec.CanStore, Codec.Listed, Codec.Decode, Codec.ItemsBytes;
    hide Codec.ItemsOf;
    CanStoreIt(names, w);
    Codec.EditRoundTrip(EditRecordOf(names, w));
    var added := w.record.edit.added;
    forall i | 0 <= i < |added| ensures FilesOf(names, disk, MetasOf(names, added))[i] == added[i] {
      assert added[i] in added;
      FileBack(names, disk, added[i].1);
    }
    assert FilesOf(names, disk, MetasOf(names, added)) == added;
  }

  /** The order in which an edit lists its deletions makes no difference. */
  lemma ListingApplies(st: LevelState, edit: Edit, level: nat)
    ensures Applied(st, Edit(Listing(edit.deleted), edit.added), level) == Applied(st, edit, level)
  {
    hide WithAdded, WithDeleted, Listing;
    ListingIs(edit.deleted);
    WithDeletedIs(st, edit.deleted, level);
    WithDeletedIs(st, Listing(edit.deleted), level);
    assert DeletedAt(Listing(edit.deleted), level) == DeletedAt(edit.deleted, level);
  }

  // ---- reading ---------------------------------------------------------------------------------------

  /** What the records read so far come to, or the status that ends the loop of Recover. */
  datatype Scan = Going(records: seq<Record>, pointers: seq<Bytes>) | Stopped(status: Recovery)

  const NO_POINTERS: seq<Bytes> := [[], [], [], [], [], [], []]

  /** compact_pointer_ of every level once Builder::Apply has seen the pointers of an edit. */
  function Pointed(pointers: seq<Bytes>, moves: seq<(nat, Bytes)>): (r: seq<Bytes>)
    ensures |r| == |pointers|
  {
    if |moves| == 0 then pointers
    else
      var n := |moves| - 1;
      var before := Pointed(pointers, moves[..n]);
      if moves[n].0 < |pointers| then before[moves[n].0 := moves[n].1] else before
  }

  function ScanOne(names: Naming, disk: Disk, comparator: Bytes, records: seq<Record>, pointers: seq<Bytes>,
                   data: Bytes): Scan {
    match Codec.Decode(data, 0, Codec.CLEARED)
    case None => Stopped(Recovery.Corruption("VersionEdit"))
    case Some(e) =>
      if e.comparator.Some? && e.comparator.value != comparator
      then Stopped(InvalidArgument("does not match existing comparator"))
      else Going(records + [RecordOf(names, disk, e)], Pointed(pointers, e.compactPointers))
  }

  function ScanAll(names: Naming, disk: Disk, comparator: Bytes, data: seq<Bytes>): Scan {
    if |data| == 0 then Going([], NO_POINTERS)
    else
      var before := ScanAll(names, disk, comparator, data[..|data| - 1]);
      if before.Stopped? then before
          else ScanOne(names, disk, comparator, before.records, before.pointers, data[|data| - 1])
  }

  ghost function Outcome(scan: Scan): Recovery {
    match scan
    case Stopped(status) => status
    case Going(records, _) => RecoverySpec(records)
  }

  ghost predicate LevelsBelow(e: Codec.EditRecord) {
    (forall i :: 0 <= i < |e.compactPointers| ==> e.compactPointers[i].0 < NUM_LEVELS) &&
    (forall d :: d in e.deleted ==> d.0 < NUM_LEVELS) && forall i :: 0 <= i < |e.added| ==> e.added[i].0 < NUM_LEVELS
  }

  ghost predicate LevelBelow(item: Codec.Item) {
    match item
    case CompactPointer(level, _) => level < NUM_LEVELS
    case DeletedFile(level, _) => level < NUM_LEVELS
    case NewFile(level, _) => level < NUM_LEVELS
    case _ => true
  }

  lemma ReadBelow(tag: nat, data: Bytes, p: nat)
    requires p <= |data| && Codec.ReadItem(tag, data, p).Some?
    ensures LevelBelow(Codec.ReadItem(tag, data, p).value.value)
  {
    hide GetVarint, GetPrefixed;
  }

  lemma {:induction false} InsertHolds(s: seq<(nat, nat)>, x: (nat, nat))
    ensures forall d :: d in Codec.Insert(s, x) ==> d in s || d == x
  {
    if |s| > 0 && !Codec.Before(x, s[0]) && x != s[0] {
      InsertHolds(s[1..], x);
    }
  }

  lemma WithBelow(e: Codec.EditRecord, item: Codec.Item)
    requires LevelsBelow(e) && LevelBelow(item)
    ensures LevelsBelow(Codec.With(e, item))
  {
    hide Codec.Insert;
    if item.DeletedFile? {
      InsertHolds(e.deleted, (item.level, item.number));
    }
  }

  /** GetLevel lets no other level through. */
  lemma {:induction false} DecodedBelow(data: Bytes, p: nat, e: Codec.EditRecord)
    requires p <= |data| && LevelsBelow(e)
    ensures Codec.Decode(data, p, e).Some? ==> LevelsBelow(Codec.Decode(data, p, e).value)
    decreases |data| - p
  {
    hide GetVarint, LevelsBelow, Codec.ReadItem, Codec.With, LevelBelow, Codec.Decode;
    var tag := GetVarint(data, p, |data|, false);
    if tag.Some? {
      Codec.DecodeStep(data, p, e);
      var r := Codec.ReadItem(tag.value.value, data, tag.value.next);
      if r.Some? {
        ReadBelow(tag.value.value, data, tag.value.next);
        WithBelow(e, r.value.value);
        DecodedBelow(data, r.value.next, Codec.With(e, r.value.value));
      }
    } else {
      Codec.DecodeEnd(data, p, e);
    }
  }

  lemma EditInRange(names: Naming, disk: Disk, e: Codec.EditRecord)
    requires LevelsBelow(e)
    ensures LevelsInRange(RecordOf(names, disk, e).edit)
  {
    hide FileOf;
  }

  method MovePointers(pointers: seq<Bytes>, moves: seq<(nat, Bytes)>) returns (r: seq<Bytes>)
    requires forall i :: 0 <= i < |moves| ==> moves[i].0 < |pointers|
    ensures r == Pointed(pointers, moves)
  {
    r := pointers;
    for i := 0 to |moves|
      invariant r == Pointed(pointers, moves[..i])
    {
      assert moves[..i + 1][..i] == moves[..i];
      r := r[moves[i].0 := moves[i].1];
    }
    assert moves[..|moves|] == moves;
  }

  lemma NothingReplayed()
    ensures LastCounters([]) == NONE && forall l :: 0 <= l < NUM_LEVELS ==> Replay(EMPTY, EditsOf([]), l) == EMPTY
  {
  }

  lemma ClearedIsBelow()
    ensures LevelsBelow(Codec.CLEARED)
  {
  }

  lemma {:induction false} StaysStopped(names: Naming, disk: Disk, comparator: Bytes, data: seq<Bytes>, i: nat)
    requires i <= |data| && ScanAll(names, disk, comparator, data[..i]).Stopped?
    ensures ScanAll(names, disk, comparator, data) == ScanAll(names, disk, comparator, data[..i])
    decreases |data|
  {
    hide ScanOne;
    if i < |data| {
      assert data[..|data| - 1][..i] == data[..i];
      StaysStopped(names, disk, comparator, data[..|data| - 1], i);
    } else {
      assert data[..i] == data;
    }
  }

  lemma ScanMore(names: Naming, disk: Disk, comparator: Bytes, data: seq<Bytes>, i: nat, records: seq<Record>,
                 pointers: seq<Bytes>)
    requires i < |data| && ScanAll(names, disk, comparator, data[..i]) == Going(records, pointers)
    ensures var now := ScanOne(names, disk, comparator, records, pointers, data[i]);
      ScanAll(names, disk, comparator, data[..i + 1]) == now &&
      (now.Stopped? ==> ScanAll(names, disk, comparator, data) == now)
  {
    hide ScanOne;
    assert data[..i + 1][..i] == data[..i];
    if ScanOne(names, disk, comparator, records, pointers, data[i]).Stopped? {
      StaysStopped(names, disk, comparator, data, i + 1);
    }
  }

  lemma ReplayMore(records: seq<Record>, record: Record)
    ensures var before, c := LastCounters(records), record.counters;
      LastCounters(records + [record]) ==
      Counters(Later(before.logNumber, c.logNumber), Later(before.prevLogNumber, c.prevLogNumber),
               Later(before.nextFile, c.nextFile), Later(before.lastSequence, c.lastSequence))
    ensures forall l :: 0 <= l < NUM_LEVELS ==>
      Replay(EMPTY, EditsOf(records + [record]), l) == Applied(Replay(EMPTY, EditsOf(records), l), record.edit, l)
  {
    hide Applied, Replay;
    assert (records + [record])[..|records|] == records;
    assert EditsOf(records + [record]) == EditsOf(records) + [record.edit];
    forall l | 0 <= l < NUM_LEVELS
      ensures Replay(EMPTY, EditsOf(records + [record]), l) ==
        Applied(Replay(EMPTY, EditsOf(records), l), record.edit, l)
    {
      ReplayAppend(EMPTY, EditsOf(records), record.edit, l);
    }
  }

  /** What follows the loop of Recover: three counters must have been recorded. */
  method FinishRecover(builder: Builder, c: Counters, ghost records: seq<Record>) returns (r: Recovery)
    requires |builder.base| == builder.levels.Length == NUM_LEVELS && builder.base == seq(NUM_LEVELS, i => [])
    requires c == LastCounters(records) &&
      forall l :: 0 <= l < NUM_LEVELS ==> builder.levels[l] == Replay(EMPTY, EditsOf(records), l)
    ensures r == RecoverySpec(records)
  {
    hide Replay, Saved, LastCounters;
    if c.nextFile.None? {
      return Recovery.Corruption("no meta-nextfile entry in descriptor");
    } else if c.logNumber.None? {
      return Recovery.Corruption("no meta-lognumber entry in descriptor");
    } else if c.lastSequence.None? {
      return Recovery.Corruption("no last-sequence-number entry in descriptor");
    }
    var v := builder.SaveTo();
    r := Recovered(v, c.logNumber.value, if c.prevLogNumber.Some? then c.prevLogNumber.value else 0,
                   c.nextFile.value, c.lastSequence.value);
    assert v == seq(NUM_LEVELS, l requires 0 <= l < NUM_LEVELS => Saved([], Replay(EMPTY, EditsOf(records), l)));
  }

  /** The loop of Recover and what follows it: every edit into one builder on the empty version, the last counters, one
    SaveTo.  A record that does not decode, or that names another comparator, ends it. */
  method ReplayRecords(names: Naming, disk: Disk, comparator: Bytes, data: seq<Bytes>)
      returns (r: Recovery, pointers: seq<Bytes>)
    ensures var scan := ScanAll(names, disk, comparator, data);
      r == Outcome(scan) && (scan.Going? ==> pointers == scan.pointers)
  {
    hide Pointed, Applied, LevelsBelow, LevelsInRange, FilesOf, Replay, Codec.Decode, LastCounters, ScanAll;
    hide EditsOf, RecoverySpec;
    var builder := new Builder(seq(NUM_LEVELS, i => []));
    var c := NONE;
    pointers := NO_POINTERS;
    ghost var records: seq<Record> := [];
    NothingReplayed();
    NothingScanned(names, disk, comparator, data);
    for i := 0 to |data|
      invariant fresh(builder.levels) && builder.base == seq(NUM_LEVELS, i => []) && builder.levels.Length == NUM_LEVELS
      invariant ScanAll(names, disk, comparator, data[..i]) == Going(records, pointers)
      invariant c == LastCounters(records) && |pointers| == NUM_LEVELS
      invariant forall l :: 0 <= l < NUM_LEVELS ==> builder.levels[l] == Replay(EMPTY, EditsOf(records), l)
    {
      var edit := new Codec.VersionEdit();
      var ok := edit.DecodeFrom(data[i]);
      ScanMore(names, disk, comparator, data, i, records, pointers);
      if !ok {
        return Recovery.Corruption("VersionEdit"), pointers;
      }
      var e := edit.AsRecord();
      if e.comparator.Some? && e.comparator.value != comparator {
        return InvalidArgument("does not match existing comparator"), pointers;
      }
      c, pointers := TakeEdit(builder, names, disk, data[i], e, c, pointers, records);
      records := records + [RecordOf(names, disk, e)];
    }
    assert data[..|data|] == data;
    r := FinishRecover(builder, c, records);
  }

  /** One decoded edit: into the builder, and the counters and pointers it carries are the last ones now. */
  method TakeEdit(builder: Builder, names: Naming, disk: Disk, ghost data: Bytes, e: Codec.EditRecord, c: Counters,
                  pointers: seq<Bytes>, ghost records: seq<Record>)
      returns (c': Counters, pointers': seq<Bytes>)
    requires |builder.base| == builder.levels.Length == NUM_LEVELS == |pointers| &&
      Codec.Decode(data, 0, Codec.CLEARED) == Some(e)
    requires c == LastCounters(records) &&
      forall l :: 0 <= l < NUM_LEVELS ==> builder.levels[l] == Replay(EMPTY, EditsOf(records), l)
    modifies builder.levels
    ensures pointers' == Pointed(pointers, e.compactPointers)
    ensures var now := records + [RecordOf(names, disk, e)];
      c' == LastCounters(now) && forall l :: 0 <= l < NUM_LEVELS ==> builder.levels[l] == Replay(EMPTY, EditsOf(now), l)
  {
    hide Pointed, Applied, Replay, Codec.Decode, LastCounters, FilesOf;
    ClearedIsBelow();
    DecodedBelow(data, 0, Codec.CLEARED);
    EditInRange(names, disk, e);
    builder.Apply(Edit(e.deleted, FilesOf(names, disk, e.added)));
    pointers' := MovePointers(pointers, e.compactPointers);
    c' := Counters(Later(c.logNumber, e.logNumber), Later(c.prevLogNumber, e.prevLogNumber),
                   Later(c.nextFile, e.nextFileNumber), Later(c.lastSequence, e.lastSequence));
    ReplayMore(records, RecordOf(names, disk, e));
  }

  lemma NothingScanned(names: Naming, disk: Disk, comparator: Bytes, data: seq<Bytes>)
    ensures ScanAll(names, disk, comparator, data[..0]) == Going([], NO_POINTERS)
  {
  }

  // ---- what was written, read back ---------------------------------------------------------------------

  /** Everything in the records can be stored, and the tables they name are on disk. */
  ghost predicate Intact(names: Naming, disk: Disk, written: seq<Written>) {
    forall i :: 0 <= i < |written| ==> Stores(names, written[i]) && OnDisk(disk, written[i].record.edit)
  }

  ghost predicate OtherComparator(comparator: Bytes, w: Written) {
    w.comparator.Some? && w.comparator.value != comparator
  }

  /** Some record was written under another comparator. */
  ghost predicate Refused(comparator: Bytes, written: seq<Written>) {
    exists i :: 0 <= i < |written| && OtherComparator(comparator, written[i])
  }

  lemma NoneRefused(comparator: Bytes)
    ensures !Refused(comparator, [])
  {
  }

  lemma RefusedMore(comparator: Bytes, written: seq<Written>)
    requires |written| > 0
    ensures var n := |written| - 1;
      Refused(comparator, written) <==> Refused(comparator, written[..n]) || OtherComparator(comparator, written[n])
  {
    hide OtherComparator;
    var n := |written| - 1;
    if i :| 0 <= i < n && OtherComparator(comparator, written[..n][i]) {
      assert OtherComparator(comparator, written[i]);
    }
  }

  function PointersAfter(written: seq<Written>): (r: seq<Bytes>)
    ensures |r| == NUM_LEVELS
  {
    if |written| == 0 then NO_POINTERS
    else Pointed(PointersAfter(written[..|written| - 1]), written[|written| - 1].pointers)
  }

  /** What opening the database must find: the version and the counters the records lead to, unless one of them was
    written under another comparator. */
  ghost function ReopenSpec(comparator: Bytes, written: seq<Written>): Recovery {
    if Refused(comparator, written) then InvalidArgument("does not match existing comparator")
    else RecoverySpec(RecordsOf(written))
  }

  /** The records with their deletions in order. */
  function InOrder(written: seq<Written>): (r: seq<Record>)
    ensures |r| == |written|
  {
    seq(|written|, i requires 0 <= i < |written| =>
      Record(Edit(Listing(written[i].record.edit.deleted), written[i].record.edit.added), written[i].record.counters))
  }

  lemma {:induction false} WrittenScans(names: Naming, disk: Disk, comparator: Bytes, written: seq<Written>)
    requires Intact(names, disk, written)
    ensures var scan := ScanAll(names, disk, comparator, AllBytes(names, written));
      if Refused(comparator, written) then scan == Stopped(InvalidArgument("does not match existing comparator"))
      else scan == Going(InOrder(written), PointersAfter(written))
  {
    hide Stores, OnDisk, Codec.Decode, BytesOf, EditRecordOf, RecordOf, Listing, Pointed, Refused;
    if |written| > 0 {
      var n := |written| - 1;
      var front, w := written[..n], written[n];
      WrittenScans(names, disk, comparator, front);
      assert AllBytes(names, written)[..n] == AllBytes(names, front);
      RecordBack(names, disk, w);
      EditRecordFields(names, w);
      RefusedMore(comparator, written);
      assert InOrder(written) == InOrder(front) + [RecordOf(names, disk, EditRecordOf(names, w))];
    } else {
      NoneRefused(comparator);
      assert written == [];
    }
  }

  lemma EditRecordFields(names: Naming, w: Written)
    ensures EditRecordOf(names, w).comparator == w.comparator && EditRecordOf(names, w).compactPointers == w.pointers
  {
  }

  lemma {:induction false} InOrderReplays(written: seq<Written>, level: nat)
    ensures Replay(EMPTY, EditsOf(InOrder(written)), level) == Replay(EMPTY, EditsOf(RecordsOf(written)), level)
    ensures LastCounters(InOrder(written)) == LastCounters(RecordsOf(written))
  {
    hide Replay, Applied, Listing;
    if |written| > 0 {
      var n := |written| - 1;
      InOrderReplays(written[..n], level);
      var edit := written[n].record.edit;
      var listed := Edit(Listing(edit.deleted), edit.added);
      assert InOrder(written)[..n] == InOrder(written[..n]) && RecordsOf(written)[..n] == RecordsOf(written[..n]);
      assert EditsOf(InOrder(written)) == EditsOf(InOrder(written[..n])) + [listed];
      assert EditsOf(RecordsOf(written)) == EditsOf(RecordsOf(written[..n])) + [edit];
      ReplayAppend(EMPTY, EditsOf(InOrder(written[..n])), listed, level);
      ReplayAppend(EMPTY, EditsOf(RecordsOf(written[..n])), edit, level);
      ListingApplies(Replay(EMPTY, EditsOf(RecordsOf(written[..n])), level), edit, level);
    } else {
      assert InOrder(written) == RecordsOf(written);
    }
  }

  lemma InOrderRecovers(written: seq<Written>)
    ensures RecoverySpec(InOrder(written)) == RecoverySpec(RecordsOf(written))
  {
    hide Replay, EditsOf, LastCounters, InOrder, RecordsOf, Saved;
    var a, b := InOrder(written), RecordsOf(written);
    forall l | 0 <= l < NUM_LEVELS ensures Replay(EMPTY, EditsOf(a), l) == Replay(EMPTY, EditsOf(b), l) {
      InOrderReplays(written, l);
    }
    InOrderReplays(written, 0);
    assert seq(NUM_LEVELS, l requires 0 <= l < NUM_LEVELS => Saved([], Replay(EMPTY, EditsOf(a), l))) ==
           seq(NUM_LEVELS, l requires 0 <= l < NUM_LEVELS => Saved([], Replay(EMPTY, EditsOf(b), l)));
  }

  /** VersionSet::Recover on a manifest that a crash cut off anywhere: exactly the records that are wholly in the file
    count, and they are replayed to what they said. */
  method Recover(file: Bytes, sum: Log.Checksum, comparator: Bytes, names: Naming, disk: Disk,
                 ghost written: seq<Written>)
      returns (r: Recovery, pointers: seq<Bytes>, ghost m: nat)
    requires file <= Log.FileOf(sum, AllBytes(names, written)) && Intact(names, disk, written)
    ensures Log.WhollyKept(sum, AllBytes(names, written), |file|, m) && m <= |written|
    ensures r == ReopenSpec(comparator, written[..m]) &&
      (!r.InvalidArgument? ==> pointers == PointersAfter(written[..m]))
  {
    hide Log.WhollyKept, Log.FileOf, Stores, OnDisk, ScanAll, RecoverySpec, PointersAfter, Refused;
    var records, drops := Log.ReadLog(file, sum, AllBytes(names, written));
    m := |records|;
    KeptIsBounded(sum, AllBytes(names, written), |file|, m);
    assert records == AllBytes(names, written[..m]);
    WrittenScans(names, disk, comparator, written[..m]);
    InOrderRecovers(written[..m]);
    NeverInvalid(RecordsOf(written[..m]));
    r, pointers := ReplayRecords(names, disk, comparator, records);
  }

  lemma KeptIsBounded(sum: Log.Checksum, records: seq<Bytes>, length: nat, m: nat)
    requires Log.WhollyKept(sum, records, length, m)
    ensures m <= |records|
  {
  }

  lemma NeverInvalid(records: seq<Record>)
    ensures !RecoverySpec(records).InvalidArgument?
  {
  }

  // ---- writing -------------------------------------------------------------------------------------------

  /** The pointers WriteSnapshot saves: those that are set. */
  function PointerList(pointers: seq<Bytes>, levels: nat): seq<(nat, Bytes)>
    requires levels <= |pointers|
  {
    if levels == 0 then []
    else
      PointerList(pointers, levels - 1) +
      (if pointers[levels - 1] == [] then [] else [(levels - 1, pointers[levels - 1])])
  }

  lemma {:induction false} PointersSaved(pointers: seq<Bytes>, levels: nat)
    requires levels <= |pointers| == NUM_LEVELS
    ensures forall l :: 0 <= l < NUM_LEVELS ==>
      Pointed(NO_POINTERS, PointerList(pointers, levels))[l] == if l < levels then pointers[l] else []
  {
    if levels > 0 {
      PointersSaved(pointers, levels - 1);
      var before, list := PointerList(pointers, levels - 1), PointerList(pointers, levels);
      if pointers[levels - 1] != [] {
        assert list[..|list| - 1] == before;
      } else {
        assert list == before;
      }
    }
    assert forall l :: 0 <= l < NUM_LEVELS ==> NO_POINTERS[l] == [];
  }

  ghost predicate StoresPointers(pointers: seq<Bytes>) {
    |pointers| == NUM_LEVELS && forall l :: 0 <= l < NUM_LEVELS ==> |pointers[l]| < WORD32
  }

  ghost predicate StoresMoves(moves: seq<(nat, Bytes)>) {
    forall i :: 0 <= i < |moves| ==> Codec.Storable(Codec.CompactPointer(moves[i].0, moves[i].1))
  }

  lemma {:induction false} PointersAreStored(pointers: seq<Bytes>, levels: nat)
    requires StoresPointers(pointers) && levels <= NUM_LEVELS
    ensures StoresMoves(PointerList(pointers, levels))
  {
    if levels > 0 {
      PointersAreStored(pointers, levels - 1);
    }
  }

  lemma {:induction false} MovesAreStored(pointers: seq<Bytes>, moves: seq<(nat, Bytes)>)
    requires StoresPointers(pointers) && StoresMoves(moves)
    ensures StoresPointers(Pointed(pointers, moves))
  {
    if |moves| > 0 {
      MovesAreStored(pointers, moves[..|moves| - 1]);
    }
  }

  ghost predicate StoresVersion(names: Naming, v: Version) {
    forall l, f :: 0 <= l < |v| && f in v[l] ==> StoresFile(names, f)
  }

  lemma SnapshotIsStored(names: Naming, v: Version)
    requires |v| == NUM_LEVELS && StoresVersion(names, v)
    ensures StoresEdit(names, Edit([], SnapshotFiles(v, NUM_LEVELS)))
  {
    hide StoresFile, SnapshotFiles;
    var added := SnapshotFiles(v, NUM_LEVELS);
    SnapshotHolds(v, NUM_LEVELS, 0);
    forall a | a in added ensures a.0 < NUM_LEVELS && StoresFile(names, a.1) {
      var i :| 0 <= i < |added| && added[i] == a;
      SnapshotHolds(v, NUM_LEVELS, a.0);
      assert a.1 in AddedAt(added, a.0);
    }
  }

  lemma InstalledIsStored(names: Naming, v: Version, edit: Edit, used: seq<set<nat>>)
    requires |v| == NUM_LEVELS && StoresVersion(names, v) && StoresEdit(names, edit) && AddsFresh(edit, used)
    requires forall l :: 0 <= l < NUM_LEVELS ==> Ordered(v[l]) && Numbers(v[l]) <= used[l]
    ensures StoresVersion(names, Installed(v, edit))
  {
    hide StoresFile, Saved, Applied, Ordered, AddsOnce;
    forall l, f | 0 <= l < NUM_LEVELS && f in Installed(v, edit)[l] ensures StoresFile(names, f) {
      InstalledHolds(v, edit, used, l, f);
    }
  }

  /** No file comes from anywhere but the version before and the edit. */
  lemma InstalledHolds(v: Version, edit: Edit, used: seq<set<nat>>, l: nat, f: File)
    requires |v| == NUM_LEVELS && AddsFresh(edit, used) && l < NUM_LEVELS && Ordered(v[l]) && Numbers(v[l]) <= used[l]
    requires f in Installed(v, edit)[l]
    ensures f in v[l] || f in AddedAt(edit.added, l)
  {
    hide Saved, Applied, Ordered, AddsOnce;
    var st := Applied(EMPTY, edit, l);
    EmptyIsOrdered();
    AppliedIs(EMPTY, edit, l);
    StaysApart(v[l], edit, l, st, used[l]);
    SavedIs(v[l], st);
  }

  lemma StaysApart(files: seq<File>, edit: Edit, l: nat, st: LevelState, used: set<nat>)
    requires Numbers(files) <= used && NumbersOf(AddedAt(edit.added, l)) !! used
    requires forall f :: f in st.added <==> f in EMPTY.added || f in AddedAt(edit.added, l)
    ensures VersionEdits.Foreign(files, st.added)
  {
    forall f, g | f in files && g in st.added ensures f.number != g.number {
      assert f.number in Numbers(files) && g.number in NumbersOf(AddedAt(edit.added, l));
    }
  }

  /** The VersionEdit object filled by DeleteFile, AddFile and the setters, and encoded. */
  method Encode(names: Naming, edit: Edit, c: Counters, comparator: Option<Bytes>, moves: seq<(nat, Bytes)>)
      returns (r: Bytes)
    requires Stores(names, Written(Record(edit, c), comparator, moves))
    ensures r == BytesOf(names, Written(Record(edit, c), comparator, moves))
  {
    hide Stores, MetaOf, Codec.CanStore, Codec.ItemsOf, Codec.ItemsBytes, Codec.Insert;
    var e := new Codec.VersionEdit();
    e.comparator, e.logNumber, e.prevLogNumber := comparator, c.logNumber, c.prevLogNumber;
    e.nextFileNumber, e.lastSequence, e.compactPointers := c.nextFile, c.lastSequence, moves;
    for i := 0 to |edit.deleted|
      invariant e.AsRecord() ==
        Codec.EditRecord(comparator, c.logNumber, c.prevLogNumber, c.nextFile, c.lastSequence, moves,
                         Listing(edit.deleted[..i]), [])
    {
      assert edit.deleted[..i + 1][..i] == edit.deleted[..i];
      e.deleted := Codec.Insert(e.deleted, edit.deleted[i]);
    }
    assert edit.deleted[..|edit.deleted|] == edit.deleted;
    for i := 0 to |edit.added|
      invariant e.AsRecord() ==
        Codec.EditRecord(comparator, c.logNumber, c.prevLogNumber, c.nextFile, c.lastSequence, moves,
                                                 Listing(edit.deleted), MetasOf(names, edit.added)[..i])
    {
      e.added := e.added + [(edit.added[i].0, MetaOf(names, edit.added[i].1))];
    }
    assert MetasOf(names, edit.added)[..|edit.added|] == MetasOf(names, edit.added);
    CanStoreIt(names, Written(Record(edit, c), comparator, moves));
    r := e.EncodeTo();
  }

  /** A snapshot alone sets no counters. */
  const NOT_YET := Recovery.Corruption("no meta-nextfile entry in descriptor")

  function SnapshotOf(v: Version, comparator: Bytes, pointers: seq<Bytes>): Written
    requires |v| == NUM_LEVELS == |pointers|
  {
    Written(Record(Edit([], SnapshotFiles(v, NUM_LEVELS)), NONE), Some(comparator), PointerList(pointers, NUM_LEVELS))
  }

  ghost predicate AllStored(names: Naming, written: seq<Written>) {
    forall i :: 0 <= i < |written| ==> Stores(names, written[i])
  }

  /** The first i + 1 records lead to past[i]. */
  ghost predicate Leads(written: seq<Written>, past: seq<Recovery>) {
    |past| == |written| && forall i :: 0 <= i < |past| ==> past[i] == RecoverySpec(RecordsOf(written[..i + 1]))
  }

  lemma LeadsMore(written: seq<Written>, past: seq<Recovery>, w: Written, r: Recovery)
    requires Leads(written, past) && r == RecoverySpec(RecordsOf(written + [w]))
    ensures Leads(written + [w], past + [r])
  {
    hide RecoverySpec, RecordsOf;
    forall i | 0 <= i <= |past| ensures (past + [r])[i] == RecoverySpec(RecordsOf((written + [w])[..i + 1])) {
      if i < |past| {
        assert (written + [w])[..i + 1] == written[..i + 1] && past[i] == (past + [r])[i];
      } else {
        assert (written + [w])[..i + 1] == written + [w];
      }
    }
  }

  lemma SnapshotIsNotYet(w: Written)
    requires w.record.counters == NONE
    ensures Leads([w], [NOT_YET])
  {
    hide Saved, Replay;
    var records := RecordsOf([w]);
    assert [w][..1] == [w] && records[0].counters == NONE;
    assert LastCounters(records[..0]) == NONE;
    assert LastCounters(records) == NONE;
  }

  /** Whatever the level was pointed at before, pointing it twice is pointing it once. */
  lemma {:induction false} PointedAt(p: seq<Bytes>, q: seq<Bytes>, moves: seq<(nat, Bytes)>, l: nat)
    requires l < |p| == |q|
    ensures Pointed(p, moves)[l] == Pointed(q, moves)[l] ||
      (Pointed(p, moves)[l] == p[l] && Pointed(q, moves)[l] == q[l])
  {
    if |moves| > 0 {
      PointedAt(p, q, moves[..|moves| - 1], l);
    }
  }

  lemma PointedTwice(p: seq<Bytes>, moves: seq<(nat, Bytes)>)
    ensures Pointed(Pointed(p, moves), moves) == Pointed(p, moves)
  {
    var q := Pointed(p, moves);
    forall l | 0 <= l < |p| ensures Pointed(q, moves)[l] == q[l] {
      PointedAt(p, q, moves, l);
    }
  }

  method SavedPointers(pointers: seq<Bytes>) returns (moves: seq<(nat, Bytes)>)
    ensures moves == PointerList(pointers, |pointers|)
  {
    moves := [];
    for level := 0 to |pointers|
      invariant moves == PointerList(pointers, level)
    {
      if pointers[level] != [] {
        moves := moves + [(level, pointers[level])];
      }
    }
  }

  lemma SnapshotStores(names: Naming, v: Version, comparator: Bytes, pointers: seq<Bytes>)
    requires |v| == NUM_LEVELS && StoresVersion(names, v) && |comparator| < WORD32 && StoresPointers(pointers)
    ensures Stores(names, SnapshotOf(v, comparator, pointers))
  {
    hide SnapshotFiles, StoresEdit;
    SnapshotIsStored(names, v);
    PointersAreStored(pointers, NUM_LEVELS);
  }

  lemma OneMoreRecord(sum: Log.Checksum, names: Naming, written: seq<Written>, w: Written)
    ensures var file := Log.FileOf(sum, AllBytes(names, written));
      Log.FileOf(sum, AllBytes(names, written + [w])) == file + Log.Emitted(sum, |file|, BytesOf(names, w), true)
  {
    hide Log.Emitted, BytesOf;
    assert AllBytes(names, written + [w])[..|written|] == AllBytes(names, written);
  }

  lemma PointersMore(written: seq<Written>, w: Written)
    ensures PointersAfter(written + [w]) == Pointed(PointersAfter(written), w.pointers)
  {
    hide Pointed;
    assert (written + [w])[..|written|] == written;
  }

  lemma NotRefusedMore(comparator: Bytes, written: seq<Written>, w: Written)
    ensures Refused(comparator, written + [w]) <==> Refused(comparator, written) || OtherComparator(comparator, w)
  {
    hide Refused;
    RefusedMore(comparator, written + [w]);
    assert (written + [w])[..|written|] == written;
  }

  /** The file holds exactly these records, and they lead to these versions and pointers. */
  ghost predicate Holds(names: Naming, sum: Log.Checksum, comparator: Bytes, file: Bytes, pointers: seq<Bytes>,
                        written: seq<Written>, past: seq<Recovery>) {
    file == Log.FileOf(sum, AllBytes(names, written)) && !Refused(comparator, written) &&
    pointers == PointersAfter(written) &&
    AllStored(names, written) && Leads(written, past)
  }

  lemma HoldsMore(names: Naming, sum: Log.Checksum, comparator: Bytes, file: Bytes, pointers: seq<Bytes>,
                  written: seq<Written>, past: seq<Recovery>, w: Written)
    requires Holds(names, sum, comparator, file, pointers, written, past) && Stores(names, w) &&
      !OtherComparator(comparator, w)
    ensures Holds(names, sum, comparator, file + Log.Emitted(sum, |file|, BytesOf(names, w), true),
                  Pointed(pointers, w.pointers),
                  written + [w], past + [RecoverySpec(RecordsOf(written + [w]))])
  {
    hide Stores, BytesOf, Pointed, Log.Emitted, Log.FileOf, RecoverySpec, Refused, Leads, OtherComparator;
    OneMoreRecord(sum, names, written, w);
    PointersMore(written, w);
    NotRefusedMore(comparator, written, w);
    LeadsMore(written, past, w, RecoverySpec(RecordsOf(written + [w])));
  }

  /** The snapshot that starts a manifest. */
  lemma SnapshotStarts(names: Naming, sum: Log.Checksum, v: Version, comparator: Bytes, pointers: seq<Bytes>)
    requires |v| == NUM_LEVELS && StoresVersion(names, v) && |comparator| < WORD32 && StoresPointers(pointers)
    ensures var w := SnapshotOf(v, comparator, pointers);
      Holds(names, sum, comparator, Log.FileOf(sum, AllBytes(names, [w])), pointers, [w], [NOT_YET])
  {
    hide Stores, SnapshotFiles, PointerList, Pointed, Refused, BytesOf, Log.FileOf, Leads;
    var w := SnapshotOf(v, comparator, pointers);
    SnapshotStores(names, v, comparator, pointers);
    SnapshotIsNotYet(w);
    assert [] + [w] == [w];
    NoneRefused(comparator);
    NotRefusedMore(comparator, [], w);
    PointersMore([], w);
    PointersSaved(pointers, NUM_LEVELS);
    assert PointersAfter([w]) == pointers;
  }

  lemma MovesAreInRange(moves: seq<(nat, Bytes)>)
    requires StoresMoves(moves)
    ensures forall i :: 0 <= i < |moves| ==> moves[i].0 < NUM_LEVELS
  {
  }

  lemma CurrentIsStocked(versions: VersionSet)
    requires versions.Valid()
    ensures forall l :: 0 <= l < NUM_LEVELS ==>
      Ordered(versions.current[l]) && Numbers(versions.current[l]) <= versions.used[l]
  {
    hide Saved, Ordered, Replay;
    if versions.manifest.Some? {
      forall l | 0 <= l < NUM_LEVELS
        ensures Ordered(versions.current[l]) && Numbers(versions.current[l]) <= versions.used[l]
      {
        var st := Replay(EMPTY, EditsOf(versions.manifest.value), l);
        assert LevelLeadsTo(st, versions.current[l], versions.used[l]);
        SavedIs([], st);
        forall f | f in versions.current[l] ensures f.number in versions.used[l] {
          assert f.number in Numbers(st.added);
        }
      }
    }
  }

  /** The part of VersionSet that keeps the manifest on disk, around the part that keeps the version in memory. */
  class DescriptorLog {
    const versions: VersionSet
    const names: Naming
    const sum: Log.Checksum
    const comparator: Bytes
    /** compact_pointer_: where the next compaction of a level starts, or nothing. */
    var compactPointer: seq<Bytes>
    /** descriptor_log_, made by the first LogAndApply. */
    var log: Log.Writer?
    /** The records in the file, and what was in memory behind each. */
    ghost var written: seq<Written>
    ghost var past: seq<Recovery>

    ghost predicate Valid()
      reads this, versions, log
    {
      versions.Valid() && StoresVersion(names, versions.current) && |comparator| < WORD32 &&
      StoresPointers(compactPointer) &&
      if log == null then versions.manifest.None?
      else
        log.Valid() && log.sum == sum && versions.manifest == Some(RecordsOf(written)) &&
        Holds(names, sum, comparator, log.dest, compactPointer, written, past)
    }

    constructor (names: Naming, sum: Log.Checksum, comparator: Bytes)
      requires |comparator| < WORD32
      ensures Valid() && fresh(versions) && log == null && this.names == names && this.sum == sum &&
        this.comparator == comparator
    {
      this.names, this.sum, this.comparator := names, sum, comparator;
      compactPointer, log, written, past := NO_POINTERS, null, [], [];
      versions := new VersionSet();
    }

    method WriteSnapshotTo(log: Log.Writer)
      requires log.Valid() && log.sum == sum && log.dest == []
      requires |versions.current| == NUM_LEVELS && StoresVersion(names, versions.current) && |comparator| < WORD32 &&
        StoresPointers(compactPointer)
      modifies log
      ensures log.Valid() &&
        log.dest == Log.FileOf(sum, AllBytes(names, [SnapshotOf(versions.current, comparator, compactPointer)]))
    {
      hide Stores, BytesOf, SnapshotFiles, PointerList, Log.Emitted;
      var edit := WriteSnapshot(versions.current);
      var moves := SavedPointers(compactPointer);
      SnapshotIsStored(names, versions.current);
      PointersAreStored(compactPointer, NUM_LEVELS);
      SnapshotStores(names, versions.current, comparator, compactPointer);
      var record := Encode(names, edit, NONE, Some(comparator), moves);
      log.AddRecord(record);
      OneMoreRecord(sum, names, [], SnapshotOf(versions.current, comparator, compactPointer));
    }

    /** LogAndApply: the edit goes to the end of the manifest, behind a snapshot if the manifest is new, and is
      installed. */
    method LogAndApply(edit: Edit, moves: seq<(nat, Bytes)>, newLogNumber: Option<nat>, newPrevLogNumber: Option<nat>)
      requires Valid() && AddsFresh(edit, versions.used) && StoresEdit(names, edit) && StoresMoves(moves)
      requires newLogNumber.Some? ==> versions.logNumber <= newLogNumber.value < versions.nextFileNumber
      requires versions.nextFileNumber < WORD64 && versions.logNumber < WORD64 && versions.prevLogNumber < WORD64
      requires newPrevLogNumber.Some? ==> newPrevLogNumber.value < WORD64
      modifies this, versions, log
      ensures Valid() && log != null && (old(log) != null ==> log == old(log)) && (old(log) == null ==> fresh(log))
      ensures versions.current == Installed(old(versions.current), edit) &&
        versions.used == UsedAfter(old(versions.used), edit)
      ensures versions.logNumber == if newLogNumber.Some? then newLogNumber.value else old(versions.logNumber)
      ensures versions.prevLogNumber == if newPrevLogNumber.Some? then newPrevLogNumber.value
        else old(versions.prevLogNumber)
      ensures versions.nextFileNumber == old(versions.nextFileNumber) &&
        versions.lastSequence == old(versions.lastSequence)
      ensures compactPointer == Pointed(old(compactPointer), moves)
      ensures past == (if old(log) == null then [NOT_YET] else old(past)) +
        [Recovered(versions.current, versions.logNumber, versions.prevLogNumber, versions.nextFileNumber,
                   versions.lastSequence)]
    {
      hide Stores, BytesOf, SnapshotFiles, PointerList, Pointed, Log.Emitted, Log.FileOf, RecoverySpec, LeadsTo;
      hide Stocked, AddsFresh, Holds;
      hide StoresVersion, StoresEdit, StoresMoves, StoresPointers, Installed, UsedAfter;
      MovesAreInRange(moves);
      MovesAreStored(compactPointer, moves);
      PointedTwice(compactPointer, moves);
      CurrentIsStocked(versions);
      InstalledIsStored(names, versions.current, edit, versions.used);
      ghost var from, recorded := versions.current, compactPointer;
      compactPointer := MovePointers(compactPointer, moves);
      if log == null {
        var writer := new Log.Writer(sum, []);
        WriteSnapshotTo(writer);
        log := writer;
        written, past := [SnapshotOf(from, comparator, compactPointer)], [NOT_YET];
        recorded := compactPointer;
        SnapshotStarts(names, sum, from, comparator, compactPointer);
      }
      var c := Counters(Some(if newLogNumber.Some? then newLogNumber.value else versions.logNumber),
                        Some(if newPrevLogNumber.Some? then newPrevLogNumber.value else versions.prevLogNumber),
                        Some(versions.nextFileNumber), Some(versions.lastSequence));
      ghost var w := Written(Record(edit, c), None, moves);
      EditStores(names, edit, c, moves);
      var record := Encode(names, edit, c, None, moves);
      HoldsMore(names, sum, comparator, log.dest, recorded, written, past, w);
      log.AddRecord(record);
      ghost var manifest := if old(versions.manifest).Some? then old(versions.manifest).value
        else [Record(Edit([], SnapshotFiles(from, NUM_LEVELS)), NONE)];
      assert manifest == RecordsOf(written);
      assert RecordsOf(written + [w]) == manifest + [Record(edit, c)];
      written := written + [w];
      past := past + [RecoverySpec(RecordsOf(written))];
      versions.LogAndApply(edit, newLogNumber, newPrevLogNumber);
    }

    /** Opening the database again: whatever part of the manifest is left, it leads to what was in memory behind the
      last LogAndApply whose record is wholly there, and to the present if nothing is missing. */
    method Reopen(file: Bytes, disk: Disk) returns (r: Recovery, pointers: seq<Bytes>, ghost m: nat)
      requires Valid() && log != null && file <= log.dest &&
        forall i :: 0 <= i < |written| ==> OnDisk(disk, written[i].record.edit)
      ensures Log.WhollyKept(sum, AllBytes(names, written), |file|, m) && m <= |written| == |past|
      ensures r == if m == 0 then NOT_YET else past[m - 1]
      ensures pointers == PointersAfter(written[..m])
      ensures file == log.dest ==> m == |written| && pointers == compactPointer
    {
      hide Log.FileOf, Stores, RecoverySpec, OnDisk, RecordsOf, PointersAfter, BytesOf, Log.WhollyKept;
      r, pointers, m := Recover(file, sum, comparator, names, disk, written);
      NotRefusedBefore(comparator, written, m);
      if m == 0 {
        NothingRecorded();
        assert written[..m] == [];
      } else {
        assert past[m - 1] == RecoverySpec(RecordsOf(written[..m - 1 + 1]));
      }
      NeverInvalid(RecordsOf(written[..m]));
      if file == log.dest {
        AllKept(sum, AllBytes(names, written), m);
        assert written[..m] == written;
      }
    }
  }

  lemma NotRefusedBefore(comparator: Bytes, written: seq<Written>, m: nat)
    requires !Refused(comparator, written) && m <= |written|
    ensures !Refused(comparator, written[..m])
  {
  }

  lemma NothingRecorded()
    ensures RecoverySpec(RecordsOf([])) == NOT_YET
  {
  }

  /** A log that was not cut has all its records. */
  lemma AllKept(sum: Log.Checksum, records: seq<Bytes>, m: nat)
    requires Log.WhollyKept(sum, records, |Log.FileOf(sum, records)|, m)
    ensures m == |records|
  {
    hide Log.FileOf;
    assert records[..|records|] == records;
    if m < |records| {
      Log.FilesGrow(sum, records, m + 1, |records|);
    }
  }

  lemma EditStores(names: Naming, edit: Edit, c: Counters, moves: seq<(nat, Bytes)>)
    requires StoresEdit(names, edit) && StoresCounters(c) && StoresMoves(moves)
    ensures Stores(names, Written(Record(edit, c), None, moves))
  {
    hide StoresEdit;
  }
}
