/** What a compaction does to reads.  Dropping entries is invisible at every snapshot that is still
  live, except when a dropped deletion uncovers an older value that stays behind in the output level. */
module SnapshotReads {
  import opened Options
  import opened InternalKeys
  import opened ReadSpec
  import opened Versions
  import opened Overlap
  import opened CompactionInputs
  import opened Compactions
  import opened Install

  /** The entries of the files that stay. */
  ghost function RestEntries(files: seq<File>, gone: seq<File>): set<Entry> {
    set f, e | f in files && f !in gone && e in f.entries :: e
  }

  /** One compaction from its inputs to its output files. */
  ghost predicate Ran(v: Version, level: nat, inputs0: seq<File>, inputs1: seq<File>, input: seq<Entry>,
                      snapshot: nat, outputs: seq<File>, v': Version) {
    ValidVersion(v) && Legal(v, level, inputs0, inputs1) &&
    Sorted(input) && Elements(input) == FileEntries(inputs0) + FileEntries(inputs1) &&
    ValidFiles(outputs) && Disjoint(outputs) &&
    FileEntries(outputs) == Elements(Survivors(input, |input|, snapshot, v, level)) &&
    Compacted(v, level, inputs0, inputs1, outputs, v')
  }

  /** mem holds what the memtables hold: nothing in a file is as new for the same key. */
  ghost predicate Above(mem: set<Entry>, v: Version) {
    Identified(mem) && Newer(mem, Stored(v))
  }

  lemma AllIsIdentified(mem: set<Entry>, v: Version)
    requires Above(mem, v) && ValidVersion(v)
    ensures Identified(mem + Stored(v))
  {
    hide ValidVersion, Stored;
    StoredIsIdentified(v);
  }

  // ---- rule (A) and rule (B) -----------------------------------------------------------

  /** A dropped entry that some live snapshot reads is a deletion dropped by rule (B). */
  lemma DroppedNewestIsObsolete(input: seq<Entry>, i: nat, snapshot: nat, v: Version, level: nat, all: set<Entry>,
                                u: UserKey, s: nat)
    requires Sorted(input) && i < |input| && Elements(input) <= all && Dropped(input, i, snapshot, v, level)
    requires snapshot <= s && snapshot < MAX_SEQUENCE && IsNewest(all, u, s, input[i])
    ensures input[i].key.kind.Deletion? && input[i].key.sequence <= snapshot && NoDeeperData(v, level, u)
  {
    if LastSequence(input, i) <= snapshot {
      assert input[i - 1] in Elements(input);
      assert AtOrBelow(input[i - 1], u, s);
    }
  }

  /** Behind a deletion every live snapshot sees, the rest of the user key is dropped. */
  lemma OlderIsDropped(input: seq<Entry>, i: nat, j: nat, snapshot: nat, v: Version, level: nat)
    requires Sorted(input) && i < j < |input| && input[i].key.user == input[j].key.user &&
      input[i].key.sequence <= snapshot
    ensures Dropped(input, j, snapshot, v, level)
  {
    assert j - 1 == i || Before(input[i].key, input[j - 1].key);
    assert Before(input[j - 1].key, input[j].key);
  }

  lemma SurvivorIsNewer(input: seq<Entry>, i: nat, z: Entry, snapshot: nat, v: Version, level: nat)
    requires Sorted(input) && i < |input| && Dropped(input, i, snapshot, v, level) && input[i].key.sequence <= snapshot
    requires z in Survivors(input, |input|, snapshot, v, level) && z.key.user == input[i].key.user
    ensures z.key.sequence > input[i].key.sequence
  {
    SurvivorsAre(input, |input|, snapshot, v, level);
    var j :| 0 <= j < |input| && input[j] == z && !Dropped(input, j, snapshot, v, level);
    if j > i {
      OlderIsDropped(input, i, j, snapshot, v, level);
    }
  }

  // ---- where an older entry can hide ------------------------------------------------------

  lemma DeeperHasNone(v: Version, level: nat, u: UserKey, l: nat, f: File, z: Entry)
    requires NoDeeperData(v, level, u) && level + 2 <= l < |v| && LevelsValid(v)
    requires f in v[l] && z in f.entries
    ensures z.key.user != u
  {
    assert ValidFiles(v[l]);
    Bounds(f, z);
    assert !Holds(f, z.key.user) || NoneHolds(v[l], u);
  }

  lemma MeetingFileIsInput(v: Version, level: nat, inputs0: seq<File>, inputs1: seq<File>, x: Entry, f: File, z: Entry)
    requires LevelsValid(v) && Legal(v, level, inputs0, inputs1)
    requires x in FileEntries(inputs0) && f in v[level + 1] && z in f.entries && x.key.user == z.key.user
    ensures f in inputs1
  {
    var r :| Hull(inputs0, r) && inputs1 == Selected(v[level + 1], r);
    assert ValidFiles(inputs0) by { assert ValidFiles(v[level]); }
    InsideHull(inputs0, r, x);
    assert ValidFiles(v[level + 1]);
    Bounds(f, z);
    SelectedMembers(v[level + 1], r);
  }

  lemma InputLevel(v: Version, level: nat, inputs0: seq<File>, inputs1: seq<File>, x: Entry)
    requires Legal(v, level, inputs0, inputs1) && x in FileEntries(inputs0) + FileEntries(inputs1)
    ensures x in FileEntries(inputs0) ==> x in FileEntries(v[level])
    ensures x in FileEntries(inputs1) ==> x in FileEntries(v[level + 1])
  {
    if x in FileEntries(inputs0) {
      UpperEntries(v, level, inputs0, x);
    }
    if x in FileEntries(inputs1) {
      SelectedAreFiles(v, level, inputs0, inputs1);
      var f := EntryFile(inputs1, x);
      InFiles(v[level + 1], f, x);
    }
  }

  /** After an obsolete deletion x goes, an entry of its user key that is not newer can only be in a file
      of the output level that is no input, and then x itself came from the output level. */
  lemma OlderHidesInRest(v: Version, level: nat, inputs0: seq<File>, inputs1: seq<File>, input: seq<Entry>,
                         snapshot: nat, outputs: seq<File>, v': Version, i: nat, z: Entry)
    requires Ran(v, level, inputs0, inputs1, input, snapshot, outputs, v')
    requires i < |input| && Dropped(input, i, snapshot, v, level) && input[i].key.sequence <= snapshot
    requires NoDeeperData(v, level, input[i].key.user)
    requires z in Stored(v') && z.key.user == input[i].key.user && z.key.sequence <= input[i].key.sequence
    ensures z in RestEntries(v[level + 1], inputs1) && input[i] in FileEntries(inputs1)
  {
    hide LevelsValid, LevelsDisjoint, ShallowerIsNewer, NumberIsAge, UniqueNumbers, NoDeeperData, Dropped;
    hide Sorted, FileEntries, Survivors, Disjoint, ValidFiles, Upper;
    var x := input[i];
    assert x in Elements(input);
    InputLevel(v, level, inputs0, inputs1, x);
    var l :| 0 <= l < |v'| && z in FileEntries(v'[l]);
    var f := EntryFile(v'[l], z);
    if l == level + 1 && f in outputs {
      InFiles(outputs, f, z);
      SurvivorIsNewer(input, i, z, snapshot, v, level);
    } else {
      InFiles(v[l], f, z);
      if l > level + 1 {
        DeeperHasNone(v, level, x.key.user, l, f, z);
      } else if l == level + 1 {
        if x in FileEntries(inputs0) {
          MeetingFileIsInput(v, level, inputs0, inputs1, x, f, z);
        }
      } else if l == level && x in FileEntries(inputs0) {
        LeavingIsOlder(v, level, inputs0, f, z, x);
      } else {
        LevelsAreNewer(v, l, if x in FileEntries(inputs0) then level else level + 1, z, x);
      }
    }
  }

  lemma LevelsAreNewer(v: Version, l: nat, m: nat, x: Entry, y: Entry)
    requires ShallowerIsNewer(v) && l < m < |v| && x in FileEntries(v[l]) && y in FileEntries(v[m]) &&
      x.key.user == y.key.user
    ensures x.key.sequence > y.key.sequence
  {
    hide FileEntries;
    assert Newer(FileEntries(v[l]), FileEntries(v[m]));
  }

  // ---- what is stored afterwards -------------------------------------------------------------

  lemma StoredAfterIsOld(v: Version, level: nat, inputs0: seq<File>, inputs1: seq<File>, input: seq<Entry>,
                         snapshot: nat, outputs: seq<File>, v': Version)
    requires Ran(v, level, inputs0, inputs1, input, snapshot, outputs, v')
    ensures Delivered(inputs0, inputs1, outputs)
    ensures Stored(v') <= Stored(v)
  {
    hide LevelsValid, LevelsDisjoint, ShallowerIsNewer, NumberIsAge, UniqueNumbers, Sorted, Disjoint, ValidFiles, Upper;
    SurvivorsAre(input, |input|, snapshot, v, level);
    assert FileEntries(outputs) <= Elements(input);
    SelectedAreFiles(v, level, inputs0, inputs1);
    hide FileEntries, Survivors, Compacted, Elements;
    forall z | z in Stored(v') ensures z in Stored(v) {
      var l :| 0 <= l < |v'| && z in FileEntries(v'[l]);
      SameLevels(v, level, inputs0, inputs1, outputs, v');
      EntriesAfter(v, level, inputs0, inputs1, outputs, v', l, z);
      if z !in FileEntries(v[l]) {
        InputLevel(v, level, inputs0, inputs1, z);
      }
    }
  }

  lemma OutputIsStored(v: Version, level: nat, inputs0: seq<File>, inputs1: seq<File>, outputs: seq<File>,
                       v': Version, e: Entry)
    requires Compacted(v, level, inputs0, inputs1, outputs, v') && e in FileEntries(outputs)
    ensures e in Stored(v')
  {
    var f := EntryFile(outputs, e);
    InFiles(v'[level + 1], f, e);
  }

  lemma RestIsStored(v: Version, level: nat, inputs0: seq<File>, inputs1: seq<File>, outputs: seq<File>, v': Version,
                     e: Entry)
    requires Compacted(v, level, inputs0, inputs1, outputs, v') && e in RestEntries(v[level + 1], inputs1)
    ensures e in Stored(v')
  {
    var f :| f in v[level + 1] && f !in inputs1 && e in f.entries;
    InFiles(v'[level + 1], f, e);
  }

  /** Everything stored stays stored, except the dropped input entries. */
  lemma StoredStays(v: Version, level: nat, inputs0: seq<File>, inputs1: seq<File>, input: seq<Entry>, snapshot: nat,
                    outputs: seq<File>, v': Version, e: Entry)
    requires Ran(v, level, inputs0, inputs1, input, snapshot, outputs, v') && e in Stored(v)
    ensures e in Stored(v') || exists i :: 0 <= i < |input| && input[i] == e && Dropped(input, i, snapshot, v, level)
  {
    hide LevelsValid, LevelsDisjoint, ShallowerIsNewer, NumberIsAge, UniqueNumbers, Sorted, Disjoint;
    hide ValidFiles, Legal, Survivors, Dropped;
    var l :| 0 <= l < |v| && e in FileEntries(v[l]);
    var f := EntryFile(v[l], e);
    if f in v'[l] {
      InFiles(v'[l], f, e);
    } else {
      if l == level {
        InFiles(inputs0, f, e);
      } else {
        InFiles(inputs1, f, e);
      }
      assert e in Elements(input);
      var i :| 0 <= i < |input| && input[i] == e;
      if !Dropped(input, i, snapshot, v, level) {
        SurvivorsAre(input, |input|, snapshot, v, level);
        assert e in Elements(Survivors(input, |input|, snapshot, v, level));
        OutputIsStored(v, level, inputs0, inputs1, outputs, v', e);
      }
    }
  }

  // ---- reads ------------------------------------------------------------------------------------

  /** Compacting brings an old value of u back: the entry read at the oldest live snapshot is a deletion
      from the lower inputs that rule (B) drops, and the newest entry left behind beside them is a value. */
  ghost predicate Resurrects(mem: set<Entry>, v: Version, level: nat, inputs1: seq<File>, snapshot: nat, u: UserKey,
                             x: Entry, y: Entry) {
    level + 1 < |v| && IsNewest(mem + Stored(v), u, snapshot, x) && x.key.kind.Deletion? && x in FileEntries(inputs1) &&
    NoDeeperData(v, level, u) && IsNewest(RestEntries(v[level + 1], inputs1), u, snapshot, y) && y.key.kind.Value?
  }

  /** The newest entry a live snapshot reads is still there, or was an obsolete deletion. */
  lemma NewestStays(mem: set<Entry>, v: Version, level: nat, inputs0: seq<File>, inputs1: seq<File>,
                    input: seq<Entry>, snapshot: nat,
                    outputs: seq<File>, v': Version, u: UserKey, s: nat, x: Entry) returns (i: nat)
    requires Ran(v, level, inputs0, inputs1, input, snapshot, outputs, v') && snapshot < MAX_SEQUENCE && snapshot <= s
    requires IsNewest(mem + Stored(v), u, s, x)
    ensures x in mem + Stored(v') ||
      (i < |input| && input[i] == x && Dropped(input, i, snapshot, v, level) &&
       x.key.kind.Deletion? && x.key.sequence <= snapshot && NoDeeperData(v, level, u))
  {
    hide ValidVersion, Compacted, Disjoint, ValidFiles, Legal, Survivors, Dropped, NoDeeperData, Stored, FileEntries;
    i := 0;
    if x !in mem + Stored(v') {
      StoredStays(v, level, inputs0, inputs1, input, snapshot, outputs, v', x);
      i :| 0 <= i < |input| && input[i] == x && Dropped(input, i, snapshot, v, level);
      InputIsStored(v, level, inputs0, inputs1, input);
      DroppedNewestIsObsolete(input, i, snapshot, v, level, mem + Stored(v), u, s);
    }
  }

  lemma InputIsStored(v: Version, level: nat, inputs0: seq<File>, inputs1: seq<File>, input: seq<Entry>)
    requires Legal(v, level, inputs0, inputs1) && Elements(input) == FileEntries(inputs0) + FileEntries(inputs1)
    ensures Elements(input) <= Stored(v)
  {
    hide FileEntries;
    forall e | e in Elements(input) ensures e in Stored(v) {
      InputLevel(v, level, inputs0, inputs1, e);
    }
  }

  lemma MemIsNewer(mem: set<Entry>, v: Version, x: Entry, z: Entry)
    requires Above(mem, v) && x in Stored(v) && z in mem && z.key.user == x.key.user
    ensures z.key.sequence > x.key.sequence
  {
    hide Stored;
  }

  /** If nothing it reads is resurrected, a snapshot that is still live reads what it read before. */
  lemma ReadUnchanged(mem: set<Entry>, v: Version, level: nat, inputs0: seq<File>, inputs1: seq<File>,
                      input: seq<Entry>, snapshot: nat, outputs: seq<File>, v': Version, u: UserKey, s: nat)
    requires Ran(v, level, inputs0, inputs1, input, snapshot, outputs, v') && Above(mem, v)
    requires snapshot < MAX_SEQUENCE && snapshot <= s
    requires forall x, y :: Resurrects(mem, v, level, inputs1, snapshot, u, x, y) ==>
      !IsNewest(mem + Stored(v), u, s, x)
    ensures Visible(mem + Stored(v'), u, s) == Visible(mem + Stored(v), u, s)
  {
    hide ValidVersion, Compacted, Disjoint, ValidFiles, Survivors, Dropped, NoDeeperData, Stored, FileEntries;
    hide RestEntries, Sorted, Upper, Newer, Elements;
    var before, after := mem + Stored(v), mem + Stored(v');
    AllIsIdentified(mem, v);
    StoredAfterIsOld(v, level, inputs0, inputs1, input, snapshot, outputs, v');
    if !NoneVisible(before, u, s) {
      var x := Newest(before, u, s);
      var i := NewestStays(mem, v, level, inputs0, inputs1, input, snapshot, outputs, v', u, s, x);
      LookupIs(before, u, s, x);
      if x in after {
        LookupIs(after, u, s, x);
      } else if !NoneVisible(after, u, s) {
        var z := Newest(after, u, s);
        LookupIs(after, u, s, z);
        NewestAfterIsLeft(mem, v, level, inputs0, inputs1, input, snapshot, outputs, v', u, s, x, i, z);
        assert !Resurrects(mem, v, level, inputs1, snapshot, u, x, z);
      }
    }
  }

  /** Once an obsolete deletion x is gone, the newest entry still readable was left behind beside the lower inputs. */
  lemma NewestAfterIsLeft(mem: set<Entry>, v: Version, level: nat, inputs0: seq<File>, inputs1: seq<File>,
                          input: seq<Entry>, snapshot: nat, outputs: seq<File>, v': Version, u: UserKey, s: nat,
                          x: Entry, i: nat, z: Entry)
    requires Ran(v, level, inputs0, inputs1, input, snapshot, outputs, v') && Above(mem, v) && snapshot <= s
    requires IsNewest(mem + Stored(v), u, s, x) && IsNewest(mem + Stored(v'), u, s, z) && Stored(v') <= Stored(v)
    requires i < |input| && input[i] == x && Dropped(input, i, snapshot, v, level)
    requires x.key.kind.Deletion? && x.key.sequence <= snapshot && NoDeeperData(v, level, u)
    ensures IsNewest(mem + Stored(v), u, snapshot, x) && x in FileEntries(inputs1)
    ensures IsNewest(RestEntries(v[level + 1], inputs1), u, snapshot, z)
  {
    hide ValidVersion, Disjoint, ValidFiles, Survivors, Dropped, NoDeeperData, Stored, FileEntries;
    hide RestEntries, Sorted, Upper, Newer, Compacted;
    assert x in Elements(input);
    InputIsStored(v, level, inputs0, inputs1, input);
    if z in mem {
      MemIsNewer(mem, v, x, z);
    }
    OlderHidesInRest(v, level, inputs0, inputs1, input, snapshot, outputs, v', i, z);
    assert forall w :: AtOrBelow(w, u, snapshot) ==> AtOrBelow(w, u, s);
    forall w | w in RestEntries(v[level + 1], inputs1) && AtOrBelow(w, u, snapshot)
      ensures w.key.sequence <= z.key.sequence
    {
      RestIsStored(v, level, inputs0, inputs1, outputs, v', w);
    }
  }

  /** A resurrection shows at the oldest live snapshot: a deleted key reads as its old value. */
  lemma ResurrectionShows(mem: set<Entry>, v: Version, level: nat, inputs0: seq<File>, inputs1: seq<File>,
                          input: seq<Entry>, snapshot: nat, outputs: seq<File>, v': Version, u: UserKey, x: Entry,
                          y: Entry)
    requires Ran(v, level, inputs0, inputs1, input, snapshot, outputs, v') && Above(mem, v)
    requires Resurrects(mem, v, level, inputs1, snapshot, u, x, y)
    ensures Visible(mem + Stored(v), u, snapshot) == None
    ensures Visible(mem + Stored(v'), u, snapshot) == Some(y.value)
  {
    hide ValidVersion, Disjoint, ValidFiles, Survivors, NoDeeperData, Stored, FileEntries, RestEntries;
    hide Sorted, Upper, Newer, Compacted;
    AllIsIdentified(mem, v);
    StoredAfterIsOld(v, level, inputs0, inputs1, input, snapshot, outputs, v');
    LookupIs(mem + Stored(v), u, snapshot, x);
    assert x in Elements(input);
    var i :| 0 <= i < |input| && input[i] == x;
    assert Dropped(input, i, snapshot, v, level);
    InputIsStored(v, level, inputs0, inputs1, input);
    RestIsStored(v, level, inputs0, inputs1, outputs, v', y);
    forall z | z in mem + Stored(v') && AtOrBelow(z, u, snapshot) ensures z.key.sequence <= y.key.sequence {
      if z in mem {
        MemIsNewer(mem, v, x, z);
      }
      OlderHidesInRest(v, level, inputs0, inputs1, input, snapshot, outputs, v', i, z);
    }
    LookupIs(mem + Stored(v'), u, snapshot, y);
  }

  /** A compaction preserves every read at every live snapshot if and only if it resurrects nothing. */
  lemma CompactionPreservesReads(mem: set<Entry>, v: Version, level: nat, inputs0: seq<File>, inputs1: seq<File>,
                                 input: seq<Entry>, snapshot: nat, outputs: seq<File>, v': Version)
    requires Ran(v, level, inputs0, inputs1, input, snapshot, outputs, v') && Above(mem, v) && snapshot < MAX_SEQUENCE
    ensures (forall u, s: nat :: snapshot <= s ==>
             Visible(mem + Stored(v'), u, s) == Visible(mem + Stored(v), u, s)) <==>
            (forall u, x, y :: !Resurrects(mem, v, level, inputs1, snapshot, u, x, y))
  {
    hide Ran, Visible, Resurrects, Stored, Above;
    if u, x, y :| Resurrects(mem, v, level, inputs1, snapshot, u, x, y) {
      ResurrectionShows(mem, v, level, inputs0, inputs1, input, snapshot, outputs, v', u, x, y);
      assert Visible(mem + Stored(v'), u, snapshot) != Visible(mem + Stored(v), u, snapshot);
    } else {
      forall u, s: nat | snapshot <= s ensures Visible(mem + Stored(v'), u, s) == Visible(mem + Stored(v), u, s) {
        ReadUnchanged(mem, v, level, inputs0, inputs1, input, snapshot, outputs, v', u, s);
      }
    }
  }

  /** The bound on the snapshot matters: at the largest sequence number rule (A) drops every entry. */
  lemma {:induction false} NothingSurvivesAtMax(input: seq<Entry>, n: nat, v: Version, level: nat)
    requires n <= |input|
    ensures Survivors(input, n, MAX_SEQUENCE, v, level) == []
  {
    if n > 0 {
      NothingSurvivesAtMax(input, n - 1, v, level);
    }
  }

  // ---- a guard that can be checked before the compaction ----------------------------------------------

  /** AddBoundaryInputs, had SetupOtherInputs run it on the lower inputs too, would have found nothing. */
  ghost predicate NoBoundaryBelow(v: Version, level: nat, inputs1: seq<File>) {
    level + 1 < |v| && forall k :: Largest(inputs1, k) ==> SmallestBoundary(v[level + 1], k).None?
  }

  /** Without a boundary file below, nothing can be resurrected. */
  lemma NoBoundaryNoResurrection(mem: set<Entry>, v: Version, level: nat, inputs0: seq<File>, inputs1: seq<File>,
                                 snapshot: nat, u: UserKey, x: Entry, y: Entry)
    requires ValidVersion(v) && Legal(v, level, inputs0, inputs1) && Above(mem, v)
    requires NoBoundaryBelow(v, level, inputs1)
    ensures !Resurrects(mem, v, level, inputs1, snapshot, u, x, y)
  {
    hide ShallowerIsNewer, NumberIsAge, UniqueNumbers, Upper, Hull, NoDeeperData, Newer, SmallestBoundary;
    if Resurrects(mem, v, level, inputs1, snapshot, u, x, y) {
      var below := v[level + 1];
      assert ValidFiles(below) && Disjoint(below);
      var f := EntryFile(inputs1, x);
      var g :| g in below && g !in inputs1 && y in g.entries;
      InFiles(below, g, y);
      assert y in Stored(v);
      AllIsIdentified(mem, v);
      SelectedAreFiles(v, level, inputs0, inputs1);
      OlderFollows(below, f, g, x, y);
      LowerRunEnds(v, level, inputs0, inputs1, f, g);
    }
  }

  lemma OlderFollows(files: seq<File>, f: File, g: File, x: Entry, y: Entry)
    requires ValidFiles(files) && Disjoint(files) && f in files && g in files && f != g
    requires x in f.entries && y in g.entries && x.key.user == y.key.user && y.key.sequence <= x.key.sequence
    ensures Follows(g, f.largest)
  {
    Bounds(f, x);
    Bounds(g, y);
    DisjointIsApart(files);
  }

  lemma LowerRunEnds(v: Version, level: nat, inputs0: seq<File>, inputs1: seq<File>, f: File, g: File)
    requires LevelsValid(v) && LevelsDisjoint(v) && Legal(v, level, inputs0, inputs1) &&
      NoBoundaryBelow(v, level, inputs1)
    requires f in inputs1 && g in v[level + 1] && Follows(g, f.largest)
    ensures g in inputs1
  {
    hide SmallestBoundary, Selected, Hull, Upper, ValidFile, Largest, LevelsValid, LevelsDisjoint, Disjoint;
    hide Ascending, Follows;
    var files := v[level + 1];
    LevelIsSound(v, level + 1);
    var r :| Hull(inputs0, r) && inputs1 == Selected(files, r);
    DisjointIsAscending(files);
    var a, b := SelectedIsRun(files, r);
    var i :| 0 <= i < |inputs1| && inputs1[i] == f;
    var j :| 0 <= j < |files| && files[j] == g;
    assert files[a + i] == f;
    RunEndIsLargest(files, a, b);
    if a <= j < b {
      SliceMember(files, a, b, j);
    } else {
      LaterFollows(files, a + i, b - 1, j);
    }
  }

  lemma LevelIsSound(v: Version, l: nat)
    requires LevelsValid(v) && LevelsDisjoint(v) && 0 < l < |v|
    ensures ValidFiles(v[l]) && Disjoint(v[l])
  {
  }

  lemma RunEndIsLargest(files: seq<File>, a: nat, b: nat)
    requires ValidFiles(files) && Disjoint(files) && a < b <= |files|
    ensures Largest(files[a..b], files[b - 1].largest)
  {
    LargestAscends(files);
    assert files[a..b][b - 1 - a] == files[b - 1];
  }

  lemma LaterFollows(files: seq<File>, i: nat, last: nat, j: nat)
    requires ValidFiles(files) && Disjoint(files) && i <= last < |files| && j < |files| &&
      Follows(files[j], files[i].largest)
    ensures j > i
    ensures j > last ==> Follows(files[j], files[last].largest)
  {
    LargestAscends(files);
    SmallestAscends(files);
    assert ValidFile(files[i]);
    Bounds(files[i], files[i].entries[0]);
  }
}
