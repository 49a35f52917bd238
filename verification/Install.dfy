/** Installing the result of a compaction or a flush keeps the shape of the tree: levels above 0 stay
  sorted and disjoint, shallower stays newer, a higher level-0 number stays newer. */
module Install {
  import opened Options
  import opened InternalKeys
  import opened Versions
  import opened Overlap
  import opened CompactionInputs
  import opened VersionEdits

  ghost predicate Apart(f: File, g: File) {
    Before(f.largest, g.smallest) || Before(g.largest, f.smallest)
  }

  ghost predicate PairwiseApart(files: seq<File>) {
    forall f, g :: f in files && g in files && f != g ==> Apart(f, g)
  }

  lemma DisjointIsApart(files: seq<File>)
    requires Disjoint(files)
    ensures PairwiseApart(files)
  {
  }

  lemma ApartIsDisjoint(files: seq<File>)
    requires ValidFiles(files) && Ordered(files) && PairwiseApart(files)
    ensures Disjoint(files)
  {
    forall i, j | 0 <= i < j < |files| ensures Before(files[i].largest, files[j].smallest) {
      assert BySmallest(files[i], files[j]);
      assert ValidFile(files[j]);
      Bounds(files[j], files[j].entries[0]);
      assert files[i] in files && files[j] in files && files[i] != files[j];
    }
  }

  lemma DisjointIsOrdered(files: seq<File>)
    requires ValidFiles(files) && Disjoint(files)
    ensures Ordered(files)
  {
    SmallestAscends(files);
  }

  // ---- a compaction ----------------------------------------------------------------

  /** The output files: cut from a sorted stream of input entries. */
  ghost predicate Delivered(inputs0: seq<File>, inputs1: seq<File>, outputs: seq<File>) {
    ValidFiles(outputs) && Disjoint(outputs) &&
    FileEntries(outputs) <= FileEntries(inputs0) + FileEntries(inputs1)
  }

  ghost predicate SameButFor(v: Version, v': Version, level: nat) {
    |v'| == |v| && forall l :: 0 <= l < |v| && l != level && l != level + 1 ==> v'[l] == v[l]
  }

  ghost predicate Removed(files: seq<File>, gone: seq<File>, files': seq<File>) {
    Ordered(files') && forall f :: f in files' <==> f in files && f !in gone
  }

  ghost predicate Exchanged(files: seq<File>, gone: seq<File>, come: seq<File>, files': seq<File>) {
    Ordered(files') && forall f :: f in files' <==> (f in files && f !in gone) || f in come
  }

  /** v' is v with the inputs deleted and the outputs added one level down. */
  ghost predicate Compacted(v: Version, level: nat, inputs0: seq<File>, inputs1: seq<File>, outputs: seq<File>,
                            v': Version) {
    level + 1 < |v| && SameButFor(v, v', level) &&
    Removed(v[level], inputs0, v'[level]) && Exchanged(v[level + 1], inputs1, outputs, v'[level + 1])
  }

  lemma InFiles(files: seq<File>, f: File, e: Entry)
    requires f in files && e in f.entries
    ensures e in FileEntries(files)
  {
  }

  lemma EntryFile(files: seq<File>, e: Entry) returns (f: File)
    requires e in FileEntries(files)
    ensures f in files && e in f.entries
  {
    f :| f in files && e in f.entries;
  }

  /** Entries of the upper inputs lie inside their range. */
  lemma InsideHull(inputs: seq<File>, r: Range, e: Entry)
    requires ValidFiles(inputs) && Hull(inputs, r) && e in FileEntries(inputs)
    ensures r.lo.value <= e.key.user <= r.hi.value
  {
    var f := EntryFile(inputs, e);
    Bounds(f, e);
  }

  /** A file of the output level that is no input lies wholly on one side of every input entry. */
  lemma RestIsBeside(below: seq<File>, r: Range, inputs0: seq<File>, g: File, e: Entry)
    requires ValidFiles(below) && PairwiseApart(below) && ValidFiles(inputs0) && Hull(inputs0, r)
    requires g in below && !Meets(g, r)
    requires e in FileEntries(inputs0) || e in FileEntries(Selected(below, r))
    ensures AfterFile(r.lo, g) ==> Before(g.largest, e.key)
    ensures !AfterFile(r.lo, g) ==> Before(e.key, g.smallest)
  {
    if e in FileEntries(inputs0) {
      InsideHull(inputs0, r, e);
    } else {
      SelectedMembers(below, r);
      var f := EntryFile(Selected(below, r), e);
      assert ValidFile(f) && ValidFile(g) && Apart(f, g);
      Bounds(f, e);
      Bounds(g, g.entries[0]);
    }
  }

  lemma OutputsAreBesideRest(below: seq<File>, r: Range, inputs0: seq<File>, outputs: seq<File>, g: File, o: File)
    requires ValidFiles(below) && PairwiseApart(below) && ValidFiles(inputs0) && Hull(inputs0, r)
    requires Delivered(inputs0, Selected(below, r), outputs)
    requires g in below && !Meets(g, r) && o in outputs
    ensures Apart(g, o)
  {
    assert ValidFile(o);
    var first, last := o.entries[0], o.entries[|o.entries| - 1];
    InFiles(outputs, o, first);
    InFiles(outputs, o, last);
    RestIsBeside(below, r, inputs0, g, first);
    RestIsBeside(below, r, inputs0, g, last);
  }

  /** The output level stays sorted and disjoint. */
  lemma OutputLevelIsDisjoint(below: seq<File>, r: Range, inputs0: seq<File>, outputs: seq<File>, below': seq<File>)
    requires ValidFiles(below) && Disjoint(below) && ValidFiles(inputs0) && Hull(inputs0, r)
    requires Delivered(inputs0, Selected(below, r), outputs)
    requires Exchanged(below, Selected(below, r), outputs, below')
    ensures ValidFiles(below') && Disjoint(below')
  {
    DisjointIsApart(below);
    DisjointIsApart(outputs);
    SelectedMembers(below, r);
    forall f, g | f in below' && g in below' && f != g ensures Apart(f, g) {
      if f in outputs && g !in outputs {
        OutputsAreBesideRest(below, r, inputs0, outputs, g, f);
      } else if g in outputs && f !in outputs {
        OutputsAreBesideRest(below, r, inputs0, outputs, f, g);
      }
    }
    ApartIsDisjoint(below');
  }

  lemma RemovedIsDisjoint(files: seq<File>, gone: seq<File>, files': seq<File>)
    requires ValidFiles(files) && Disjoint(files) && Removed(files, gone, files')
    ensures Disjoint(files')
  {
    DisjointIsApart(files);
    ApartIsDisjoint(files');
  }

  /** What stays behind in the upper level is newer than what leaves it. */
  lemma LeavingIsOlder(v: Version, level: nat, inputs0: seq<File>, stays: File, x: Entry, y: Entry)
    requires LevelsValid(v) && LevelsDisjoint(v) && Upper(v, level, inputs0)
    requires stays in v[level] && stays !in inputs0 && x in stays.entries
    requires y in FileEntries(inputs0) && x.key.user == y.key.user
    ensures x.key.sequence > y.key.sequence
  {
    var f := EntryFile(inputs0, y);
    assert ValidFiles(v[level]);
    if level == 0 {
      IsolatedSharesNoKey(v[0], inputs0, stays, x, f, y);
    } else {
      SeveredLeavesNewer(v[level], inputs0, stays, x, f, y);
    }
  }

  lemma IsolatedSharesNoKey(files: seq<File>, inputs: seq<File>, stays: File, x: Entry, f: File, y: Entry)
    requires ValidFiles(files) && Isolated(files, inputs) && forall g :: g in inputs ==> g in files
    requires stays in files && stays !in inputs && x in stays.entries && f in inputs && y in f.entries
    ensures x.key.user != y.key.user
  {
    var smallest, largest := RangeExists(inputs);
    var r := UserRange(smallest, largest);
    Bounds(stays, x);
    Bounds(f, y);
    assert Inside(f, r);
    assert !Meets(stays, r);
  }

  lemma SeveredLeavesNewer(files: seq<File>, inputs: seq<File>, stays: File, x: Entry, f: File, y: Entry)
    requires ValidFiles(files) && Disjoint(files) && SeveredRun(files, inputs)
    requires stays in files && stays !in inputs && x in stays.entries && f in inputs && y in f.entries &&
      x.key.user == y.key.user
    ensures x.key.sequence > y.key.sequence
  {
    hide ValidFiles, Disjoint;
    var a, b :| Severed(files, a, b) && inputs == files[a..b];
    var j :| 0 <= j < |files| && files[j] == stays;
    var k :| 0 <= k < |inputs| && inputs[k] == f;
    if a <= j < b {
      SliceMember(files, a, b, j);
    } else {
      RunLeavesNewer(files, a, b, j, a + k, x, y);
    }
  }

  lemma SliceMember(files: seq<File>, a: int, b: int, j: int)
    requires 0 <= a <= j < b <= |files|
    ensures files[j] in files[a..b]
  {
    assert files[a..b][j - a] == files[j];
  }

  lemma RunLeavesNewer(files: seq<File>, a: int, b: int, j: int, k: int, x: Entry, y: Entry)
    requires ValidFiles(files) && Disjoint(files) && Severed(files, a, b)
    requires 0 <= j < |files| && !(a <= j < b) && a <= k < b
    requires x in files[j].entries && y in files[k].entries && x.key.user == y.key.user
    ensures x.key.sequence > y.key.sequence
  {
    assert ValidFile(files[j]) && ValidFile(files[k]);
    Bounds(files[j], x);
    Bounds(files[k], y);
    if j >= b {
      BeyondSevered(files, a, b, j, k, x.key.user);
    } else {
      assert Before(files[j].largest, files[k].smallest);
    }
  }

  lemma BeyondSevered(files: seq<File>, a: int, b: int, j: int, k: int, u: UserKey)
    requires ValidFiles(files) && Disjoint(files) && Severed(files, a, b) && a <= k < b <= j < |files|
    ensures !(files[j].smallest.user <= u && u <= files[k].largest.user)
  {
    SmallestAscends(files);
    LargestAscends(files);
    assert Before(files[b - 1].largest, files[b].smallest);
  }

  /** Where the entries of a level came from. */
  lemma EntriesAfter(v: Version, level: nat, inputs0: seq<File>, inputs1: seq<File>, outputs: seq<File>, v': Version,
                     l: nat, e: Entry)
    requires Compacted(v, level, inputs0, inputs1, outputs, v') && Delivered(inputs0, inputs1, outputs)
    requires (forall f :: f in inputs1 ==> f in v[level + 1])
    requires l < |v| && e in FileEntries(v'[l])
    ensures l != level + 1 ==> e in FileEntries(v[l])
    ensures l == level + 1 ==> e in FileEntries(v[level + 1]) || e in FileEntries(inputs0)
  {
    var f := EntryFile(v'[l], e);
    if l == level + 1 {
      if f in outputs {
        InFiles(outputs, f, e);
        if e !in FileEntries(inputs0) {
          var g := EntryFile(inputs1, e);
          InFiles(v[level + 1], g, e);
        }
      } else {
        InFiles(v[level + 1], f, e);
      }
    } else {
      InFiles(v[l], f, e);
    }
  }

  lemma UpperEntries(v: Version, level: nat, inputs0: seq<File>, e: Entry)
    requires Upper(v, level, inputs0) && e in FileEntries(inputs0)
    ensures e in FileEntries(v[level])
  {
    var f := EntryFile(inputs0, e);
    InFiles(v[level], f, e);
  }

  lemma CompactedPairIsNewer(v: Version, level: nat, inputs0: seq<File>, inputs1: seq<File>, outputs: seq<File>,
                             v': Version, l: nat, m: nat, x: Entry, y: Entry)
    requires LevelsValid(v) && LevelsDisjoint(v) && ShallowerIsNewer(v) && Upper(v, level, inputs0)
    requires Compacted(v, level, inputs0, inputs1, outputs, v') && Delivered(inputs0, inputs1, outputs)
    requires (forall f :: f in inputs1 ==> f in v[level + 1])
    requires l < m < |v| && x in FileEntries(v'[l]) && y in FileEntries(v'[m]) && x.key.user == y.key.user
    ensures x.key.sequence > y.key.sequence
  {
    hide LevelsValid, LevelsDisjoint, FileEntries, Upper, Delivered;
    EntriesAfter(v, level, inputs0, inputs1, outputs, v', l, x);
    EntriesAfter(v, level, inputs0, inputs1, outputs, v', m, y);
    // xl and ym: the levels x and y came from.
    var xl := if x in FileEntries(v[l]) then l else level;
    var ym := if y in FileEntries(v[m]) then m else level;
    if xl == level && l != level {
      UpperEntries(v, level, inputs0, x);
    }
    if ym == level && m != level {
      UpperEntries(v, level, inputs0, y);
    }
    if xl < ym {
      assert Newer(FileEntries(v[xl]), FileEntries(v[ym]));
    } else {
      var f := EntryFile(v'[l], x);
      LeavingIsOlder(v, level, inputs0, f, x, y);
    }
  }

  lemma CompactedIsNewer(v: Version, level: nat, inputs0: seq<File>, inputs1: seq<File>, outputs: seq<File>,
                         v': Version)
    requires LevelsValid(v) && LevelsDisjoint(v) && ShallowerIsNewer(v) && Upper(v, level, inputs0)
    requires Compacted(v, level, inputs0, inputs1, outputs, v') && Delivered(inputs0, inputs1, outputs)
    requires (forall f :: f in inputs1 ==> f in v[level + 1])
    ensures ShallowerIsNewer(v')
  {
    hide LevelsValid, LevelsDisjoint, FileEntries, Upper, Delivered, Compacted;
    assert |v'| == |v| by { SameLevels(v, level, inputs0, inputs1, outputs, v'); }
    forall l, m, x, y | 0 <= l < m < |v| && x in FileEntries(v'[l]) && y in FileEntries(v'[m]) &&
      x.key.user == y.key.user
      ensures x.key.sequence > y.key.sequence
    {
      CompactedPairIsNewer(v, level, inputs0, inputs1, outputs, v', l, m, x, y);
    }
  }

  lemma SameLevels(v: Version, level: nat, inputs0: seq<File>, inputs1: seq<File>, outputs: seq<File>, v': Version)
    requires Compacted(v, level, inputs0, inputs1, outputs, v')
    ensures |v'| == |v|
  {
  }

  lemma CompactedLevelsAreValid(v: Version, level: nat, inputs0: seq<File>, inputs1: seq<File>, outputs: seq<File>,
                                v': Version)
    requires LevelsValid(v) && LevelsDisjoint(v) && Legal(v, level, inputs0, inputs1)
    requires Compacted(v, level, inputs0, inputs1, outputs, v') && Delivered(inputs0, inputs1, outputs)
    ensures LevelsValid(v') && LevelsDisjoint(v')
  {
    hide ValidFile, Disjoint, Hull, Isolated, SeveredRun, FileEntries, Ordered;
    var r :| Hull(inputs0, r) && inputs1 == Selected(v[level + 1], r);
    assert ValidFiles(inputs0) by { assert ValidFiles(v[level]); }
    OutputLevelIsDisjoint(v[level + 1], r, inputs0, outputs, v'[level + 1]);
    forall l | 0 <= l < |v'| ensures ValidFiles(v'[l]) && (l > 0 ==> Disjoint(v'[l])) {
      assert ValidFiles(v[l]);
      if l == level && l > 0 {
        RemovedIsDisjoint(v[level], inputs0, v'[level]);
      }
    }
  }

  /** Installing a compaction keeps every version invariant. */
  lemma CompactionKeepsVersion(v: Version, level: nat, inputs0: seq<File>, inputs1: seq<File>, outputs: seq<File>,
                               v': Version)
    requires ValidVersion(v) && Ordered(v[0]) && Legal(v, level, inputs0, inputs1)
    requires Compacted(v, level, inputs0, inputs1, outputs, v') && Delivered(inputs0, inputs1, outputs)
    requires UniqueNumbers(v')
    ensures ValidVersion(v') && Ordered(v'[0])
  {
    hide LevelsValid, LevelsDisjoint, ShallowerIsNewer, UniqueNumbers, Hull, Isolated, SeveredRun, Delivered, Ordered;
    CompactedLevelsAreValid(v, level, inputs0, inputs1, outputs, v');
    SelectedAreFiles(v, level, inputs0, inputs1);
    CompactedIsNewer(v, level, inputs0, inputs1, outputs, v');
  }

  lemma SelectedAreFiles(v: Version, level: nat, inputs0: seq<File>, inputs1: seq<File>)
    requires Legal(v, level, inputs0, inputs1)
    ensures forall f :: f in inputs1 ==> f in v[level + 1]
  {
    var r :| Hull(inputs0, r) && inputs1 == Selected(v[level + 1], r);
    SelectedMembers(v[level + 1], r);
  }

  // ---- file numbers ------------------------------------------------------------------

  ghost predicate NumbersBelow(v: Version, next: nat) {
    forall l, f :: 0 <= l < |v| && f in v[l] ==> f.number < next
  }

  /** Output numbers come from NewFileNumber. */
  lemma FreshNumbersFit(v: Version, level: nat, inputs0: seq<File>, inputs1: seq<File>, outputs: seq<File>,
                        v': Version, next: nat)
    requires UniqueNumbers(v) && Compacted(v, level, inputs0, inputs1, outputs, v')
    requires NumbersBelow(v, next) && DistinctNumbers(outputs) && forall o :: o in outputs ==> next <= o.number
    ensures UniqueNumbers(v')
  {
    forall l | 0 <= l < |v'| ensures DistinctNumbers(v'[l]) {
      assert DistinctNumbers(v[l]);
    }
    forall l, m | 0 <= l < m < |v'| ensures Numbers(v'[l]) !! Numbers(v'[m]) {
      assert Numbers(v[l]) !! Numbers(v[m]);
      forall f, g | f in v'[l] && g in v'[m] ensures f.number != g.number {
        assert f !in outputs ==> f in v[l] && f.number in Numbers(v[l]);
        assert g !in outputs ==> g in v[m] && g.number in Numbers(v[m]);
      }
    }
  }

  /** A trivial move keeps the file's number. */
  lemma MovedNumbersFit(v: Version, level: nat, f: File, v': Version)
    requires UniqueNumbers(v) && Compacted(v, level, [f], [], [f], v') && f in v[level]
    ensures UniqueNumbers(v')
  {
    assert forall g :: g in [f] <==> g == f;
    assert DistinctNumbers(v[level]) && DistinctNumbers(v[level + 1]) && Numbers(v[level]) !! Numbers(v[level + 1]);
    assert f.number in Numbers(v[level]);
    forall l | 0 <= l < |v'| ensures DistinctNumbers(v'[l]) {
      assert DistinctNumbers(v[l]);
      forall g | g in v[level + 1] ensures g.number != f.number {
        assert g.number in Numbers(v[level + 1]);
      }
    }
    forall l, m | 0 <= l < m < |v'| ensures Numbers(v'[l]) !! Numbers(v'[m]) {
      forall a, b | a in v'[l] && b in v'[m] ensures a.number != b.number {
        var l', m' := if a == f then level else l, if b == f then level else m;
        assert a in v[l'] && b in v[m'] && a.number in Numbers(v[l']) && b.number in Numbers(v[m']);
        if l' < m' {
          assert Numbers(v[l']) !! Numbers(v[m']);
        } else {
          assert DistinctNumbers(v[l']);
        }
      }
    }
  }

  // ---- a flush -------------------------------------------------------------------------

  /** v' is v with one more file in a level. */
  ghost predicate Flushed(v: Version, level: nat, file: File, v': Version) {
    level < |v| && |v'| == |v| && (forall l :: 0 <= l < |v| && l != level ==> v'[l] == v[l]) &&
    Exchanged(v[level], [], [file], v'[level])
  }

  /** No file of the levels down to this one can share a user key with the new one. */
  ghost predicate Clear(v: Version, level: nat, lo: UserKey, hi: UserKey) {
    forall l, f :: 0 <= l <= level && l < |v| && f in v[l] ==> !Touches(f, Some(lo), Some(hi))
  }

  /** What PickLevelForMemTableOutput promises. */
  ghost predicate Placed(v: Version, level: nat, lo: UserKey, hi: UserKey) {
    level > 0 ==> Clear(v, level, lo, hi)
  }

  lemma ClearSharesNoKey(v: Version, level: nat, file: File, l: nat, x: Entry, y: Entry)
    requires LevelsValid(v) && ValidFile(file) && Clear(v, level, file.smallest.user, file.largest.user)
    requires l <= level < |v| && x in FileEntries(v[l]) && y in file.entries
    ensures x.key.user != y.key.user
  {
    var f := EntryFile(v[l], x);
    assert ValidFiles(v[l]);
    assert !Touches(f, Some(file.smallest.user), Some(file.largest.user));
    Bounds(f, x);
    Bounds(file, y);
  }

  lemma FlushedEntries(v: Version, level: nat, file: File, v': Version, l: nat, e: Entry)
    requires Flushed(v, level, file, v') && l < |v| && e in FileEntries(v'[l])
    ensures e in FileEntries(v[l]) || (l == level && e in file.entries)
  {
    var f := EntryFile(v'[l], e);
    if f in v[l] {
      InFiles(v[l], f, e);
    }
  }

  lemma FlushedIsNewer(v: Version, level: nat, file: File, v': Version)
    requires LevelsValid(v) && ShallowerIsNewer(v) && ValidFile(file) && Flushed(v, level, file, v')
    requires Placed(v, level, file.smallest.user, file.largest.user) && Newer(Elements(file.entries), Stored(v))
    ensures ShallowerIsNewer(v')
  {
    hide LevelsValid, FileEntries, Exchanged, ValidFile, Clear;
    forall l, m, x, y | 0 <= l < m < |v'| && x in FileEntries(v'[l]) && y in FileEntries(v'[m]) &&
      x.key.user == y.key.user
      ensures x.key.sequence > y.key.sequence
    {
      FlushedEntries(v, level, file, v', l, x);
      FlushedEntries(v, level, file, v', m, y);
      if y in FileEntries(v[m]) {
        if x in FileEntries(v[l]) {
          assert Newer(FileEntries(v[l]), FileEntries(v[m]));
        } else {
          assert x in Elements(file.entries) && y in Stored(v);
        }
      } else {
        ClearSharesNoKey(v, level, file, l, x, y);
      }
    }
  }

  lemma FlushedLevelIsDisjoint(v: Version, level: nat, file: File, v': Version)
    requires LevelsValid(v) && LevelsDisjoint(v) && ValidFile(file) && Flushed(v, level, file, v')
    requires Placed(v, level, file.smallest.user, file.largest.user)
    ensures LevelsValid(v') && LevelsDisjoint(v')
  {
    forall l | 0 <= l < |v'| ensures ValidFiles(v'[l]) && (l > 0 ==> Disjoint(v'[l])) {
      assert ValidFiles(v[l]);
      if l == level > 0 {
        DisjointIsApart(v[l]);
        assert PairwiseApart(v'[l]) by {
          forall f | f in v[l] ensures Apart(f, file) {
            assert !Touches(f, Some(file.smallest.user), Some(file.largest.user));
          }
        }
        ApartIsDisjoint(v'[l]);
      }
    }
  }

  lemma FlushedNumbersFit(v: Version, level: nat, file: File, v': Version, next: nat)
    requires UniqueNumbers(v) && NumbersBelow(v, next) && file.number >= next && Flushed(v, level, file, v')
    ensures UniqueNumbers(v')
  {
    forall l | 0 <= l < |v'| ensures DistinctNumbers(v'[l]) {
      assert DistinctNumbers(v[l]);
    }
    forall l, m | 0 <= l < m < |v'| ensures Numbers(v'[l]) !! Numbers(v'[m]) {
      assert Numbers(v[l]) !! Numbers(v[m]);
      forall f, g | f in v'[l] && g in v'[m] ensures f.number != g.number {
        assert f != file ==> f in v[l] && f.number in Numbers(v[l]);
        assert g != file ==> g in v[m] && g.number in Numbers(v[m]);
      }
    }
  }

  lemma FlushedAge(v: Version, file: File, files': seq<File>, next: nat)
    requires |v| > 0 && NumberIsAge(v[0]) && NumbersBelow(v, next) && file.number >= next
    requires Newer(Elements(file.entries), Stored(v)) && Exchanged(v[0], [], [file], files')
    ensures NumberIsAge(files')
  {
    forall f, g | f in files' && g in files' && f.number > g.number
      ensures Newer(Elements(f.entries), Elements(g.entries))
    {
      assert f == file || f in v[0];
      if f == file {
        assert g in v[0];
        assert Elements(g.entries) <= Stored(v) by {
          forall e | e in g.entries ensures e in Stored(v) {
            InFiles(v[0], g, e);
          }
        }
      }
    }
  }

  /** Installing a flushed memtable keeps every version invariant. */
  lemma FlushKeepsVersion(v: Version, level: nat, file: File, v': Version, next: nat)
    requires ValidVersion(v) && Ordered(v[0]) && ValidFile(file) && Flushed(v, level, file, v')
    requires Placed(v, level, file.smallest.user, file.largest.user) && Newer(Elements(file.entries), Stored(v))
    requires NumbersBelow(v, next) && file.number >= next
    ensures ValidVersion(v') && Ordered(v'[0])
  {
    hide LevelsValid, LevelsDisjoint, ShallowerIsNewer, UniqueNumbers, Newer, Stored, ValidFile, NumberIsAge;
    hide NumbersBelow, Clear, Ordered;
    FlushedIsNewer(v, level, file, v');
    FlushedLevelIsDisjoint(v, level, file, v');
    FlushedNumbersFit(v, level, file, v', next);
    if level == 0 {
      FlushedAge(v, file, v'[0], next);
    }
  }

  /** Nothing on the next level overlaps, and not too many bytes on the one below it. */
  ghost predicate GoesDeeper(v: Version, level: nat, lo: UserKey, hi: UserKey, maxFileSize: nat)
    requires level + 2 < |v|
  {
    (forall f :: f in v[level + 1] ==> !Touches(f, Some(lo), Some(hi))) &&
    TotalFileSize(Selected(v[level + 2], Range(Some(lo), Some(hi)))) <= 10 * maxFileSize
  }

  /** The one level a memtable with this range goes to. */
  ghost predicate PickedFor(v: Version, lo: UserKey, hi: UserKey, maxFileSize: nat, level: nat) {
    |v| == NUM_LEVELS && level <= 2 &&
    if exists f :: f in v[0] && Touches(f, Some(lo), Some(hi)) then level == 0
    else
      (forall l :: 0 <= l < level ==> GoesDeeper(v, l, lo, hi, maxFileSize)) &&
      (level < 2 ==> !GoesDeeper(v, level, lo, hi, maxFileSize))
  }

  /** PickLevelForMemTableOutput: go down while nothing overlaps, but not past level 2, and not
      over too many bytes two levels below. */
  method PickLevelForMemTableOutput(v: Version, lo: UserKey, hi: UserKey, maxFileSize: nat) returns (level: nat)
    requires |v| == NUM_LEVELS && LevelsValid(v) && LevelsDisjoint(v)
    ensures PickedFor(v, lo, hi, maxFileSize, level) && Placed(v, level, lo, hi) && level <= 2
  {
    level := 0;
    var overlap := SomeFileOverlapsRange(false, v[0], Some(lo), Some(hi));
    if overlap {
      return;
    }
    while level < 2
      invariant level <= 2 && Clear(v, level, lo, hi)
      invariant forall l :: 0 <= l < level ==> GoesDeeper(v, l, lo, hi, maxFileSize)
    {
      overlap := SomeFileOverlapsRange(true, v[level + 1], Some(lo), Some(hi));
      if overlap {
        break;
      }
      if level + 2 < NUM_LEVELS {
        var overlaps, same := GetOverlappingInputs(level + 2, v[level + 2], Range(Some(lo), Some(hi)));
        if TotalFileSize(overlaps) > 10 * maxFileSize {
          break;
        }
      }
      level := level + 1;
    }
  }
}
