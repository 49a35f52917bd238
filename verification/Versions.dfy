/** Files, levels and point lookup: db/version_edit.h, db/version_set.cc (FindFile,
  SomeFileOverlapsRange, ForEachOverlapping, Version::Get) and the table lookup they use.
  A table is its entry list; Tables and TableLookup refine that to bytes. */
module Versions {
  import opened Options
  import opened InternalKeys
  import opened ReadSpec

  const NUM_LEVELS: nat := 7

  datatype File = File(number: nat, size: nat, smallest: IKey, largest: IKey, entries: seq<Entry>)

  /** The file list of every level. */
  type Version = seq<seq<File>>

  ghost predicate ValidFile(f: File) {
    |f.entries| > 0 && Sorted(f.entries) &&
    f.smallest == f.entries[0].key && f.largest == f.entries[|f.entries| - 1].key
  }

  ghost predicate ValidFiles(files: seq<File>) {
    forall f :: f in files ==> ValidFile(f)
  }

  /** Sorted by key with no overlap, as every level above 0 is kept. */
  ghost predicate Disjoint(files: seq<File>) {
    forall i, j :: 0 <= i < j < |files| ==> Before(files[i].largest, files[j].smallest)
  }

  /** Every entry of a is newer than every entry of b for the same user key. */
  ghost predicate Newer(a: set<Entry>, b: set<Entry>) {
    forall x, y :: x in a && y in b && x.key.user == y.key.user ==> x.key.sequence > y.key.sequence
  }

  ghost function FileEntries(files: seq<File>): set<Entry> {
    set f, e | f in files && e in f.entries :: e
  }

  ghost function Stored(v: Version): set<Entry> {
    set l, e | 0 <= l < |v| && e in FileEntries(v[l]) :: e
  }

  ghost predicate ShallowerIsNewer(v: Version) {
    forall l, m :: 0 <= l < m < |v| ==> Newer(FileEntries(v[l]), FileEntries(v[m]))
  }

  ghost predicate NumberIsAge(files: seq<File>) {
    forall f, g :: f in files && g in files && f.number > g.number ==> Newer(Elements(f.entries), Elements(g.entries))
  }

  ghost predicate DistinctNumbers(files: seq<File>) {
    forall f, g :: f in files && g in files && f.number == g.number ==> f == g
  }

  /** A file number names one file, in one level. */
  ghost predicate UniqueNumbers(v: Version) {
    (forall l :: 0 <= l < |v| ==> DistinctNumbers(v[l])) &&
    forall l, m :: 0 <= l < m < |v| ==> Numbers(v[l]) !! Numbers(v[m])
  }

  ghost function Numbers(files: seq<File>): set<nat> {
    set f | f in files :: f.number
  }

  ghost predicate LevelsValid(v: Version) {
    forall l :: 0 <= l < |v| ==> ValidFiles(v[l])
  }

  ghost predicate LevelsDisjoint(v: Version) {
    forall l :: 1 <= l < |v| ==> Disjoint(v[l])
  }

  ghost predicate ValidVersion(v: Version) {
    |v| == NUM_LEVELS && LevelsValid(v) && LevelsDisjoint(v) &&
    NumberIsAge(v[0]) && ShallowerIsNewer(v) && UniqueNumbers(v)
  }

  // ---- one sorted entry list -------------------------------------------------

  /** Index of the first entry at or after k. */
  function Seek(entries: seq<Entry>, k: IKey): (i: nat)
    ensures i <= |entries|
    ensures forall j :: 0 <= j < i ==> Less(entries[j].key, k)
    ensures i < |entries| ==> !Less(entries[i].key, k)
  {
    if |entries| == 0 || !Less(entries[0].key, k) then 0 else 1 + Seek(entries[1..], k)
  }

  /** MemTable::Get, and Table::InternalGet followed by SaveValue: seek, then
      compare the user key found. */
  function Search(entries: seq<Entry>, u: UserKey, s: SequenceNumber): Answer {
    var i := Seek(entries, SeekKey(u, s));
    if i < |entries| && entries[i].key.user == u then AnswerOf(entries[i]) else NotFound
  }

  /** The entry a search stops on is the newest visible one; a search that finds
      nothing proves there is none. */
  lemma SearchFindsNewest(entries: seq<Entry>, u: UserKey, s: SequenceNumber)
    requires Sorted(entries)
    ensures var i := Seek(entries, SeekKey(u, s));
      if i < |entries| && entries[i].key.user == u
      then IsNewest(Elements(entries), u, s, entries[i])
      else NoneVisible(Elements(entries), u, s)
  {
    var i := Seek(entries, SeekKey(u, s));
    forall x | x in entries && AtOrBelow(x, u, s)
      ensures i < |entries| && entries[i].key.user == u && x.key.sequence <= entries[i].key.sequence
    {
      var j :| 0 <= j < |entries| && entries[j] == x;
      assert !(j < i);
    }
  }

  lemma SearchIsLookup(entries: seq<Entry>, u: UserKey, s: SequenceNumber)
    requires Sorted(entries)
    ensures Search(entries, u, s) == Lookup(Elements(entries), u, s)
  {
    SearchFindsNewest(entries, u, s);
    SortedIsIdentified(entries);
    var i := Seek(entries, SeekKey(u, s));
    if i < |entries| && entries[i].key.user == u {
      LookupIs(Elements(entries), u, s, entries[i]);
    }
  }

  lemma SortedIsIdentified(entries: seq<Entry>)
    requires Sorted(entries)
    ensures Identified(Elements(entries))
  {
  }

  // ---- one level ---------------------------------------------------------------

  /** Binary search for the first file whose largest key is at or after key. */
  method FindFile(files: seq<File>, key: IKey) returns (index: nat)
    requires ValidFiles(files) && Disjoint(files)
    ensures index <= |files|
    ensures forall i :: 0 <= i < index ==> Less(files[i].largest, key)
    ensures forall i :: index <= i < |files| ==> !Less(files[i].largest, key)
  {
    var left, right := 0, |files|;
    while left < right
      invariant 0 <= left <= right <= |files|
      invariant forall i :: 0 <= i < left ==> Less(files[i].largest, key)
      invariant forall i :: right <= i < |files| ==> !Less(files[i].largest, key)
    {
      var mid := (left + right) / 2;
      LargestAscends(files);
      if Less(files[mid].largest, key) {
        left := mid + 1;
      } else {
        right := mid;
      }
    }
    return right;
  }

  lemma Bounds(f: File, e: Entry)
    requires ValidFile(f) && e in f.entries
    ensures e.key == f.smallest || Before(f.smallest, e.key)
    ensures e.key == f.largest || Before(e.key, f.largest)
  {
  }

  lemma LargestAscends(files: seq<File>)
    requires ValidFiles(files) && Disjoint(files)
    ensures forall i, j :: 0 <= i < j < |files| ==> Before(files[i].largest, files[j].largest)
  {
    forall i, j | 0 <= i < j < |files| ensures Before(files[i].largest, files[j].largest) {
      assert ValidFile(files[j]);
      Bounds(files[j], files[j].entries[0]);
    }
  }

  /** Whatever a level holds for u at or below s is first met in the file that
      FindFile picks, even when the versions of u straddle two files. */
  lemma LevelSearch(files: seq<File>, index: nat, u: UserKey, s: SequenceNumber, x: Entry)
    requires ValidFiles(files) && Disjoint(files) && index <= |files|
    requires forall i :: 0 <= i < index ==> Less(files[i].largest, SeekKey(u, s))
    requires index < |files| ==> !Less(files[index].largest, SeekKey(u, s))
    requires x in FileEntries(files) && AtOrBelow(x, u, s)
    ensures index < |files| && files[index].smallest.user <= u
    ensures exists y :: y in files[index].entries && AtOrBelow(y, u, s) && x.key.sequence <= y.key.sequence
  {
    var i :| 0 <= i < |files| && x in files[i].entries;
    Bounds(files[i], x);
    var y := x;
    if i != index {
      // files[index] ends between the seek key and x, so it ends in user key u.
      assert ValidFile(files[index]);
      y := files[index].entries[|files[index].entries| - 1];
      assert Before(files[index].largest, files[i].smallest);
    }
    Bounds(files[index], y);
    assert y in files[index].entries && AtOrBelow(y, u, s) && x.key.sequence <= y.key.sequence;
  }

  lemma LevelMiss(files: seq<File>, index: nat, u: UserKey, s: SequenceNumber)
    requires ValidFiles(files) && Disjoint(files) && index <= |files|
    requires forall i :: 0 <= i < index ==> Less(files[i].largest, SeekKey(u, s))
    requires index < |files| ==> !Less(files[index].largest, SeekKey(u, s))
    requires index == |files| || u < files[index].smallest.user || NoneVisible(Elements(files[index].entries), u, s)
    ensures NoneVisible(FileEntries(files), u, s)
  {
    forall x | x in FileEntries(files) ensures !AtOrBelow(x, u, s) {
      if AtOrBelow(x, u, s) {
        LevelSearch(files, index, u, s, x);
      }
    }
  }

  lemma LevelNewest(files: seq<File>, index: nat, u: UserKey, s: SequenceNumber, e: Entry)
    requires ValidFiles(files) && Disjoint(files) && index < |files|
    requires forall i :: 0 <= i < index ==> Less(files[i].largest, SeekKey(u, s))
    requires !Less(files[index].largest, SeekKey(u, s))
    requires IsNewest(Elements(files[index].entries), u, s, e)
    ensures IsNewest(FileEntries(files), u, s, e)
  {
    forall x | x in FileEntries(files) && AtOrBelow(x, u, s) ensures x.key.sequence <= e.key.sequence {
      LevelSearch(files, index, u, s, x);
    }
    assert files[index] in files;
  }

  /** Could a user key of [lo, hi] occur in f?  A missing bound is a null pointer of
      the program and stands for "before all keys" or "after all keys". */
  predicate Touches(f: File, lo: Option<UserKey>, hi: Option<UserKey>) {
    !AfterFile(lo, f) && !BeforeFile(hi, f)
  }

  predicate AfterFile(u: Option<UserKey>, f: File) {
    u.Some? && u.value > f.largest.user
  }

  predicate BeforeFile(u: Option<UserKey>, f: File) {
    u.Some? && u.value < f.smallest.user
  }

  /** Does some file of the list reach into [lo, hi]?  The binary search is used
      only on the disjoint levels. */
  method SomeFileOverlapsRange(disjointSorted: bool, files: seq<File>, lo: Option<UserKey>, hi: Option<UserKey>)
      returns (overlaps: bool)
    requires ValidFiles(files) && (disjointSorted ==> Disjoint(files))
    ensures overlaps <==> exists f :: f in files && Touches(f, lo, hi)
  {
    if !disjointSorted {
      for i := 0 to |files|
        invariant forall j :: 0 <= j < i ==> !Touches(files[j], lo, hi)
      {
        if AfterFile(lo, files[i]) || BeforeFile(hi, files[i]) {
        } else {
          assert Touches(files[i], lo, hi);
          return true;
        }
      }
      return false;
    }
    var index := 0;
    if lo.Some? {
      index := FindFile(files, SeekKey(lo.value, MAX_SEQUENCE));
    }
    if index >= |files| {
      return false;
    }
    SmallestAscends(files);
    overlaps := !BeforeFile(hi, files[index]);
    if overlaps {
      assert Touches(files[index], lo, hi);
    }
  }

  lemma SmallestAscends(files: seq<File>)
    requires ValidFiles(files) && Disjoint(files)
    ensures forall i, j :: 0 <= i < j < |files| ==> Before(files[i].smallest, files[j].smallest)
  {
    forall i, j | 0 <= i < j < |files| ensures Before(files[i].smallest, files[j].smallest) {
      assert ValidFile(files[i]);
      Bounds(files[i], files[i].entries[|files[i].entries| - 1]);
    }
  }

  // ---- the whole version -------------------------------------------------------

  ghost predicate NewestFirst(files: seq<File>) {
    forall i, j :: 0 <= i < j < |files| ==> files[i].number >= files[j].number
  }

  ghost predicate SameFiles(a: seq<File>, b: seq<File>) {
    forall f :: f in a <==> f in b
  }

  function InsertByNumber(sorted: seq<File>, f: File): (r: seq<File>)
    requires NewestFirst(sorted)
    ensures NewestFirst(r) && |r| == |sorted| + 1
    ensures r[0] == f || (|sorted| > 0 && r[0] == sorted[0])
    ensures SameFiles(r, [f] + sorted)
  {
    if |sorted| == 0 || sorted[0].number < f.number then [f] + sorted
    else
      assert sorted == [sorted[0]] + sorted[1..];
      [sorted[0]] + InsertByNumber(sorted[1..], f)
  }

  /** std::sort with NewestFirst. */
  function SortNewestFirst(files: seq<File>): (sorted: seq<File>)
    ensures NewestFirst(sorted) && SameFiles(sorted, files)
  {
    if |files| == 0 then []
    else
      assert files == [files[0]] + files[1..];
      InsertByNumber(SortNewestFirst(files[1..]), files[0])
  }

  /** The level-0 files whose user-key range holds u. */
  method FilesHolding(files: seq<File>, u: UserKey) returns (tmp: seq<File>)
    ensures forall f :: f in tmp ==> f in files
    ensures forall f :: f in files && Touches(f, Some(u), Some(u)) ==> f in tmp
  {
    tmp := [];
    for i := 0 to |files|
      invariant forall f :: f in tmp ==> f in files
      invariant forall j :: 0 <= j < i && Touches(files[j], Some(u), Some(u)) ==> files[j] in tmp
    {
      if u >= files[i].smallest.user && u <= files[i].largest.user {
        tmp := tmp + [files[i]];
      }
    }
  }

  /** The level-0 part of ForEachOverlapping: every file whose range holds u, newest first. */
  method SearchLevel0(files: seq<File>, u: UserKey, s: SequenceNumber) returns (r: Answer)
    requires ValidFiles(files) && NumberIsAge(files) && DistinctNumbers(files)
    ensures r.NotFound? ==> NoneVisible(FileEntries(files), u, s)
    ensures !r.NotFound? ==> exists e :: IsNewest(FileEntries(files), u, s, e) && r == AnswerOf(e)
  {
    hide NumberIsAge, DistinctNumbers, NewestFirst, Touches, FileEntries, NoneVisible, Elements, IsNewest;
    var holding := FilesHolding(files, u);
    var tmp := SortNewestFirst(holding);
    for i := 0 to |tmp|
      invariant forall j :: 0 <= j < i ==> NoneVisible(Elements(tmp[j].entries), u, s)
    {
      assert tmp[i] in holding && ValidFile(tmp[i]);
      SearchFindsNewest(tmp[i].entries, u, s);
      r := Search(tmp[i].entries, u, s);
      if !r.NotFound? {
        Level0Hit(files, tmp, i, u, s, tmp[i].entries[Seek(tmp[i].entries, SeekKey(u, s))]);
        return;
      }
    }
    Level0Miss(files, tmp, u, s);
    r := NotFound;
  }

  lemma Level0Miss(files: seq<File>, order: seq<File>, u: UserKey, s: SequenceNumber)
    requires ValidFiles(files)
    requires forall f :: f in files && Touches(f, Some(u), Some(u)) ==> f in order
    requires forall j :: 0 <= j < |order| ==> NoneVisible(Elements(order[j].entries), u, s)
    ensures NoneVisible(FileEntries(files), u, s)
  {
    forall x | x in FileEntries(files) ensures !AtOrBelow(x, u, s) {
      var f :| f in files && x in f.entries;
      Bounds(f, x);
      assert x in Elements(f.entries);
    }
  }

  /** The first hit, going through level 0 from new files to old, is the newest entry of the level. */
  lemma HolderTouches(files: seq<File>, f: File, x: Entry)
    requires ValidFiles(files) && f in files && x in f.entries
    ensures Touches(f, Some(x.key.user), Some(x.key.user))
  {
    Bounds(f, x);
  }

  lemma Level0Hit(files: seq<File>, order: seq<File>, i: nat, u: UserKey, s: SequenceNumber, e: Entry)
    requires ValidFiles(files) && NumberIsAge(files) && DistinctNumbers(files)
    requires forall f :: f in order ==> f in files
    requires forall f :: f in files && Touches(f, Some(u), Some(u)) ==> f in order
    requires NewestFirst(order)
    requires i < |order| && forall j :: 0 <= j < i ==> NoneVisible(Elements(order[j].entries), u, s)
    requires IsNewest(Elements(order[i].entries), u, s, e)
    ensures IsNewest(FileEntries(files), u, s, e)
  {
    hide ValidFile;
    forall f, x | f in files && x in f.entries && AtOrBelow(x, u, s)
      ensures x.key.sequence <= e.key.sequence
    {
      HolderTouches(files, f, x);
      var j :| 0 <= j < |order| && order[j] == f;
      assert x in Elements(order[j].entries);
      assert order[i] in files;
      if f.number != order[i].number {
        assert j > i;
        assert Newer(Elements(order[i].entries), Elements(f.entries));
      }
    }
  }

  /** One level above 0 in ForEachOverlapping: the file the binary search picks, unless it starts after u. */
  method SearchLevel(files: seq<File>, u: UserKey, s: SequenceNumber) returns (r: Answer)
    requires ValidFiles(files) && Disjoint(files)
    ensures r.NotFound? ==> NoneVisible(FileEntries(files), u, s)
    ensures !r.NotFound? ==> exists e :: IsNewest(FileEntries(files), u, s, e) && r == AnswerOf(e)
  {
    var index := FindFile(files, SeekKey(u, s));
    if index >= |files| || u < files[index].smallest.user {
      LevelMiss(files, index, u, s);
      return NotFound;
    }
    var f := files[index];
    assert ValidFile(f);
    SearchFindsNewest(f.entries, u, s);
    r := Search(f.entries, u, s);
    if r.NotFound? {
      LevelMiss(files, index, u, s);
    } else {
      LevelNewest(files, index, u, s, f.entries[Seek(f.entries, SeekKey(u, s))]);
    }
  }

  /** Version::Get: level 0, then the other levels from the shallowest down. */
  method Get(v: Version, u: UserKey, s: SequenceNumber) returns (r: Answer)
    requires ValidVersion(v)
    ensures r == Lookup(Stored(v), u, s)
  {
    hide FileEntries, NumberIsAge, ShallowerIsNewer, Disjoint, ValidFiles, NoneVisible, IsNewest;
    r := SearchLevel0(v[0], u, s);
    if !r.NotFound? {
      VersionHit(v, 0, u, s, r);
      return;
    }
    for level := 1 to NUM_LEVELS
      invariant forall l :: 0 <= l < level ==> NoneVisible(FileEntries(v[l]), u, s)
    {
      r := SearchLevel(v[level], u, s);
      if !r.NotFound? {
        VersionHit(v, level, u, s, r);
        return;
      }
    }
    VersionMiss(v, u, s);
    r := NotFound;
  }

  lemma VersionMiss(v: Version, u: UserKey, s: SequenceNumber)
    requires forall l :: 0 <= l < |v| ==> NoneVisible(FileEntries(v[l]), u, s)
    ensures NoneVisible(Stored(v), u, s)
  {
    hide FileEntries;
  }

  /** The first level that answers holds the newest entry of the whole version. */
  lemma LevelHit(v: Version, level: nat, u: UserKey, s: SequenceNumber, e: Entry)
    requires ShallowerIsNewer(v) && level < |v|
    requires forall l :: 0 <= l < level ==> NoneVisible(FileEntries(v[l]), u, s)
    requires IsNewest(FileEntries(v[level]), u, s, e)
    ensures IsNewest(Stored(v), u, s, e)
  {
    hide FileEntries;
    forall x | x in Stored(v) && AtOrBelow(x, u, s) ensures x.key.sequence <= e.key.sequence {
      var m :| 0 <= m < |v| && x in FileEntries(v[m]);
      if m > level {
        assert Newer(FileEntries(v[level]), FileEntries(v[m]));
      }
    }
  }

  lemma VersionHit(v: Version, level: nat, u: UserKey, s: SequenceNumber, r: Answer)
    requires ValidVersion(v) && level < |v|
    requires forall l :: 0 <= l < level ==> NoneVisible(FileEntries(v[l]), u, s)
    requires exists e :: IsNewest(FileEntries(v[level]), u, s, e) && r == AnswerOf(e)
    ensures r == Lookup(Stored(v), u, s)
  {
    hide LevelsValid, LevelsDisjoint, NumberIsAge, UniqueNumbers, ShallowerIsNewer, FileEntries, Stored;
    hide NoneVisible, IsNewest;
    var e :| IsNewest(FileEntries(v[level]), u, s, e) && r == AnswerOf(e);
    LevelHit(v, level, u, s, e);
    StoredIsIdentified(v);
    LookupIs(Stored(v), u, s, e);
  }

  lemma StoredIsIdentified(v: Version)
    requires ValidVersion(v)
    ensures Identified(Stored(v))
  {
    hide FileEntries, ShallowerIsNewer, Stored, Identified, Newer;
    forall l | 0 <= l < |v| ensures Identified(FileEntries(v[l])) {
      if l == 0 {
        Level0IsIdentified(v[0]);
      } else {
        DisjointIsIdentified(v[l]);
      }
    }
    LayersAreIdentified(v);
  }

  lemma LayersAreIdentified(v: Version)
    requires ShallowerIsNewer(v)
    requires forall l :: 0 <= l < |v| ==> Identified(FileEntries(v[l]))
    ensures Identified(Stored(v))
  {
    hide FileEntries;
    forall x, y | x in Stored(v) && y in Stored(v) && x.key.user == y.key.user && x.key.sequence == y.key.sequence
      ensures x == y
    {
      var l :| 0 <= l < |v| && x in FileEntries(v[l]);
      var m :| 0 <= m < |v| && y in FileEntries(v[m]);
    }
  }

  lemma DisjointIsIdentified(files: seq<File>)
    requires ValidFiles(files) && Disjoint(files)
    ensures Identified(FileEntries(files))
  {
    forall x, y | x in FileEntries(files) && y in FileEntries(files) && x.key.user == y.key.user &&
      x.key.sequence == y.key.sequence
      ensures x == y
    {
      var f :| f in files && x in f.entries;
      var g :| g in files && y in g.entries;
      if f == g {
        SortedIsIdentified(f.entries);
        assert x in Elements(f.entries) && y in Elements(f.entries);
      } else {
        DisjointApart(files, f, g, x, y);
      }
    }
  }

  lemma DisjointApart(files: seq<File>, f: File, g: File, x: Entry, y: Entry)
    requires ValidFiles(files) && Disjoint(files) && f in files && g in files && f != g && x in f.entries &&
      y in g.entries
    ensures Before(x.key, y.key) || Before(y.key, x.key)
  {
    Bounds(f, x);
    Bounds(g, y);
  }

  lemma Level0IsIdentified(files: seq<File>)
    requires ValidFiles(files) && NumberIsAge(files) && DistinctNumbers(files)
    ensures Identified(FileEntries(files))
  {
    hide ValidFile;
    forall x, y | x in FileEntries(files) && y in FileEntries(files) && x.key.user == y.key.user &&
      x.key.sequence == y.key.sequence
      ensures x == y
    {
      var f :| f in files && x in f.entries;
      var g :| g in files && y in g.entries;
      assert x in Elements(f.entries) && y in Elements(g.entries);
      if f == g {
        assert ValidFile(f);
        ValidIsIdentified(f);
      }
    }
  }

  lemma ValidIsIdentified(f: File)
    requires ValidFile(f)
    ensures Identified(Elements(f.entries))
  {
    SortedIsIdentified(f.entries);
  }
}
