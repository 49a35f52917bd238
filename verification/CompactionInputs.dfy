/** Choosing what one compaction reads: GetRange, AddBoundaryInputs, SetupOtherInputs,
  PickCompaction and CompactRange of db/version_set.cc. */
module CompactionInputs {
  import opened Options
  import opened InternalKeys
  import opened Versions
  import opened Overlap

  // ---- ranges --------------------------------------------------------------------

  /** The user-key range of a nonempty file list. */
  ghost predicate Hull(files: seq<File>, r: Range) {
    r.lo.Some? && r.hi.Some? && (forall f :: f in files ==> Inside(f, r)) &&
    (exists f :: f in files && f.smallest.user == r.lo.value) &&
    (exists f :: f in files && f.largest.user == r.hi.value)
  }

  function UserRange(smallest: IKey, largest: IKey): Range {
    Range(Some(smallest.user), Some(largest.user))
  }

  method GetRange(inputs: seq<File>) returns (smallest: IKey, largest: IKey)
    requires |inputs| > 0
    ensures Hull(inputs, UserRange(smallest, largest))
    ensures (exists f :: f in inputs && f.largest == largest) && (exists f :: f in inputs && f.smallest == smallest)
    ensures forall f :: f in inputs ==> !Less(f.smallest, smallest) && !Less(largest, f.largest)
  {
    smallest, largest := inputs[0].smallest, inputs[0].largest;
    ghost var low, high := inputs[0], inputs[0];
    for i := 1 to |inputs|
      invariant low in inputs && low.smallest == smallest && high in inputs && high.largest == largest
      invariant forall j :: 0 <= j < i ==> !Less(inputs[j].smallest, smallest) && !Less(largest, inputs[j].largest)
    {
      if Less(inputs[i].smallest, smallest) {
        smallest, low := inputs[i].smallest, inputs[i];
      }
      if Less(largest, inputs[i].largest) {
        largest, high := inputs[i].largest, inputs[i];
      }
    }
  }

  // ---- boundary files --------------------------------------------------------------

  /** Does f start after k, within the same user key? */
  predicate Follows(f: File, k: IKey) {
    Less(k, f.smallest) && f.smallest.user == k.user
  }

  function SmallestBoundary(files: seq<File>, k: IKey): (r: Option<File>)
    ensures r.None? ==> forall f :: f in files ==> !Follows(f, k)
    ensures r.Some? ==> r.value in files && Follows(r.value, k)
    ensures r.Some? ==> forall f :: f in files && Follows(f, k) ==> !Less(f.smallest, r.value.smallest)
  {
    if |files| == 0 then None
    else
      var n := |files| - 1;
      assert files == files[..n] + [files[n]];
      var best := SmallestBoundary(files[..n], k);
      if Follows(files[n], k) &&
          (best.None? || Less(files[n].smallest, best.value.smallest)) then Some(files[n]) else best
  }

  method FindSmallestBoundaryFile(files: seq<File>, k: IKey) returns (best: Option<File>)
    ensures best == SmallestBoundary(files, k)
  {
    best := None;
    for i := 0 to |files|
      invariant best == SmallestBoundary(files[..i], k)
    {
      assert files[..i + 1][..i] == files[..i];
      if Less(k, files[i].smallest) && files[i].smallest.user == k.user {
        if best.None? || Less(files[i].smallest, best.value.smallest) {
          best := Some(files[i]);
        }
      }
    }
    assert files[..|files|] == files;
  }

  /** How many files start after k. */
  ghost function StartingAfter(files: seq<File>, k: IKey): nat {
    if |files| == 0 then 0 else (if Less(k, files[0].smallest) then 1 else 0) + StartingAfter(files[1..], k)
  }

  lemma {:induction false} StartingAfterFalls(files: seq<File>, k: IKey, f: File, k': IKey)
    requires Less(k, f.smallest) && !Less(k', f.smallest)
    ensures StartingAfter(files, k') <= StartingAfter(files, k)
    ensures f in files ==> StartingAfter(files, k') < StartingAfter(files, k)
  {
    if |files| > 0 {
      StartingAfterFalls(files[1..], k, f, k');
    }
  }

  /** The file list after the boundary files behind k, and behind each other, are appended. */
  ghost function WithBoundary(files: seq<File>, inputs: seq<File>, k: IKey): seq<File>
    requires ValidFiles(files)
    decreases StartingAfter(files, k)
  {
    match SmallestBoundary(files, k)
    case None => inputs
    case Some(f) =>
      assert ValidFile(f);
      Bounds(f, f.entries[0]);
      StartingAfterFalls(files, k, f, f.largest);
      WithBoundary(files, inputs + [f], f.largest)
  }

  ghost predicate Largest(files: seq<File>, k: IKey) {
    (exists f :: f in files && f.largest == k) && forall f :: f in files ==> !Less(k, f.largest)
  }

  method AddBoundaryInputs(levelFiles: seq<File>, compactionFiles: seq<File>) returns (r: seq<File>, ghost k: IKey)
    requires ValidFiles(levelFiles)
    ensures |compactionFiles| == 0 ==> r == []
    ensures |compactionFiles| > 0 ==> Largest(compactionFiles, k) && r == WithBoundary(levelFiles, compactionFiles, k)
  {
    r, k := compactionFiles, IKey(0, 0, Value);
    if |compactionFiles| == 0 {
      return;
    }
    var largest := FindLargestKey(compactionFiles);
    k := largest;
    var searching := true;
    while searching
      invariant searching ==> WithBoundary(levelFiles, r, largest) == WithBoundary(levelFiles, compactionFiles, k)
      invariant !searching ==> r == WithBoundary(levelFiles, compactionFiles, k)
      decreases searching, StartingAfter(levelFiles, largest)
    {
      var boundary := FindSmallestBoundaryFile(levelFiles, largest);
      if boundary.Some? {
        assert ValidFile(boundary.value);
        Bounds(boundary.value, boundary.value.entries[0]);
        StartingAfterFalls(levelFiles, largest, boundary.value, boundary.value.largest);
        r := r + [boundary.value];
        largest := boundary.value.largest;
      } else {
        searching := false;
      }
    }
  }

  method FindLargestKey(files: seq<File>) returns (largest: IKey)
    requires |files| > 0
    ensures Largest(files, largest)
  {
    largest := files[0].largest;
    ghost var at := files[0];
    for i := 1 to |files|
      invariant at in files && at.largest == largest
      invariant forall j :: 0 <= j < i ==> !Less(largest, files[j].largest)
    {
      if Less(largest, files[i].largest) {
        largest, at := files[i].largest, files[i];
      }
    }
  }

  // ---- what the boundary files buy -------------------------------------------------

  /** A run of neighbours that no later file of the level shares a user key with. */
  ghost predicate Severed(files: seq<File>, a: int, b: int) {
    0 <= a < b <= |files| && (b < |files| ==> files[b].smallest.user != files[b - 1].largest.user)
  }

  ghost predicate SeveredRun(files: seq<File>, inputs: seq<File>) {
    exists a, b :: Severed(files, a, b) && inputs == files[a..b]
  }

  ghost predicate IsRun(files: seq<File>, inputs: seq<File>) {
    exists a, b :: 0 <= a < b <= |files| && inputs == files[a..b]
  }

  lemma RunLargest(files: seq<File>, a: nat, b: nat, k: IKey)
    requires ValidFiles(files) && Disjoint(files) && a < b <= |files| && Largest(files[a..b], k)
    ensures k == files[b - 1].largest
  {
    LargestAscends(files);
    assert files[b - 1] == files[a..b][b - 1 - a];
    assert files[b - 1] in files[a..b];
  }

  lemma EarlierDoNotFollow(files: seq<File>, b: nat, i: nat)
    requires ValidFiles(files) && Disjoint(files) && i < b <= |files|
    ensures !Follows(files[i], files[b - 1].largest)
  {
    SmallestAscends(files);
    assert ValidFile(files[b - 1]);
    Bounds(files[b - 1], files[b - 1].entries[0]);
  }

  lemma NeighbourFollowsFirst(files: seq<File>, b: nat, i: nat)
    requires ValidFiles(files) && Disjoint(files) && 0 < b <= i < |files| && Follows(files[i], files[b - 1].largest)
    ensures Follows(files[b], files[b - 1].largest)
    ensures i != b ==> Less(files[b].smallest, files[i].smallest)
  {
    SmallestAscends(files);
  }

  /** In a disjoint level the boundary file of a run is its right neighbour. */
  lemma BoundaryIsNeighbour(files: seq<File>, b: nat)
    requires ValidFiles(files) && Disjoint(files) && 0 < b <= |files|
    ensures var r := SmallestBoundary(files, files[b - 1].largest);
      if b < |files| && files[b].smallest.user == files[b - 1].largest.user then r == Some(files[b]) else r == None
  {
    hide SmallestBoundary, ValidFiles;
    var k := files[b - 1].largest;
    var r := SmallestBoundary(files, k);
    if r.Some? {
      var i :| 0 <= i < |files| && files[i] == r.value;
      if i < b {
        EarlierDoNotFollow(files, b, i);
      } else {
        NeighbourFollowsFirst(files, b, i);
      }
    } else if b < |files| {
      assert !Follows(files[b], k);
    }
  }

  /** Appending boundary files turns a run into one that shares no user key with a later file. */
  lemma {:induction false} BoundarySevers(files: seq<File>, a: nat, b: nat)
    requires ValidFiles(files) && Disjoint(files) && a < b <= |files|
    ensures SeveredRun(files, WithBoundary(files, files[a..b], files[b - 1].largest))
    decreases |files| - b
  {
    hide SmallestBoundary, Disjoint;
    BoundaryIsNeighbour(files, b);
    if b < |files| && files[b].smallest.user == files[b - 1].largest.user {
      assert files[a..b] + [files[b]] == files[a..b + 1];
      BoundarySevers(files, a, b + 1);
    } else {
      assert Severed(files, a, b);
    }
  }

  ghost predicate Ascending(files: seq<File>) {
    forall i, j :: 0 <= i < j < |files| ==>
      files[i].smallest.user <= files[j].smallest.user && files[i].largest.user <= files[j].largest.user
  }

  lemma DisjointIsAscending(files: seq<File>)
    requires ValidFiles(files) && Disjoint(files)
    ensures Ascending(files)
  {
    SmallestAscends(files);
    LargestAscends(files);
  }

  /** The files of an ascending level that meet a range are neighbours. */
  lemma SelectedIsRun(files: seq<File>, r: Range) returns (a: nat, b: nat)
    requires Ascending(files)
    ensures a <= b <= |files| && Selected(files, r) == files[a..b]
  {
    a := 0;
    while a < |files| && !Meets(files[a], r)
      invariant a <= |files| && forall i :: 0 <= i < a ==> !Meets(files[i], r)
    {
      a := a + 1;
    }
    b := a;
    while b < |files| && Meets(files[b], r)
      invariant a <= b <= |files| && forall i :: a <= i < b ==> Meets(files[i], r)
    {
      b := b + 1;
    }
    forall i | b <= i < |files| ensures !Meets(files[i], r) {
      assert a < b ==> Meets(files[b - 1], r) && files[b - 1].largest.user <= files[b].largest.user;
    }
    SelectedBetween(files, r, a, b);
  }

  lemma {:induction false} SelectedBetween(files: seq<File>, r: Range, a: nat, b: nat)
    requires a <= b <= |files|
    requires forall i :: 0 <= i < |files| ==> (Meets(files[i], r) <==> a <= i < b)
    ensures Selected(files, r) == files[a..b]
  {
    if |files| > 0 {
      var n := |files| - 1;
      if b == |files| && a < b {
        SelectedBetween(files[..n], r, a, n);
        assert files[a..b] == files[..n][a..n] + [files[n]];
      } else {
        SelectedBetween(files[..n], r, if a <= n then a else n, if b <= n then b else n);
      }
    }
  }

  /** A level-0 input set that no other level-0 file overlaps. */
  ghost predicate Isolated(files: seq<File>, inputs: seq<File>) {
    forall r, f :: Hull(inputs, r) && f in files && Meets(f, r) ==> f in inputs
  }

  lemma ClosedSelectionIsIsolated(files: seq<File>, r: Range)
    requires Closed(files, r)
    ensures Isolated(files, Selected(files, r))
  {
    SelectedMembers(files, r);
    forall h, f | Hull(Selected(files, r), h) && f in files && Meets(f, h) ensures f in Selected(files, r) {
      var low :| low in Selected(files, r) && low.smallest.user == h.lo.value;
      var high :| high in Selected(files, r) && high.largest.user == h.hi.value;
      assert Inside(low, r) && Inside(high, r);
    }
  }

  /** Level 0 has no boundary files beyond an isolated set. */
  lemma IsolatedNeedsNoBoundary(files: seq<File>, inputs: seq<File>, k: IKey)
    requires ValidFiles(files) && ValidFiles(inputs) && |inputs| > 0 && Isolated(files, inputs) && Largest(inputs, k)
    ensures WithBoundary(files, inputs, k) == inputs
  {
    var smallest, largest := RangeExists(inputs);
    var r := UserRange(smallest, largest);
    forall f | f in files ensures !Follows(f, k) {
      if Follows(f, k) {
        assert ValidFile(f);
        Bounds(f, f.entries[0]);
        var top :| top in inputs && top.largest == k;
        assert Inside(top, r);
        var edge :| edge in inputs && edge.largest.user == largest.user;
        assert !Less(k, edge.largest);
        assert ValidFile(top);
        Bounds(top, top.entries[0]);
        assert Meets(f, r);
      }
    }
  }

  lemma RangeExists(inputs: seq<File>) returns (smallest: IKey, largest: IKey)
    requires |inputs| > 0
    ensures Hull(inputs, UserRange(smallest, largest))
  {
    smallest, largest := inputs[0].smallest, inputs[0].largest;
    var low, high := inputs[0], inputs[0];
    for i := 1 to |inputs|
      invariant low in inputs && low.smallest == smallest && high in inputs && high.largest == largest
      invariant forall j :: 0 <= j < i ==> Inside(inputs[j], UserRange(smallest, largest))
    {
      if inputs[i].smallest.user < smallest.user {
        smallest, low := inputs[i].smallest, inputs[i];
      }
      if largest.user < inputs[i].largest.user {
        largest, high := inputs[i].largest, inputs[i];
      }
    }
  }

  ghost predicate NoRepeat(files: seq<File>) {
    forall i, j :: 0 <= i < j < |files| ==> files[i] != files[j]
  }

  lemma DisjointHasNoRepeat(files: seq<File>, a: nat, b: nat)
    requires ValidFiles(files) && Disjoint(files) && a <= b <= |files|
    ensures NoRepeat(files[a..b])
  {
    LargestAscends(files);
  }

  lemma {:induction false} SelectedHasNoRepeat(files: seq<File>, r: Range)
    requires NoRepeat(files)
    ensures NoRepeat(Selected(files, r))
  {
    if |files| > 0 {
      var n := |files| - 1;
      SelectedHasNoRepeat(files[..n], r);
      SelectedMembers(files[..n], r);
      forall f | f in files[..n] ensures f != files[n] {
        var i :| 0 <= i < n && files[..n][i] == f;
        assert files[i] == f;
      }
    }
  }

  // ---- inputs without gaps ------------------------------------------------------------------------

  ghost predicate Covers(files: seq<File>, u: UserKey) {
    exists f :: f in files && Touches(f, Some(u), Some(u))
  }

  ghost predicate Between(files: seq<File>, u: UserKey) {
    (exists f :: f in files && f.smallest.user <= u) && exists f :: f in files && u <= f.largest.user
  }

  /** No key between the first and the last of the files is in none of their ranges. */
  ghost predicate Gapless(files: seq<File>) {
    forall u :: Between(files, u) ==> Covers(files, u)
  }

  /** Files that meet the range of a list without gaps leave no gaps. */
  lemma MeetingLeavesNoGap(files: seq<File>, r: Range, more: seq<File>)
    requires Gapless(files) && Hull(files, r) && forall f :: f in more ==> Meets(f, r)
    ensures Gapless(files + more)
  {
    var all := files + more;
    forall u | Between(all, u) ensures Covers(all, u) {
      if Between(files, u) {
        var f :| f in files && Touches(f, Some(u), Some(u));
        assert f in all;
      } else {
        var f :| f in all && f.smallest.user <= u;
        var g :| g in all && u <= g.largest.user;
        assert f in files ==> Inside(f, r);
        assert g in files ==> Inside(g, r);
        assert Touches(f, Some(u), Some(u)) || Touches(g, Some(u), Some(u));
      }
    }
  }

  lemma SameIsGapless(files: seq<File>, same: seq<File>)
    requires Gapless(files) && forall f :: f in files <==> f in same
    ensures Gapless(same)
  {
    forall u | Between(same, u) ensures Covers(same, u) {
      assert Between(files, u);
    }
  }

  /** So do boundary files, wherever the rest of the files lies. */
  lemma {:induction false} BoundaryLeavesNoGap(files: seq<File>, inputs: seq<File>, k: IKey, rest: seq<File>)
    requires ValidFiles(files) && ValidFiles(inputs) && Gapless(inputs + rest) &&
      exists g :: g in inputs && g.largest == k
    ensures Gapless(WithBoundary(files, inputs, k) + rest)
    decreases StartingAfter(files, k)
  {
    hide Gapless;
    var next := SmallestBoundary(files, k);
    if next.Some? {
      var f := next.value;
      assert ValidFile(f);
      Bounds(f, f.entries[0]);
      StartingAfterFalls(files, k, f, f.largest);
      var g :| g in inputs && g.largest == k;
      NextLeavesNoGap(inputs + rest, g, f);
      SameIsGapless(inputs + rest + [f], inputs + [f] + rest);
      assert f in inputs + [f];
      BoundaryLeavesNoGap(files, inputs + [f], f.largest, rest);
    }
  }

  lemma NextLeavesNoGap(files: seq<File>, g: File, f: File)
    requires Gapless(files) && g in files && ValidFile(g) && ValidFile(f) && f.smallest.user == g.largest.user
    ensures Gapless(files + [f])
  {
    var smallest, largest := RangeExists(files);
    Bounds(g, g.entries[0]);
    Bounds(f, f.entries[0]);
    assert Inside(g, UserRange(smallest, largest));
    MeetingLeavesNoGap(files, UserRange(smallest, largest), [f]);
  }

  lemma OneIsGapless(v: Version, level: nat, f: File)
    requires LevelsValid(v) && level < |v| && f in v[level]
    ensures Gapless([f])
  {
    forall u | Between([f], u) ensures Covers([f], u) {
      assert f in [f];
      assert Touches(f, Some(u), Some(u));
    }
  }

  /** The inputs that a list without gaps leads to. */
  lemma ChoiceIsGapless(v: Version, level: nat, seed: seq<File>, k: IKey, inputs0: seq<File>, r: Range)
    requires LevelsValid(v) && level + 1 < |v| && (forall f :: f in seed ==> f in v[level]) && Gapless(seed) &&
      Largest(seed, k)
    requires ValidFiles(v[level]) && inputs0 == WithBoundary(v[level], seed, k) && Hull(inputs0, r)
    ensures Gapless(inputs0 + Selected(v[level + 1], r))
  {
    hide Gapless, Hull, Selected;
    assert seed + [] == seed;
    assert inputs0 + [] == inputs0;
    BoundaryLeavesNoGap(v[level], seed, k, []);
    SelectedMembers(v[level + 1], r);
    MeetingLeavesNoGap(inputs0, r, Selected(v[level + 1], r));
  }

  /** A file of level 0 that the search from the request on has come to is connected with it. */
  lemma ClosureLeavesNoGap(files: seq<File>, some: seq<File>, request: Range, range: Range)
    requires Gapless(some) && Hull(some, request) && LeastClosed(files, request, range)
    ensures Gapless(some + Selected(files, range))
  {
    SelectedMembers(files, range);
    var all := some + Selected(files, range);
    forall u | Between(all, u) ensures Covers(all, u) {
      if Between(some, u) {
        var f :| f in some && Touches(f, Some(u), Some(u));
        assert f in all;
      } else if u < request.lo.value {
        ClosedAfter(files, request, range, u, all);
      } else {
        assert request.hi.value < u;
        ClosedBefore(files, request, range, u, all);
      }
    }
  }

  lemma ClosedAfter(files: seq<File>, request: Range, range: Range, u: UserKey, all: seq<File>)
    requires LeastClosed(files, request, range) && request.lo.Some? && u < request.lo.value
    requires forall f :: f in all && f.smallest.user <= u ==> f in Selected(files, range)
    requires exists f :: f in all && f.smallest.user <= u
    requires forall f :: f in Selected(files, range) ==> f in all && Meets(f, range) && f in files
    requires forall f :: f in files && Meets(f, range) ==> f in Selected(files, range)
    ensures Covers(all, u)
  {
    if !Covers(all, u) {
      var c :| c in all && c.smallest.user <= u;
      var other := Range(Some(u + 1), range.hi);
      assert Inside(c, range);
      forall g | g in files && Meets(g, other) ensures Inside(g, other) {
        assert Meets(g, range);
        assert Inside(g, range);
        assert !Touches(g, Some(u), Some(u));
      }
      assert Closed(files, other) && Within(request, other);
    }
  }

  lemma ClosedBefore(files: seq<File>, request: Range, range: Range, u: UserKey, all: seq<File>)
    requires LeastClosed(files, request, range) && request.hi.Some? && request.hi.value < u
    requires forall f :: f in all && u <= f.largest.user ==> f in Selected(files, range)
    requires exists f :: f in all && u <= f.largest.user
    requires forall f :: f in Selected(files, range) ==> f in all && Meets(f, range) && f in files
    requires forall f :: f in files && Meets(f, range) ==> f in Selected(files, range)
    ensures Covers(all, u)
  {
    if !Covers(all, u) {
      var c :| c in all && u <= c.largest.user;
      var other := Range(range.lo, Some(u - 1));
      assert Inside(c, range);
      forall g | g in files && Meets(g, other) ensures Inside(g, other) {
        assert Meets(g, range);
        assert Inside(g, range);
        assert !Touches(g, Some(u), Some(u));
      }
      assert Closed(files, other) && Within(request, other);
    }
  }

  lemma OverlapIsGapless(v: Version, picked: File, request: Range, range: Range)
    requires |v| > 0 && LevelsValid(v) && picked in v[0] && Gapless([picked]) && Hull([picked], request)
    requires LeastClosed(v[0], request, range)
    ensures Gapless(Selected(v[0], range))
  {
    hide Gapless;
    ClosureLeavesNoGap(v[0], [picked], request, range);
    SelectedMembers(v[0], range);
    CoveredByRange(v, 0, [picked], [], request, range);
    assert [picked] + [] == [picked];
    SameIsGapless([picked] + Selected(v[0], range), Selected(v[0], range));
  }

  /** Taking more upper files does not open a gap either. */
  lemma ExpansionIsGapless(v: Version, level: nat, inputs0: seq<File>, inputs1: seq<File>, request: Range,
                           range: Range, base: seq<File>, k: IKey, more0: seq<File>, more1: seq<File>, r: Range)
    requires LevelsValid(v) && Legal(v, level, inputs0, inputs1) && Gapless(inputs0 + inputs1) &&
      Hull(inputs0 + inputs1, request)
    requires base == Selected(v[level], range) && (level > 0 ==> range == request)
    requires level == 0 ==> LeastClosed(v[0], request, range)
    requires (forall f :: f in inputs0 ==> f in base) && Largest(base, k) && ValidFiles(v[level])
    requires more0 == WithBoundary(v[level], base, k) && (forall f :: f in base ==> f in more0)
    requires Hull(more0, r) && more1 == Selected(v[level + 1], r)
    ensures Gapless(more0 + more1)
  {
    hide Gapless, Hull, Selected, LeastClosed, WithBoundary;
    SelectedMembers(v[level], range);
    SelectedMembers(v[level + 1], r);
    if level == 0 {
      ClosureLeavesNoGap(v[0], inputs0 + inputs1, request, range);
    } else {
      MeetingLeavesNoGap(inputs0 + inputs1, request, base);
    }
    SameIsGapless(inputs0 + inputs1 + base, base + inputs1);
    BoundaryLeavesNoGap(v[level], base, k, inputs1);
    LowerStay(v, level, inputs0, inputs1, more0, r);
    WiderLeavesNoGap(more0, inputs1, r, more1);
  }

  /** The lower inputs of fewer files are among those of more. */
  lemma LowerStay(v: Version, level: nat, inputs0: seq<File>, inputs1: seq<File>, more0: seq<File>, r: Range)
    requires Legal(v, level, inputs0, inputs1) && (forall f :: f in inputs0 ==> f in more0) && Hull(more0, r)
    ensures forall f :: f in inputs1 ==> f in Selected(v[level + 1], r)
  {
    var h :| Hull(inputs0, h) && inputs1 == Selected(v[level + 1], h);
    SelectedMembers(v[level + 1], h);
    SelectedMembers(v[level + 1], r);
    var low :| low in inputs0 && low.smallest.user == h.lo.value;
    var high :| high in inputs0 && high.largest.user == h.hi.value;
    assert Inside(low, r) && Inside(high, r);
  }

  lemma WiderLeavesNoGap(files: seq<File>, some: seq<File>, r: Range, more: seq<File>)
    requires Gapless(files + some) && Hull(files, r) && |files| > 0
    requires (forall f :: f in more ==> Meets(f, r)) && forall f :: f in some ==> f in more
    ensures Gapless(files + more)
  {
    hide Gapless;
    var smallest, largest := RangeExists(files + some);
    var wide := UserRange(smallest, largest);
    var low :| low in files && low.smallest.user == r.lo.value;
    var high :| high in files && high.largest.user == r.hi.value;
    assert low in files + some && high in files + some;
    assert Inside(low, wide) && Inside(high, wide);
    MeetingLeavesNoGap(files + some, wide, more);
    SameIsGapless(files + some + more, files + more);
  }

  // ---- the inputs of a compaction ---------------------------------------------------

  /** What PickCompaction and CompactRange start from. */
  ghost predicate Seed(v: Version, level: nat, inputs: seq<File>) {
    level + 1 < |v| && |inputs| > 0 && (forall f :: f in inputs ==> f in v[level]) && NoRepeat(inputs) &&
    (if level == 0 then Isolated(v[0], inputs) else IsRun(v[level], inputs))
  }

  /** The files taken from the upper level: nothing older for their user keys stays behind in it. */
  ghost predicate Upper(v: Version, level: nat, inputs: seq<File>) {
    level + 1 < |v| && |inputs| > 0 && (forall f :: f in inputs ==> f in v[level]) && NoRepeat(inputs) &&
    (if level == 0 then Isolated(v[0], inputs) else SeveredRun(v[level], inputs))
  }

  /** A complete choice: the lower inputs are exactly the files that meet the range of the upper ones. */
  ghost predicate Legal(v: Version, level: nat, inputs0: seq<File>, inputs1: seq<File>) {
    level + 1 < |v| && Upper(v, level, inputs0) &&
    exists r :: Hull(inputs0, r) && inputs1 == Selected(v[level + 1], r)
  }

  lemma {:induction false} BoundaryKeeps(files: seq<File>, inputs: seq<File>, k: IKey)
    requires ValidFiles(files)
    ensures inputs <= WithBoundary(files, inputs, k)
    ensures forall f :: f in WithBoundary(files, inputs, k) ==> f in inputs || f in files
    decreases StartingAfter(files, k)
  {
    var next := SmallestBoundary(files, k);
    if next.Some? {
      var f := next.value;
      assert ValidFile(f);
      Bounds(f, f.entries[0]);
      StartingAfterFalls(files, k, f, f.largest);
      BoundaryKeeps(files, inputs + [f], f.largest);
    }
  }

  lemma SeedBecomesUpper(v: Version, level: nat, seed: seq<File>, k: IKey)
    requires LevelsValid(v) && LevelsDisjoint(v) && Seed(v, level, seed) && Largest(seed, k)
    ensures Upper(v, level, WithBoundary(v[level], seed, k))
    ensures seed <= WithBoundary(v[level], seed, k)
  {
    BoundaryKeeps(v[level], seed, k);
    if level == 0 {
      assert ValidFiles(seed) by { assert ValidFiles(v[0]); }
      IsolatedNeedsNoBoundary(v[0], seed, k);
    } else {
      RunBecomesSevered(v[level], seed, k);
    }
  }

  lemma RunBecomesSevered(files: seq<File>, seed: seq<File>, k: IKey)
    requires ValidFiles(files) && Disjoint(files) && IsRun(files, seed) && Largest(seed, k)
    ensures SeveredRun(files, WithBoundary(files, seed, k)) && NoRepeat(WithBoundary(files, seed, k))
  {
    var a, b :| 0 <= a < b <= |files| && seed == files[a..b];
    RunLargest(files, a, b, k);
    BoundarySevers(files, a, b);
    var c, d :| Severed(files, c, d) && WithBoundary(files, seed, k) == files[c..d];
    DisjointHasNoRepeat(files, c, d);
  }

  /** What GetOverlappingInputs returns is a seed whenever it is not empty. */
  lemma OverlapIsSeed(v: Version, level: nat, inputs: seq<File>, range: Range)
    requires LevelsValid(v) && LevelsDisjoint(v) && level + 1 < |v|
    requires inputs == Selected(v[level], range) && |inputs| > 0 &&
      (level == 0 ==> Closed(v[0], range) && NoRepeat(v[0]))
    ensures Seed(v, level, inputs)
  {
    SelectedMembers(v[level], range);
    if level == 0 {
      ClosedSelectionIsIsolated(v[0], range);
      SelectedHasNoRepeat(v[0], range);
    } else {
      DisjointIsAscending(v[level]);
      var a, b := SelectedIsRun(v[level], range);
      DisjointHasNoRepeat(v[level], a, b);
    }
  }

  method BoundedUpper(v: Version, level: nat, seed: seq<File>) returns (inputs0: seq<File>, ghost k: IKey)
    requires LevelsValid(v) && LevelsDisjoint(v) && Seed(v, level, seed)
    ensures ValidFiles(v[level]) && Largest(seed, k) && inputs0 == WithBoundary(v[level], seed, k)
    ensures Upper(v, level, inputs0) && seed <= inputs0 && inputs0 == Bounded(v[level], seed)
  {
    inputs0, k := AddBoundaryInputs(v[level], seed);
    TopIsUnique(seed, k);
    SeedBecomesUpper(v, level, seed, k);
  }

  function TotalFileSize(files: seq<File>): nat {
    if |files| == 0 then 0 else files[0].size + TotalFileSize(files[1..])
  }

  lemma {:induction false} TotalOfOneMore(files: seq<File>, from: nat, to: nat)
    requires from <= to < |files|
    ensures TotalFileSize(files[from..to + 1]) == TotalFileSize(files[from..to]) + files[to].size
    decreases |files| - from
  {
    if from < to {
      assert files[from..to + 1][1..] == files[from + 1..to + 1];
      assert files[from..to][1..] == files[from + 1..to];
      TotalOfOneMore(files, from + 1, to);
    } else {
      assert files[from..to + 1][1..] == [];
    }
  }

  // ---- the choice itself -------------------------------------------------------------

  ghost function HullOf(files: seq<File>): (r: Range)
    requires |files| > 0
    ensures Hull(files, r)
  {
    var n := |files| - 1;
    var f := files[n];
    if n == 0 then Range(Some(f.smallest.user), Some(f.largest.user))
    else
      var r := HullOf(files[..n]);
      assert files == files[..n] + [f];
      Range(Some(if f.smallest.user < r.lo.value then f.smallest.user else r.lo.value),
            Some(if r.hi.value < f.largest.user then f.largest.user else r.hi.value))
  }

  lemma HullIsUnique(files: seq<File>, r: Range)
    requires |files| > 0 && Hull(files, r)
    ensures r == HullOf(files)
  {
    var s := HullOf(files);
    var low :| low in files && low.smallest.user == r.lo.value;
    var high :| high in files && high.largest.user == r.hi.value;
    assert Inside(low, s) && Inside(high, s);
  }

  ghost function TopKey(files: seq<File>): (k: IKey)
    requires |files| > 0
    ensures Largest(files, k)
  {
    var n := |files| - 1;
    assert files == files[..n] + [files[n]];
    if n == 0 || Less(TopKey(files[..n]), files[n].largest) then files[n].largest else TopKey(files[..n])
  }

  lemma TopIsUnique(files: seq<File>, k: IKey)
    requires |files| > 0 && Largest(files, k)
    ensures k == TopKey(files)
  {
    assert !Less(k, TopKey(files)) && !Less(TopKey(files), k);
  }

  /** The files with the boundary files behind them. */
  ghost function Bounded(files: seq<File>, inputs: seq<File>): (r: seq<File>)
    requires ValidFiles(files) && |inputs| > 0
    ensures inputs <= r
  {
    BoundaryKeeps(files, inputs, TopKey(inputs));
    WithBoundary(files, inputs, TopKey(inputs))
  }

  /** The files of the next level that meet the range of these. */
  ghost function Lower(v: Version, level: nat, inputs0: seq<File>): seq<File>
    requires level + 1 < |v| && |inputs0| > 0
  {
    Selected(v[level + 1], HullOf(inputs0))
  }

  /** The files of the level after that which meet the range of the whole compaction. */
  ghost function Grandparents(v: Version, level: nat, inputs0: seq<File>, inputs1: seq<File>): seq<File>
    requires |inputs0| > 0
  {
    if level + 2 < |v| then Selected(v[level + 2], HullOf(inputs0 + inputs1)) else []
  }

  /** The files of a level that a range asks for: in level 0 with all that they overlap, one after the other. */
  ghost predicate Overlapping(v: Version, level: nat, request: Range, files: seq<File>)
    requires level < |v|
  {
    exists range ::
      files == Selected(v[level], range) && if level == 0 then LeastClosed(v[0], request, range) else range == request
  }

  lemma OverlappingIsUnique(v: Version, level: nat, request: Range, a: seq<File>, b: seq<File>)
    requires level < |v| && Overlapping(v, level, request, a) && Overlapping(v, level, request, b)
    ensures a == b
  {
    var x :| a == Selected(v[level], x) && if level == 0 then LeastClosed(v[0], request, x) else x == request;
    var y :| b == Selected(v[level], y) && if level == 0 then LeastClosed(v[0], request, y) else y == request;
    assert level == 0 ==> Within(x, y) && Within(y, x);
  }

  /** The upper files that could be taken instead: all those that the range of the compaction asks for. */
  ghost predicate Wider(v: Version, level: nat, inputs0: seq<File>, inputs1: seq<File>, wide: seq<File>)
    requires LevelsValid(v) && level + 1 < |v| && |inputs0| > 0
  {
    |wide| > 0 &&
    exists base ::
      |base| > 0 && Overlapping(v, level, HullOf(inputs0 + inputs1), base) && wide == Bounded(v[level], base)
  }

  /** They are taken if there are more of them, if that is not too much to compact, and if no more lower files come. */
  ghost predicate Widens(v: Version, level: nat, inputs0: seq<File>, inputs1: seq<File>, wide: seq<File>,
                         maxFileSize: nat)
    requires level + 1 < |v| && |wide| > 0
  {
    |wide| > |inputs0| && TotalFileSize(inputs1) + TotalFileSize(wide) < 25 * maxFileSize &&
    |Lower(v, level, wide)| == |inputs1|
  }

  /** What SetupOtherInputs makes of the files it is given. */
  ghost predicate ChosenFrom(v: Version, level: nat, seed: seq<File>, maxFileSize: nat, inputs0: seq<File>,
                             inputs1: seq<File>)
    requires LevelsValid(v) && level + 1 < |v| && |seed| > 0
  {
    var some := Bounded(v[level], seed);
    var lower := Lower(v, level, some);
    |inputs0| > 0 && inputs1 == Lower(v, level, inputs0) &&
    if |lower| == 0 then inputs0 == some
    else
      exists wide ::
        Wider(v, level, some, lower, wide) &&
        inputs0 == if Widens(v, level, some, lower, wide, maxFileSize) then wide else some
  }

  /** There is one such choice at most. */
  lemma ChoiceIsUnique(v: Version, level: nat, seed: seq<File>, maxFileSize: nat, a0: seq<File>, a1: seq<File>,
                       b0: seq<File>, b1: seq<File>)
    requires LevelsValid(v) && level + 1 < |v| && |seed| > 0
    requires ChosenFrom(v, level, seed, maxFileSize, a0, a1) && ChosenFrom(v, level, seed, maxFileSize, b0, b1)
    ensures a0 == b0 && a1 == b1
  {
    hide ValidFiles, Widens, Overlapping, Lower, Bounded, HullOf;
    var some := Bounded(v[level], seed);
    var lower := Lower(v, level, some);
    if |lower| > 0 {
      var x :| Wider(v, level, some, lower, x) &&
        a0 == if Widens(v, level, some, lower, x, maxFileSize) then x else some;
      var y :| Wider(v, level, some, lower, y) &&
        b0 == if Widens(v, level, some, lower, y, maxFileSize) then y else some;
      var p :| |p| > 0 && Overlapping(v, level, HullOf(some + lower), p) && x == Bounded(v[level], p);
      var q :| |q| > 0 && Overlapping(v, level, HullOf(some + lower), q) && y == Bounded(v[level], q);
      OverlappingIsUnique(v, level, HullOf(some + lower), p, q);
    }
  }

  /** The lower inputs and the whole range read, given the upper inputs. */
  method LowerInputs(v: Version, level: nat, inputs0: seq<File>)
      returns (inputs1: seq<File>, largest: IKey, ghost r: Range)
    requires Upper(v, level, inputs0)
    ensures Hull(inputs0, r) && inputs1 == Selected(v[level + 1], r) && Largest(inputs0, largest)
    ensures inputs1 == Lower(v, level, inputs0)
  {
    var smallest;
    smallest, largest := GetRange(inputs0);
    HullIsUnique(inputs0, UserRange(smallest, largest));
    r := UserRange(smallest, largest);
    ghost var same;
    inputs1, same := GetOverlappingInputs(level + 1, v[level + 1], UserRange(smallest, largest));
  }

  /** SetupOtherInputs, the middle part: take more upper files if that costs no further lower file. */
  method Expand(v: Version, level: nat, inputs0: seq<File>, inputs1: seq<File>, largest: IKey, maxFileSize: nat)
      returns (more0: seq<File>, more1: seq<File>, newLargest: IKey, ghost wide: seq<File>)
    requires |v| > 0 && LevelsValid(v) && LevelsDisjoint(v) && NoRepeat(v[0]) && Legal(v, level, inputs0, inputs1) &&
      Largest(inputs0, largest) && inputs1 == Lower(v, level, inputs0)
    ensures Legal(v, level, more0, more1) && Largest(more0, newLargest)
    ensures Wider(v, level, inputs0, inputs1, wide) && more1 == Lower(v, level, more0)
    ensures more0 ==
      if |wide| > |inputs0| && TotalFileSize(inputs1) + TotalFileSize(wide) < 25 * maxFileSize &&
         |Lower(v, level, wide)| == |inputs1| then wide else inputs0
    ensures forall f :: f in inputs0 ==> f in more0
    ensures |more1| == |inputs1|
    ensures Gapless(inputs0 + inputs1) ==> Gapless(more0 + more1)
  {
    hide LevelsValid, LevelsDisjoint, Hull, LeastClosed, Isolated, SeveredRun, Seed, Selected, Meets, Largest;
    hide Gapless, WithBoundary, HullOf, Bounded, Lower;
    hide ValidFiles;
    more0, more1, newLargest := inputs0, inputs1, largest;
    var start, limit := GetRange(inputs0 + inputs1);
    var expanded0, range := GetOverlappingInputs(level, v[level], UserRange(start, limit));
    RangeIsWider(v[level], level, UserRange(start, limit), range);
    CoveredByRange(v, level, inputs0, inputs1, UserRange(start, limit), range);
    assert inputs0[0] in expanded0;
    OverlapIsSeed(v, level, expanded0, range);
    ghost var base := expanded0;
    ghost var k;
    HullIsUnique(inputs0 + inputs1, UserRange(start, limit));
    assert Overlapping(v, level, HullOf(inputs0 + inputs1), base);
    expanded0, k := BoundedUpper(v, level, expanded0);
    wide := expanded0;
    assert forall f :: f in base ==> f in expanded0;
    if |expanded0| > |inputs0| && TotalFileSize(inputs1) + TotalFileSize(expanded0) < 25 * maxFileSize {
      var expanded1, newLimit, r' := LowerInputs(v, level, expanded0);
      if |expanded1| == |inputs1| {
        if Gapless(inputs0 + inputs1) {
          ExpansionIsGapless(v, level, inputs0, inputs1, UserRange(start, limit), range, base, k, expanded0,
                             expanded1, r');
        }
        more0, more1, newLargest := expanded0, expanded1, newLimit;
      }
    }
  }

  lemma RangeIsWider(files: seq<File>, level: nat, request: Range, range: Range)
    requires (level > 0 ==> range == request) && (level == 0 ==> LeastClosed(files, request, range))
    ensures Within(request, range) && (level == 0 ==> Closed(files, range))
  {
  }

  /** SetupOtherInputs: boundary files, the lower inputs, the expansion, the grandparents, and where the next
    compaction of the level starts: behind the largest key of the upper inputs. */
  method SetupOtherInputs(v: Version, level: nat, seed: seq<File>, maxFileSize: nat)
      returns (inputs0: seq<File>, inputs1: seq<File>, grandparents: seq<File>, compactPointer: IKey)
    requires |v| > 0 && LevelsValid(v) && LevelsDisjoint(v) && NoRepeat(v[0]) && Seed(v, level, seed)
    ensures Legal(v, level, inputs0, inputs1) && Largest(inputs0, compactPointer)
    ensures ChosenFrom(v, level, seed, maxFileSize, inputs0, inputs1)
    ensures forall f :: f in seed ==> f in inputs0
    ensures grandparents == Grandparents(v, level, inputs0, inputs1)
    ensures Gapless(seed) ==> Gapless(inputs0 + inputs1)
  {
    hide LevelsValid, LevelsDisjoint, Hull, Isolated, SeveredRun, Selected, Largest, Gapless, WithBoundary, ValidFiles;
    hide HullOf, Bounded, Lower, Wider, TotalFileSize;
    ghost var k, r, wide;
    inputs0, k := BoundedUpper(v, level, seed);
    inputs1, compactPointer, r := LowerInputs(v, level, inputs0);
    if Gapless(seed) {
      ChoiceIsGapless(v, level, seed, k, inputs0, r);
    }
    if |inputs1| > 0 {
      inputs0, inputs1, compactPointer, wide := Expand(v, level, inputs0, inputs1, compactPointer, maxFileSize);
    }
    grandparents := [];
    if level + 2 < |v| {
      var allStart, allLimit := GetRange(inputs0 + inputs1);
      HullIsUnique(inputs0 + inputs1, UserRange(allStart, allLimit));
      ghost var same;
      grandparents, same := GetOverlappingInputs(level + 2, v[level + 2], UserRange(allStart, allLimit));
    }
  }

  /** The wider selection still holds every file chosen before. */
  lemma CoveredByRange(v: Version, level: nat, inputs0: seq<File>, inputs1: seq<File>, hull: Range, range: Range)
    requires LevelsValid(v) && level < |v| && forall f :: f in inputs0 ==> f in v[level]
    requires Hull(inputs0 + inputs1, hull) && Within(hull, range)
    ensures forall f :: f in inputs0 ==> f in Selected(v[level], range)
  {
    SelectedMembers(v[level], range);
    forall f | f in inputs0 ensures Meets(f, range) {
      assert f in inputs0 + inputs1 && ValidFile(f);
      Bounds(f, f.entries[0]);
    }
  }

  // ---- starting points ------------------------------------------------------------------

  /** PickCompaction, the file it starts from: the first of the level that ends after compact_pointer_, wrapping
    around to the first file. */
  method PickFile(files: seq<File>, compactPointer: Option<IKey>) returns (f: File)
    requires |files| > 0
    ensures f in files && NextInTurn(files, compactPointer, f)
  {
    for i := 0 to |files|
      invariant i > 0 ==> compactPointer.Some?
      invariant forall j :: 0 <= j < i ==> !Less(compactPointer.value, files[j].largest)
    {
      if compactPointer.None? || Less(compactPointer.value, files[i].largest) {
        return files[i];
      }
    }
    return files[0];
  }

  // ---- which level needs a compaction -----------------------------------------------------

  function PowerOf10(n: nat): (r: real)
    ensures r > 0.0
  {
    if n == 0 then 1.0 else 10.0 * PowerOf10(n - 1)
  }

  method MaxBytesForLevel(level: nat) returns (result: real)
    ensures result == 10485760.0 * PowerOf10(if level == 0 then 0 else level - 1)
  {
    result := 10485760.0;
    var l := level;
    while l > 1
      invariant l <= level && (level > 0 ==> l > 0 && result * PowerOf10(l - 1) == 10485760.0 * PowerOf10(level - 1))
      invariant level == 0 ==> result == 10485760.0
    {
      assert result * (10.0 * PowerOf10(l - 2)) == (result * 10.0) * PowerOf10(l - 2);
      result := result * 10.0;
      l := l - 1;
    }
  }

  /** How full a level is: level 0 by the number of its files, the others by their bytes. */
  function Score(v: Version, level: nat): real
    requires level < |v|
  {
    if level == 0 then |v[0]| as real / 4.0 else TotalFileSize(v[level]) as real / (10485760.0 * PowerOf10(level - 1))
  }

  /** Finalize: the fullest level that has a level below it, the shallowest of several. */
  method Finalize(v: Version) returns (compactionLevel: nat, compactionScore: real)
    requires |v| == NUM_LEVELS
    ensures compactionLevel + 1 < NUM_LEVELS && compactionScore == Score(v, compactionLevel)
    ensures forall l :: 0 <= l < NUM_LEVELS - 1 ==> Score(v, l) <= compactionScore
    ensures forall l :: 0 <= l < compactionLevel ==> Score(v, l) < compactionScore
  {
    hide TotalFileSize, PowerOf10;
    var bestLevel, bestScore := -1, -1.0;
    for level := 0 to NUM_LEVELS - 1
      invariant level == 0 ==> bestLevel == -1 && bestScore == -1.0
      invariant level > 0 ==> 0 <= bestLevel < level && bestScore == Score(v, bestLevel)
      invariant forall l :: 0 <= l < level ==> Score(v, l) <= bestScore && (l < bestLevel ==> Score(v, l) < bestScore)
    {
      var score;
      if level == 0 {
        score := |v[0]| as real / 4.0;
      } else {
        var limit := MaxBytesForLevel(level);
        score := TotalFileSize(v[level]) as real / limit;
      }
      if score > bestScore {
        bestLevel, bestScore := level, score;
      }
    }
    compactionLevel, compactionScore := bestLevel, bestScore;
  }

  /** The shallowest of the fullest levels, but for the deepest level. */
  ghost predicate Fullest(v: Version, level: nat)
    requires |v| == NUM_LEVELS && level < NUM_LEVELS
  {
    (forall l :: 0 <= l < NUM_LEVELS - 1 ==> Score(v, l) <= Score(v, level)) &&
    forall l :: 0 <= l < level ==> Score(v, l) < Score(v, level)
  }

  /** A level is due from four files on in level 0, from 10 MB on in level 1, and from ten times as much in each level
    below. */
  lemma IsDue(v: Version)
    requires |v| == NUM_LEVELS
    ensures Score(v, 0) >= 1.0 <==> |v[0]| >= 4
    ensures Score(v, 1) >= 1.0 <==> TotalFileSize(v[1]) >= 10485760
    ensures Score(v, 2) >= 1.0 <==> TotalFileSize(v[2]) >= 104857600
    ensures Score(v, 3) >= 1.0 <==> TotalFileSize(v[3]) >= 1048576000
    ensures Score(v, 4) >= 1.0 <==> TotalFileSize(v[4]) >= 10485760000
    ensures Score(v, 5) >= 1.0 <==> TotalFileSize(v[5]) >= 104857600000
  {
    hide TotalFileSize;
    assert PowerOf10(0) == 1.0 && PowerOf10(1) == 10.0 && PowerOf10(2) == 100.0;
    assert PowerOf10(3) == 1000.0 && PowerOf10(4) == 10000.0;
    Quotient(TotalFileSize(v[1]), 10485760.0);
    Quotient(TotalFileSize(v[2]), 104857600.0);
    Quotient(TotalFileSize(v[3]), 1048576000.0);
    Quotient(TotalFileSize(v[4]), 10485760000.0);
    Quotient(TotalFileSize(v[5]), 104857600000.0);
  }

  lemma Quotient(bytes: nat, limit: real)
    requires limit > 0.0
    ensures bytes as real / limit >= 1.0 <==> bytes as real >= limit
  {
    assert bytes as real == bytes as real / limit * limit;
  }

  lemma FullLevelHasFiles(v: Version, level: nat)
    requires level < |v| && Score(v, level) >= 1.0
    ensures |v[level]| > 0
  {
  }

  /** PickCompaction: the fullest level if it is too full, else the file that too many reads went past, else nothing. */
  method PickCompaction(v: Version, fileToCompact: Option<(nat, File)>, compactPointers: seq<Option<IKey>>,
                        maxFileSize: nat)
      returns (some: bool, level: nat, inputs0: seq<File>, inputs1: seq<File>, grandparents: seq<File>,
               compactPointer: IKey, ghost picked: Option<File>)
    requires |v| == NUM_LEVELS == |compactPointers| && LevelsValid(v) && LevelsDisjoint(v) && NoRepeat(v[0])
    requires fileToCompact.Some? ==>
      fileToCompact.value.0 + 1 < NUM_LEVELS && fileToCompact.value.1 in v[fileToCompact.value.0]
    ensures some <==> fileToCompact.Some? || exists l :: 0 <= l < NUM_LEVELS - 1 && Score(v, l) >= 1.0
    ensures some ==>
      level + 1 < NUM_LEVELS && Legal(v, level, inputs0, inputs1) && Largest(inputs0, compactPointer) &&
      |inputs0| > 0 && picked.Some? && picked.value in inputs0 && picked.value in v[level]
    ensures some && (exists l :: 0 <= l < NUM_LEVELS - 1 && Score(v, l) >= 1.0) ==>
      Fullest(v, level) && NextInTurn(v[level], compactPointers[level], picked.value)
    ensures some && !(exists l :: 0 <= l < NUM_LEVELS - 1 && Score(v, l) >= 1.0) ==>
      (level, picked.value) == fileToCompact.value
    ensures some ==> PickedInputs(v, level, picked.value, maxFileSize, inputs0, inputs1)
    ensures some ==> grandparents == Grandparents(v, level, inputs0, inputs1)
    ensures some ==> Gapless(inputs0 + inputs1)
  {
    hide LevelsValid, LevelsDisjoint, Hull, Isolated, SeveredRun, Selected, Largest, Legal, Score, Gapless;
    hide PickedInputs, Grandparents;
    inputs0, inputs1, grandparents, compactPointer, picked := [], [], [], IKey(0, 0, Value), None;
    var compactionScore;
    level, compactionScore := Finalize(v);
    var f;
    if compactionScore >= 1.0 {
      FullLevelHasFiles(v, level);
      f := PickFile(v[level], compactPointers[level]);
    } else if fileToCompact.Some? {
      level, f := fileToCompact.value.0, fileToCompact.value.1;
    } else {
      some := false;
      return;
    }
    picked := Some(f);
    inputs0, inputs1, grandparents, compactPointer := CompactionOf(v, level, f, maxFileSize);
    some := true;
  }

  /** The first file of the level that ends behind the pointer, or the first of all. */
  ghost predicate NextInTurn(files: seq<File>, compactPointer: Option<IKey>, f: File) {
    if compactPointer.Some? && exists g :: g in files && Less(compactPointer.value, g.largest) then
      exists i :: 0 <= i < |files| && f == files[i] && Less(compactPointer.value, f.largest) &&
        forall j :: 0 <= j < i ==> !Less(compactPointer.value, files[j].largest)
    else |files| > 0 && f == files[0]
  }

  /** The inputs that one file leads to. */
  ghost predicate PickedInputs(v: Version, level: nat, picked: File, maxFileSize: nat, inputs0: seq<File>,
                               inputs1: seq<File>)
    requires LevelsValid(v) && level + 1 < |v|
  {
    exists seed ::
      |seed| > 0 && ChosenFrom(v, level, seed, maxFileSize, inputs0, inputs1) &&
      if level == 0 then Overlapping(v, 0, HullOf([picked]), seed) else seed == [picked]
  }

  /** PickCompaction from the picked file on. */
  method CompactionOf(v: Version, level: nat, picked: File, maxFileSize: nat)
      returns (inputs0: seq<File>, inputs1: seq<File>, grandparents: seq<File>, compactPointer: IKey)
    requires LevelsValid(v) && LevelsDisjoint(v) && level + 1 < |v| && picked in v[level] && NoRepeat(v[0])
    ensures Legal(v, level, inputs0, inputs1) && picked in inputs0 && Largest(inputs0, compactPointer)
    ensures PickedInputs(v, level, picked, maxFileSize, inputs0, inputs1)
    ensures grandparents == Grandparents(v, level, inputs0, inputs1)
    ensures Gapless(inputs0 + inputs1)
  {
    hide Gapless, ChosenFrom, Grandparents, HullOf, Selected, Hull;
    var seed := [picked];
    OneIsGapless(v, level, picked);
    if level == 0 {
      var smallest, largest := GetRange(seed);
      ghost var range;
      HullIsUnique([picked], UserRange(smallest, largest));
      seed, range := GetOverlappingInputs(0, v[0], UserRange(smallest, largest));
      assert Overlapping(v, 0, HullOf([picked]), seed);
      assert picked in seed by {
        assert picked in [picked];
        CoveredByRange(v, 0, [picked], [], UserRange(smallest, largest), range);
      }
      OverlapIsSeed(v, 0, seed, range);
      OverlapIsGapless(v, picked, UserRange(smallest, largest), range);
    } else {
      var i :| 0 <= i < |v[level]| && v[level][i] == picked;
      assert seed == v[level][i..i + 1];
    }
    inputs0, inputs1, grandparents, compactPointer := SetupOtherInputs(v, level, seed, maxFileSize);
  }

  /** The loop of CompactRange. */
  method CutRequest(v: Version, level: nat, all: seq<File>, maxFileSize: nat) returns (inputs: seq<File>)
    requires level > 0 && Seed(v, level, all)
    ensures 0 < |inputs| <= |all| && inputs == all[..|inputs|] && CutAt(level, all, |inputs|, maxFileSize)
    ensures Seed(v, level, inputs)
  {
    hide Isolated, IsRun, TotalFileSize;
    inputs := all;
    var total := 0;
    NothingTotal(all);
    for i := 0 to |inputs|
      invariant inputs == all && total == TotalFileSize(all[..i])
      invariant forall k :: 0 < k <= i ==> TotalFileSize(all[..k]) < maxFileSize
    {
      TotalOfOneMore(all, 0, i);
      assert all[0..i + 1] == all[..i + 1] && all[0..i] == all[..i];
      total := total + inputs[i].size;
      if total >= maxFileSize {
        PrefixIsSeed(v, level, inputs, i + 1);
        inputs := inputs[..i + 1];
        break;
      }
    }
    assert all[..|all|] == all;
  }

  /** CompactRange: the files of the request, cut short above level 0 once they are big enough. What the request meets
    and is not taken lies behind the last file taken. */
  method CompactRange(v: Version, level: nat, request: Range, maxFileSize: nat)
      returns (some: bool, inputs0: seq<File>, inputs1: seq<File>, grandparents: seq<File>, compactPointer: IKey)
    requires LevelsValid(v) && LevelsDisjoint(v) && level + 1 < |v| && NoRepeat(v[0])
    ensures some <==> exists f :: f in v[level] && Meets(f, request)
    ensures some ==> Legal(v, level, inputs0, inputs1) && Largest(inputs0, compactPointer)
    ensures some ==>
      forall f :: f in v[level] && Meets(f, request) && f !in inputs0 ==> Meets(f, Behind(request, inputs0))
    ensures some ==> |inputs0| > 0 && grandparents == Grandparents(v, level, inputs0, inputs1)
    ensures some ==> RequestedInputs(v, level, request, maxFileSize, inputs0, inputs1)
  {
    hide LevelsValid, LevelsDisjoint, Hull, Isolated, SeveredRun, Largest, Legal, Meets, LeastClosed, Selected;
    hide ChosenFrom, Grandparents, TotalFileSize, RequestedInputs, CutAt;
    inputs0, inputs1, grandparents, compactPointer := [], [], [], IKey(0, 0, Value);
    var inputs, range := GetOverlappingInputs(level, v[level], request);
    ghost var all := inputs;
    SelectedMembers(v[level], range);
    SomethingSelected(v[level], request, range);
    if |inputs| == 0 {
      some := false;
      return;
    }
    assert inputs[0] in inputs;
    OverlapIsSeed(v, level, inputs, range);
    if level > 0 {
      inputs := CutRequest(v, level, inputs, maxFileSize);
    }
    ghost var n := |inputs|;
    RequestIsCut(v, level, request, range, inputs, n, maxFileSize);
    inputs0, inputs1, grandparents, compactPointer := SetupOtherInputs(v, level, inputs, maxFileSize);
    some := true;
    assert ChosenFrom(v, level, all[..n], maxFileSize, inputs0, inputs1);
    assert inputs[0] in inputs0;
    RequestIsMet(v, level, request, maxFileSize, inputs0, inputs1, all, n);
    RequestIsSelected(v[level], level, request, range);
    if level > 0 {
      RestIsBehind(v, level, request, inputs, inputs0, inputs1);
    }
  }

  /** Above level 0 the request is cut behind the file with which it has a whole file size. */
  ghost predicate CutAt(level: nat, all: seq<File>, n: nat, maxFileSize: nat)
    requires n <= |all|
  {
    if level == 0 then n == |all|
    else
      (forall k :: 0 < k < n ==> TotalFileSize(all[..k]) < maxFileSize) &&
      (n < |all| ==> TotalFileSize(all[..n]) >= maxFileSize)
  }

  /** The inputs that a request leads to. */
  ghost predicate RequestedInputs(v: Version, level: nat, request: Range, maxFileSize: nat, inputs0: seq<File>,
                                  inputs1: seq<File>)
    requires LevelsValid(v) && level + 1 < |v|
  {
    exists all, n ::
      Overlapping(v, level, request, all) && 0 < n <= |all| && CutAt(level, all, n, maxFileSize) &&
      ChosenFrom(v, level, all[..n], maxFileSize, inputs0, inputs1)
  }

  lemma RequestIsCut(v: Version, level: nat, request: Range, range: Range, inputs: seq<File>, n: nat, maxFileSize: nat)
    requires level < |v| && n == |inputs|
    requires if level == 0 then LeastClosed(v[0], request, range) && inputs == Selected(v[0], range)
             else range == request
    requires level > 0 ==>
      n <= |Selected(v[level], range)| && inputs == Selected(v[level], range)[..n] &&
      CutAt(level, Selected(v[level], range), n, maxFileSize)
    ensures Overlapping(v, level, request, Selected(v[level], range))
    ensures n <= |Selected(v[level], range)| && inputs == Selected(v[level], range)[..n]
    ensures CutAt(level, Selected(v[level], range), n, maxFileSize)
  {
    hide LeastClosed, TotalFileSize, Selected;
  }

  lemma RequestIsMet(v: Version, level: nat, request: Range, maxFileSize: nat, inputs0: seq<File>, inputs1: seq<File>,
                     all: seq<File>, n: nat)
    requires LevelsValid(v) && level + 1 < |v| && Overlapping(v, level, request, all) && 0 < n <= |all|
    requires CutAt(level, all, n, maxFileSize) && ChosenFrom(v, level, all[..n], maxFileSize, inputs0, inputs1)
    ensures RequestedInputs(v, level, request, maxFileSize, inputs0, inputs1)
  {
    hide Overlapping, CutAt, ChosenFrom, ValidFiles;
  }

  lemma NothingTotal(files: seq<File>)
    ensures TotalFileSize(files[..0]) == 0
  {
    assert files[..0] == [];
  }

  /** What is left of a manual request when these files are compacted. */
  function Behind(request: Range, inputs0: seq<File>): Range {
    if |inputs0| == 0 then request else Range(Some(inputs0[|inputs0| - 1].largest.user), request.hi)
  }

  lemma RequestIsSelected(files: seq<File>, level: nat, request: Range, range: Range)
    requires (level > 0 ==> range == request) && (level == 0 ==> LeastClosed(files, request, range))
    ensures forall f :: f in files && Meets(f, request) ==> f in Selected(files, range)
  {
    SelectedMembers(files, range);
  }

  /** Above level 0 the files taken follow one another, from the first that meets the request on. */
  lemma RestIsBehind(v: Version, level: nat, request: Range, inputs: seq<File>, inputs0: seq<File>, inputs1: seq<File>)
    requires LevelsValid(v) && LevelsDisjoint(v) && 0 < level && Legal(v, level, inputs0, inputs1)
    requires |inputs| > 0 && inputs <= Selected(v[level], request) && forall f :: f in inputs ==> f in inputs0
    ensures forall f :: f in v[level] && Meets(f, request) && f !in inputs0 ==> Meets(f, Behind(request, inputs0))
  {
    hide Legal, Meets, Selected, ValidFiles, Disjoint, Behind;
    var c, d := UpperSlice(v, level, inputs0, inputs1);
    assert inputs[0] in inputs0 && ValidFiles(v[level]) && Disjoint(v[level]);
    SliceLeaves(v[level], request, inputs[0], Selected(v[level], request), c, d);
  }

  lemma SliceLeaves(files: seq<File>, request: Range, head: File, selected: seq<File>, c: nat, d: nat)
    requires ValidFiles(files) && Disjoint(files) && selected == Selected(files, request) && c < d <= |files|
    requires |selected| > 0 && selected[0] == head && head in files[c..d]
    ensures forall f :: f in files && Meets(f, request) && f !in files[c..d] ==> Meets(f, Behind(request, files[c..d]))
  {
    hide ValidFiles, Disjoint, Meets, Selected, NoRepeat, Ascending, Behind;
    DisjointIsAscending(files);
    var a, b := SelectedIsRun(files, request);
    DisjointHasNoRepeat(files, 0, |files|);
    assert files[0..|files|] == files;
    IndexInSlice(files, c, d, a);
    SelectedMembers(files, request);
    forall f | f in files && Meets(f, request) && f !in files[c..d] ensures Meets(f, Behind(request, files[c..d])) {
      assert f in selected;
      var j :| 0 <= j < b - a && files[a..b][j] == f;
      NotInSlice(files, c, d, a + j);
      LaterMeets(files, request, c, d, a + j);
    }
  }

  lemma UpperSlice(v: Version, level: nat, inputs0: seq<File>, inputs1: seq<File>) returns (a: nat, b: nat)
    requires 0 < level && Legal(v, level, inputs0, inputs1)
    ensures level < |v| && a < b <= |v[level]| && inputs0 == v[level][a..b]
  {
    hide Hull;
    a, b :| Severed(v[level], a, b) && inputs0 == v[level][a..b];
  }

  lemma IndexInSlice(files: seq<File>, c: nat, d: nat, a: nat)
    requires NoRepeat(files) && c < d <= |files| && a < |files| && files[a] in files[c..d]
    ensures c <= a
  {
    var k :| 0 <= k < d - c && files[c..d][k] == files[a];
    assert files[c + k] == files[a];
  }

  lemma NotInSlice(files: seq<File>, c: nat, d: nat, i: nat)
    requires c < d <= |files| && i < |files|
    ensures c <= i < d ==> files[i] in files[c..d]
  {
    if c <= i < d {
      assert files[c..d][i - c] == files[i];
    }
  }

  lemma LaterMeets(files: seq<File>, request: Range, c: nat, d: nat, i: nat)
    requires Ascending(files) && c < d <= i < |files| && Meets(files[i], request)
    ensures Meets(files[i], Behind(request, files[c..d]))
  {
    assert files[c..d][d - c - 1] == files[d - 1];
  }

  /** Widening to the least closed range never turns an empty selection into another one. */
  lemma SomethingSelected(files: seq<File>, request: Range, range: Range)
    requires range == request || LeastClosed(files, request, range)
    ensures (exists f :: f in files && Meets(f, range)) <==> (exists f :: f in files && Meets(f, request))
  {
    if f :| f in files && Meets(f, request) {
      assert Meets(f, range);
    } else {
      assert Closed(files, request);
    }
  }

  lemma PrefixIsSeed(v: Version, level: nat, inputs: seq<File>, n: nat)
    requires Seed(v, level, inputs) && level > 0 && 0 < n <= |inputs|
    ensures Seed(v, level, inputs[..n])
  {
    var a, b :| 0 <= a < b <= |v[level]| && inputs == v[level][a..b];
    assert inputs[..n] == v[level][a..a + n];
  }
}
