/** Iterating over the database: DBImpl::NewInternalIterator and NewIterator of db/db_impl.cc with
  Version::AddIterators of db/version_set.cc. A child iterator is a cursor on one sorted run; for a level above 0 that
  is the run TwoLevel.dfy shows its concatenating iterator to go through. */
module DbScan {
  import opened Options
  import opened InternalKeys
  import opened ReadSpec
  import opened Versions
  import opened VersionEdits
  import opened Install
  import opened Database
  import opened MapRefinement
  import opened DbImpl
  import opened DbIter
  import opened TwoLevel
  import opened Merger

  // ---- what the invariant says of them ---------------------------------------------------------------------

  lemma MemFacts(st: State)
    requires Inv(st)
    ensures Sorted(st.mem) && Sorted(ImmEntries(st)) && Unlike(Elements(st.mem), Elements(ImmEntries(st)))
    ensures Unlike(MemSet(st), Stored(st.version))
  {
    hide ValidVersion, Stored, Sorted, NumbersBelow, NoneAfter, Elements;
    NewerIsUnlike(Elements(st.mem), Elements(ImmEntries(st)));
    NewerIsUnlike(MemSet(st), Stored(st.version));
  }

  lemma VersionFacts(st: State)
    requires Inv(st)
    ensures ValidVersion(st.version) && Ordered(st.version[0]) && |st.version| == NUM_LEVELS
  {
    hide Stored, Sorted, Newer, NoneAfter, NumbersBelow;
  }

  /** Two level-0 files: one is newer than the other. */
  lemma Level0Unlike(v: Version, i: nat)
    requires ValidVersion(v) && Ordered(v[0]) && i < |v[0]|
    ensures Sorted(v[0][i].entries) && Unlike(FileEntries(v[0][..i]), Elements(v[0][i].entries))
  {
    hide LevelsDisjoint, ShallowerIsNewer, Sorted, Before;
    var f := v[0][i];
    assert f in v[0] && ValidFiles(v[0]);
    assert ValidFile(f);
    forall x, y | x in FileEntries(v[0][..i]) && y in Elements(f.entries)
      ensures Before(x.key, y.key) || Before(y.key, x.key)
    {
      var g :| g in v[0][..i] && x in g.entries;
      var j :| 0 <= j < i && v[0][j] == g;
      assert g in v[0] && BySmallest(v[0][j], v[0][i]);
      DifferentNumbers(v[0], g, f);
      NewerIsUnlike(Elements(g.entries), Elements(f.entries));
      assert x in Elements(g.entries);
    }
  }

  lemma DifferentNumbers(files: seq<File>, g: File, f: File)
    requires NumberIsAge(files) && DistinctNumbers(files) && g in files && f in files && BySmallest(g, f)
    ensures Newer(Elements(g.entries), Elements(f.entries)) || Newer(Elements(f.entries), Elements(g.entries))
  {
    hide Newer, Elements;
    assert g != f;
  }

  lemma MoreLevel0(files: seq<File>, i: nat)
    requires i < |files|
    ensures FileEntries(files[..i + 1]) == FileEntries(files[..i]) + Elements(files[i].entries)
  {
    assert files[..i + 1] == files[..i] + [files[i]];
  }

  /** A level above 0 is one run, older than everything in the levels before it. */
  lemma LevelUnlike(v: Version, l: nat)
    requires ValidVersion(v) && 0 < l < NUM_LEVELS
    ensures var run := RunOf(v[l]);
      Sorted(run) && Elements(run) == FileEntries(v[l]) && Unlike(Stored(v[..l]), Elements(run))
    ensures Stored(v[..l + 1]) == Stored(v[..l]) + FileEntries(v[l])
  {
    hide NumberIsAge, UniqueNumbers, Sorted, Disjoint, ValidFiles, RunOf, FileEntries, Newer;
    LevelIsOneRun(v[l]);
    forall x, y | x in Stored(v[..l]) && y in FileEntries(v[l]) ensures Before(x.key, y.key) || Before(y.key, x.key) {
      var k :| 0 <= k < l && x in FileEntries(v[..l][k]);
      assert Newer(FileEntries(v[k]), FileEntries(v[l]));
      NewerIsUnlike(FileEntries(v[k]), FileEntries(v[l]));
    }
    StoredMore(v, l);
  }

  lemma StoredMore(v: Version, l: nat)
    requires l < |v|
    ensures Stored(v[..l + 1]) == Stored(v[..l]) + FileEntries(v[l])
  {
    hide FileEntries;
    forall e | e in Stored(v[..l]) ensures e in Stored(v[..l + 1]) {
      var k :| 0 <= k < l && e in FileEntries(v[..l][k]);
      assert v[..l + 1][k] == v[..l][k];
    }
    forall e | e in FileEntries(v[l]) ensures e in Stored(v[..l + 1]) {
      assert v[..l + 1][l] == v[l];
    }
    forall e | e in Stored(v[..l + 1]) ensures e in Stored(v[..l]) + FileEntries(v[l]) {
      var k :| 0 <= k < l + 1 && e in FileEntries(v[..l + 1][k]);
      assert k < l ==> v[..l][k] == v[..l + 1][k];
    }
  }

  lemma StoredPart(v: Version, l: nat)
    requires l <= |v|
    ensures Stored(v[..l]) <= Stored(v)
  {
    hide FileEntries;
  }

  // ---- the iterators -----------------------------------------------------------------------------------------

  /** Version::AddIterators: a child for every level-0 file, and one for every other level that has files. */
  method AddIterators(v: Version, runs0: seq<seq<Entry>>, ghost mem: set<Entry>) returns (runs: seq<seq<Entry>>)
    requires ValidVersion(v) && Ordered(v[0]) && Gathers(runs0, mem) && Unlike(mem, Stored(v))
    ensures Gathers(runs, mem + Stored(v))
  {
    hide Gathers, Unlike, Sorted, LevelsValid, LevelsDisjoint, ShallowerIsNewer, NumberIsAge, UniqueNumbers;
    hide FileEntries, Ordered, RunOf, Elements;
    runs := runs0;
    NoLevels(v, mem);
    for i := 0 to |v[0]|
      invariant Gathers(runs, mem + FileEntries(v[0][..i]))
    {
      var f := v[0][i];
      Level0Unlike(v, i);
      MoreLevel0(v[0], i);
      FileIsStored(v, i);
      UnlikePart(mem, Elements(f.entries), Stored(v));
      UnlikeBoth(mem, FileEntries(v[0][..i]), Elements(f.entries));
      GathersMore(runs, mem + FileEntries(v[0][..i]), f.entries);
      runs := runs + [f.entries];
      assert mem + FileEntries(v[0][..i]) + Elements(f.entries) == mem + FileEntries(v[0][..i + 1]);
    }
    assert v[0][..|v[0]|] == v[0];
    for level := 1 to NUM_LEVELS
      invariant Gathers(runs, mem + Stored(v[..level]))
    {
      LevelUnlike(v, level);
      if |v[level]| > 0 {
        var run := RunOf(v[level]);
        StoredPart(v, level + 1);
        UnlikePart(mem, Elements(run), Stored(v));
        UnlikeBoth(mem, Stored(v[..level]), Elements(run));
        GathersMore(runs, mem + Stored(v[..level]), run);
        runs := runs + [run];
        assert mem + Stored(v[..level]) + Elements(run) == mem + Stored(v[..level + 1]);
      } else {
        NoFilesHere(v[level]);
        assert mem + Stored(v[..level]) == mem + Stored(v[..level + 1]);
      }
    }
    assert v[..NUM_LEVELS] == v;
  }

  lemma NoLevels(v: Version, mem: set<Entry>)
    requires |v| == NUM_LEVELS
    ensures mem + FileEntries(v[0][..0]) == mem && Stored(v[..1]) == FileEntries(v[0])
  {
    StoredMore(v, 0);
    assert v[..0] == [];
  }

  lemma NoFilesHere(files: seq<File>)
    requires |files| == 0
    ensures FileEntries(files) == {}
  {
  }

  lemma FileIsStored(v: Version, i: nat)
    requires |v| == NUM_LEVELS && i < |v[0]|
    ensures Elements(v[0][i].entries) <= Stored(v)
  {
    forall e | e in Elements(v[0][i].entries) ensures e in Stored(v) {
      assert v[0][i] in v[0] && e in FileEntries(v[0]);
    }
  }

  /** NewInternalIterator: the memtables, the level-0 files and the other levels under one merging iterator, which goes
    through everything in the database. */
  method NewInternalIterator(db: DBImpl) returns (iter: MergingIterator)
    requires db.Valid()
    ensures fresh(iter) && fresh(iter.children) && iter.Valid() && Elements(iter.view) == All(db.State())
  {
    hide Inv, Gathers, Unlike, Sorted, Elements, IsUnion, Distinct, MergeAll, Stored;
    ghost var st := db.State();
    MemFacts(st);
    VersionFacts(st);
    NothingGathered();
    UnlikeNothing(Elements(db.mem));
    GathersMore([], {}, db.mem);
    var list := [db.mem];
    ghost var all := Elements(db.mem);
    assert [] + [db.mem] == list && {} + all == all;
    if db.imm.Some? {
      GathersMore(list, all, db.imm.value);
      list := list + [db.imm.value];
    } else {
      NothingInImm(st);
    }
    all := MemSet(st);
    list := AddIterators(db.versions.current, list, all);
    GatheredIsUnion(list, all + Stored(st.version));
    GathersParts(list, all + Stored(st.version));
    var children := MakeChildren(list);
    assert seq(|children|, c requires 0 <= c < |children| => children[c].run) == list;
    iter := new MergingIterator(children, MergeAll(list));
  }

  lemma NothingInImm(st: State)
    requires st.imm.None?
    ensures MemSet(st) == Elements(st.mem)
  {
  }

  /** NewIterator: the user iterator over it, at a snapshot or at the last sequence number. */
  method NewIterator(db: DBImpl, snapshot: Option<SequenceNumber>) returns (it: DBIter)
    requires db.Valid()
    ensures fresh(it) && fresh(it.iter) && fresh(it.iter.children) && it.Valid() && !it.valid
    ensures Elements(it.iter.view) == All(db.State())
    ensures it.sequence == if snapshot.Some? then snapshot.value else db.versions.lastSequence
  {
    hide DBImpl.Valid, MergingIterator.Valid, Elements;
    var iter := NewInternalIterator(db);
    it := new DBIter(iter, if snapshot.Some? then snapshot.value else db.versions.lastSequence);
  }

  // ---- a full scan -----------------------------------------------------------------------------------------------

  /** The pairs are exactly those of the map, in ascending order of the keys. */
  ghost predicate Lists(out: seq<(UserKey, string)>, m: Contents) {
    (forall i, j :: 0 <= i < j < |out| ==> out[i].0 < out[j].0) && forall u, v :: (u, v) in out <==> u in m && m[u] == v
  }

  /** The pairs are those of the shown entries in front of position to, in their order. */
  ghost predicate ListsShown(run: seq<Entry>, s: nat, to: nat, out: seq<(UserKey, string)>) {
    to <= |run| && (forall i, j :: 0 <= i < j < |out| ==> out[i].0 < out[j].0) &&
    (forall k :: 0 <= k < |out| ==>
     exists i :: 0 <= i < to && Shown(run, s, i) && out[k] == (run[i].key.user, run[i].value)) &&
    forall i :: 0 <= i < to && Shown(run, s, i) ==> (run[i].key.user, run[i].value) in out
  }

  lemma NothingListed(run: seq<Entry>, s: nat, cur: nat)
    requires cur <= |run| && NoneShown(run, s, 0, cur)
    ensures ListsShown(run, s, cur, [])
  {
    hide Shown;
  }

  lemma ListMore(run: seq<Entry>, s: nat, was: nat, cur: nat, out: seq<(UserKey, string)>)
    requires Sorted(run) && ListsShown(run, s, was, out) && was < |run| && Shown(run, s, was)
    requires was < cur <= |run| && NoneShown(run, s, was + 1, cur)
    ensures ListsShown(run, s, cur, out + [(run[was].key.user, run[was].value)])
  {
    hide Shown, Sorted;
    var e := (run[was].key.user, run[was].value);
    var more := out + [e];
    OneGreater(run, s, was, out);
    assert more[|out|] == e;
    forall k | 0 <= k < |out|
      ensures exists i :: 0 <= i < cur && Shown(run, s, i) && more[k] == (run[i].key.user, run[i].value)
    {
      assert more[k] == out[k];
    }
    forall i | 0 <= i < cur && Shown(run, s, i) ensures (run[i].key.user, run[i].value) in more {
      if i < was {
        assert (run[i].key.user, run[i].value) in out;
      }
    }
  }

  lemma OneGreater(run: seq<Entry>, s: nat, was: nat, out: seq<(UserKey, string)>)
    requires Sorted(run) && ListsShown(run, s, was, out) && was < |run| && Shown(run, s, was)
    ensures forall k :: 0 <= k < |out| ==> out[k].0 < run[was].key.user
  {
    hide Shown, Sorted;
    UsersAscend(run);
    forall k | 0 <= k < |out| ensures out[k].0 < run[was].key.user {
      var i :| 0 <= i < was && Shown(run, s, i) && out[k] == (run[i].key.user, run[i].value);
      ShownOnce(run, s, i, was);
    }
  }

  /** All shown entries are the map. */
  lemma AllIsListed(run: seq<Entry>, s: nat, out: seq<(UserKey, string)>, m: Contents)
    requires Sorted(run) && ListsShown(run, s, |run|, out) && ReadsLike(Elements(run), s, m)
    ensures Lists(out, m)
  {
    hide Shown, Sorted, Visible;
    forall u, v ensures (u, v) in out <==> u in m && m[u] == v {
      ShownIsVisible(run, s, u, v);
      assert Visible(Elements(run), u, s) == ReadOf(m, u);
      if (u, v) in out {
        var k :| 0 <= k < |out| && out[k] == (u, v);
        var i :| 0 <= i < |run| && Shown(run, s, i) && out[k] == (run[i].key.user, run[i].value);
      }
    }
  }

  /** A scan from the first key to the last lists exactly the map that the database reads like, in the order of the
    keys: the current contents, or what a live snapshot saved. */
  method Scan(db: DBImpl, snapshot: Option<SequenceNumber>, ghost m: Contents) returns (out: seq<(UserKey, string)>)
    requires db.Valid()
    requires ReadsLike(All(db.State()), if snapshot.Some? then snapshot.value else db.versions.lastSequence, m)
    ensures Lists(out, m)
  {
    hide DBImpl.Valid, MergingIterator.Valid, Elements, Shown, ListsShown, Lists, ReadsLike, All;
    var it := NewIterator(db, snapshot);
    ghost var run, s := it.iter.view, it.sequence;
    it.SeekToFirst();
    out := [];
    NothingListed(run, s, it.cur);
    while it.valid
      invariant it.Valid() && fresh(it) && fresh(it.iter) && fresh(it.iter.children) && it.iter.view == run &&
        it.sequence == s
      invariant ListsShown(run, s, it.cur, out)
      decreases |run| - it.cur
    {
      var u := it.Key();
      var v := it.Value();
      ghost var was := it.cur;
      it.Next();
      ListMore(run, s, was, it.cur, out);
      out := out + [(u, v)];
    }
    AllIsListed(run, s, out, m);
  }
}
