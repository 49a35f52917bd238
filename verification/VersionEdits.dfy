/** VersionSet::Builder of db/version_set.cc: applying edits to a version, one at a time
  (LogAndApply) or a whole manifest at once (Recover). */
module VersionEdits {
  import opened InternalKeys
  import opened Versions

  /** deleted_files_ and new_files_ of a VersionEdit, each paired with its level. */
  datatype Edit = Edit(deleted: seq<(nat, nat)>, added: seq<(nat, File)>)

  /** deleted_files and added_files of one level of the builder. */
  datatype LevelState = LevelState(deleted: set<nat>, added: seq<File>)

  const EMPTY := LevelState({}, [])

  // ---- the order of files in a level -----------------------------------------------

  /** BySmallestKey. */
  predicate BySmallest(f: File, g: File) {
    Less(f.smallest, g.smallest) || (f.smallest == g.smallest && f.number < g.number)
  }

  ghost predicate Ordered(files: seq<File>) {
    forall i, j :: 0 <= i < j < |files| ==> BySmallest(files[i], files[j])
  }

  /** std::set::insert: nothing changes when an equal element is there. */
  function Insert(files: seq<File>, f: File): seq<File> {
    if |files| == 0 || BySmallest(f, files[0]) then [f] + files
    else if BySmallest(files[0], f) then [files[0]] + Insert(files[1..], f)
    else files
  }

  lemma {:induction false} InsertOrders(files: seq<File>, f: File)
    requires Ordered(files) && forall g :: g in files ==> g.number != f.number
    ensures Ordered(Insert(files, f))
    ensures forall g :: g in Insert(files, f) <==> g in files || g == f
  {
    if |files| > 0 && !BySmallest(f, files[0]) {
      var rest := files[1..];
      InsertOrders(rest, f);
      assert files == [files[0]] + rest;
      forall g | g in Insert(rest, f) ensures BySmallest(files[0], g) {
        if g in rest {
          var i :| 0 <= i < |rest| && rest[i] == g;
          assert files[i + 1] == g;
        }
      }
    }
  }

  /** An ordered list is determined by its elements. */
  lemma {:induction false} OrderedIsUnique(a: seq<File>, b: seq<File>)
    requires Ordered(a) && Ordered(b) && forall f :: f in a <==> f in b
    ensures a == b
  {
    SameEmptiness(a, b);
    if |a| > 0 {
      assert a[0] in b && b[0] in a;
      assert a == [a[0]] + a[1..] && b == [b[0]] + b[1..];
      assert a[0] == b[0];
      TailElements(a);
      TailElements(b);
      OrderedIsUnique(a[1..], b[1..]);
    }
  }

  lemma SameEmptiness(a: seq<File>, b: seq<File>)
    requires forall f :: f in a <==> f in b
    ensures |a| == 0 <==> |b| == 0
  {
    assert forall s: seq<File> :: |s| > 0 ==> s[0] in s;
  }

  lemma TailElements(a: seq<File>)
    requires Ordered(a) && |a| > 0
    ensures forall f :: f in a[1..] <==> f in a && f != a[0]
  {
    assert a == [a[0]] + a[1..];
    assert forall i :: 1 <= i < |a| ==> BySmallest(a[0], a[i]);
  }

  // ---- applying an edit --------------------------------------------------------------

  function WithDeleted(st: LevelState, deleted: seq<(nat, nat)>, level: nat): LevelState {
    if |deleted| == 0 then st
    else
      var n := |deleted| - 1;
      var before := WithDeleted(st, deleted[..n], level);
      if deleted[n].0 == level then before.(deleted := before.deleted + {deleted[n].1}) else before
  }

  function WithAdded(st: LevelState, added: seq<(nat, File)>, level: nat): LevelState {
    if |added| == 0 then st
    else
      var n := |added| - 1;
      var before := WithAdded(st, added[..n], level);
      if added[n].0 == level
      then LevelState(before.deleted - {added[n].1.number}, Insert(before.added, added[n].1))
      else before
  }

  function Applied(st: LevelState, edit: Edit, level: nat): LevelState {
    WithAdded(WithDeleted(st, edit.deleted, level), edit.added, level)
  }

  // ---- saving ------------------------------------------------------------------------

  /** MaybeAddFile over a stretch of files. */
  function Kept(files: seq<File>, deleted: set<nat>): seq<File> {
    if |files| == 0 then []
    else
      var n := |files| - 1;
      Kept(files[..n], deleted) + (if files[n].number in deleted then [] else [files[n]])
  }

  /** std::upper_bound: how many files of an ordered list do not come after f. */
  function UpperBound(files: seq<File>, f: File): (n: nat)
    ensures n <= |files|
    ensures forall i :: 0 <= i < n ==> !BySmallest(f, files[i])
    ensures n < |files| ==> BySmallest(f, files[n])
  {
    if |files| == 0 || BySmallest(f, files[0]) then 0 else 1 + UpperBound(files[1..], f)
  }

  /** The base files and the added files, in merged order. */
  function Merged(base: seq<File>, added: seq<File>): seq<File> {
    if |added| == 0 then base
    else
      var n := UpperBound(base, added[0]);
      base[..n] + [added[0]] + Merged(base[n..], added[1..])
  }

  /** One level of the version that SaveTo builds. */
  function Saved(base: seq<File>, st: LevelState): seq<File> {
    Kept(Merged(base, st.added), st.deleted)
  }

  function Installed(v: Version, edit: Edit): Version {
    seq(|v|, l requires 0 <= l < |v| => Saved(v[l], Applied(EMPTY, edit, l)))
  }

  class Builder {
    const base: Version
    const levels: array<LevelState>

    constructor (base: Version)
      ensures this.base == base && fresh(levels) && levels.Length == |base|
      ensures forall l :: 0 <= l < |base| ==> levels[l] == EMPTY
    {
      this.base := base;
      levels := new LevelState[|base|](i => EMPTY);
    }

    method Apply(edit: Edit)
      requires levels.Length == |base|
      requires forall i :: 0 <= i < |edit.deleted| ==> edit.deleted[i].0 < |base|
      requires forall i :: 0 <= i < |edit.added| ==> edit.added[i].0 < |base|
      modifies levels
      ensures forall l :: 0 <= l < |base| ==> levels[l] == Applied(old(levels[l]), edit, l)
    {
      for i := 0 to |edit.deleted|
        invariant forall l :: 0 <= l < |base| ==> levels[l] == WithDeleted(old(levels[l]), edit.deleted[..i], l)
      {
        var (level, number) := edit.deleted[i];
        assert edit.deleted[..i + 1][..i] == edit.deleted[..i];
        levels[level] := levels[level].(deleted := levels[level].deleted + {number});
      }
      assert edit.deleted[..|edit.deleted|] == edit.deleted;
      for i := 0 to |edit.added|
        invariant forall l :: 0 <= l < |base| ==>
          levels[l] == WithAdded(WithDeleted(old(levels[l]), edit.deleted, l), edit.added[..i], l)
      {
        var (level, f) := edit.added[i];
        assert edit.added[..i + 1][..i] == edit.added[..i];
        levels[level] := LevelState(levels[level].deleted - {f.number}, Insert(levels[level].added, f));
      }
      assert edit.added[..|edit.added|] == edit.added;
    }

    method SaveTo() returns (v: Version)
      requires levels.Length == |base|
      ensures |v| == |base| && forall l :: 0 <= l < |base| ==> v[l] == Saved(base[l], levels[l])
    {
      v := [];
      for level := 0 to |base|
        invariant |v| == level && forall l :: 0 <= l < level ==> v[l] == Saved(base[l], levels[l])
      {
        var files := SaveLevel(base[level], levels[level]);
        v := v + [files];
      }
    }
  }

  lemma {:induction false} KeptConcat(a: seq<File>, b: seq<File>, deleted: set<nat>)
    ensures Kept(a + b, deleted) == Kept(a, deleted) + Kept(b, deleted)
  {
    if |b| > 0 {
      var n := |b| - 1;
      KeptConcat(a, b[..n], deleted);
      assert (a + b)[..|a| + n] == a + b[..n];
    } else {
      assert a + b == a;
    }
  }

  /** One turn of the merge loop, seen from what is left to merge. */
  lemma MergeStep(base: seq<File>, added: seq<File>, deleted: set<nat>)
    requires |added| > 0
    ensures var n := UpperBound(base, added[0]);
      Kept(Merged(base, added), deleted) ==
      Kept(base[..n], deleted) + (if added[0].number in deleted then [] else [added[0]]) +
      Kept(Merged(base[n..], added[1..]), deleted)
  {
    var n := UpperBound(base, added[0]);
    var tail := Merged(base[n..], added[1..]);
    KeptConcat(base[..n] + [added[0]], tail, deleted);
    KeptConcat(base[..n], [added[0]], deleted);
    assert [added[0]][..0] == [];
  }

  lemma SaveStep(files: seq<File>, base: seq<File>, it: nat, bpos: nat, added: seq<File>, a: nat, deleted: set<nat>)
    requires it <= |base| && a < |added| && bpos == it + UpperBound(base[it..], added[a])
    ensures files + Kept(Merged(base[it..], added[a..]), deleted) ==
      files + Kept(base[it..bpos], deleted) + (if added[a].number in deleted then [] else [added[a]]) +
      Kept(Merged(base[bpos..], added[a + 1..]), deleted)
  {
    hide Kept, Merged;
    MergeStep(base[it..], added[a..], deleted);
    Slices(base, it, bpos);
    Slices(added, a, a + 1);
  }

  lemma Slices(s: seq<File>, i: nat, j: nat)
    requires i <= j <= |s|
    ensures s[i..][..j - i] == s[i..j] && s[i..][j - i..] == s[j..]
  {
  }

  /** The merge loop of SaveTo for one level. */
  method SaveLevel(base: seq<File>, st: LevelState) returns (files: seq<File>)
    ensures files == Saved(base, st)
  {
    hide Kept, Merged;
    files := [];
    var it: nat := 0;
    for a := 0 to |st.added|
      invariant it <= |base|
      invariant files + Kept(Merged(base[it..], st.added[a..]), st.deleted) == Saved(base, st)
    {
      var f := st.added[a];
      var bpos := it + UpperBound(base[it..], f);
      SaveStep(files, base, it, bpos, st.added, a, st.deleted);
      files := SaveRun(files, base, it, bpos, st.deleted);
      it := bpos;
      if f.number !in st.deleted {
        files := files + [f];
      }
    }
    files := SaveRun(files, base, it, |base|, st.deleted);
    NothingAdded(base[it..]);
    assert st.added[|st.added|..] == [] && base[it..|base|] == base[it..];
  }

  lemma NothingAdded(base: seq<File>)
    ensures Merged(base, []) == base
  {
  }

  method SaveRun(files: seq<File>, base: seq<File>, from: nat, to: nat, deleted: set<nat>) returns (r: seq<File>)
    requires from <= to <= |base|
    ensures r == files + Kept(base[from..to], deleted)
  {
    r := files;
    for i := from to to
      invariant r == files + Kept(base[from..i], deleted)
    {
      assert base[from..i + 1][..i - from] == base[from..i];
      if base[i].number !in deleted {
        r := r + [base[i]];
      }
    }
  }

  // ---- what a saved level holds ------------------------------------------------------

  lemma {:induction false} KeptIs(files: seq<File>, deleted: set<nat>)
    requires Ordered(files)
    ensures Ordered(Kept(files, deleted))
    ensures forall f :: f in Kept(files, deleted) <==> f in files && f.number !in deleted
  {
    if |files| > 0 {
      var n := |files| - 1;
      KeptIs(files[..n], deleted);
      assert files == files[..n] + [files[n]];
      forall f | f in Kept(files[..n], deleted) ensures BySmallest(f, files[n]) {
        var i :| 0 <= i < n && files[..n][i] == f;
        assert files[i] == f;
      }
    }
  }

  ghost predicate AllBefore(a: seq<File>, b: seq<File>) {
    forall f, g :: f in a && g in b ==> BySmallest(f, g)
  }

  lemma OrderedConcat(a: seq<File>, b: seq<File>)
    requires Ordered(a) && Ordered(b) && AllBefore(a, b)
    ensures Ordered(a + b)
  {
    forall i, j | 0 <= i < j < |a + b| ensures BySmallest((a + b)[i], (a + b)[j]) {
      if i < |a| <= j {
        assert (a + b)[i] in a && (a + b)[j] in b;
      }
    }
  }

  lemma UpperBoundSplits(base: seq<File>, f: File)
    requires Ordered(base) && forall g :: g in base ==> g.number != f.number
    ensures var n := UpperBound(base, f);
      AllBefore(base[..n], [f]) && AllBefore([f], base[n..]) && AllBefore(base[..n], base[n..])
  {
    var n := UpperBound(base, f);
    forall i | 0 <= i < n ensures BySmallest(base[i], f) {
      assert base[i] in base;
    }
    forall i | n <= i < |base| ensures BySmallest(f, base[i]) {
    }
  }

  lemma {:induction false} MergedMembers(base: seq<File>, added: seq<File>)
    ensures forall f :: f in Merged(base, added) <==> f in base || f in added
  {
    if |added| > 0 {
      var n := UpperBound(base, added[0]);
      MergedMembers(base[n..], added[1..]);
      assert base == base[..n] + base[n..];
      assert added == [added[0]] + added[1..];
    }
  }

  /** No file number occurs in both lists. */
  ghost predicate Foreign(base: seq<File>, added: seq<File>) {
    forall f, g :: f in base && g in added ==> f.number != g.number
  }

  lemma Suffixes(base: seq<File>, added: seq<File>, n: nat)
    requires Ordered(base) && Ordered(added) && Foreign(base, added) && n <= |base| && |added| > 0
    ensures Ordered(base[..n]) && Ordered(base[n..]) && Ordered(added[1..]) && Foreign(base[n..], added[1..])
    ensures forall g :: g in base ==> g.number != added[0].number
  {
    assert base == base[..n] + base[n..];
    assert added == [added[0]] + added[1..];
  }

  lemma {:induction false} MergedIsOrdered(base: seq<File>, added: seq<File>)
    requires Ordered(base) && Ordered(added) && Foreign(base, added)
    ensures Ordered(Merged(base, added))
  {
    hide Ordered, Foreign, AllBefore, BySmallest;
    if |added| > 0 {
      var f, n := added[0], UpperBound(base, added[0]);
      var rest := Merged(base[n..], added[1..]);
      Suffixes(base, added, n);
      MergedIsOrdered(base[n..], added[1..]);
      UpperBoundSplits(base, f);
      FirstIsFirst(added);
      MergedTail(base, added, n);
      SingletonIsOrdered(f);
      OrderedConcat([f], rest);
      OrderedConcat(base[..n], [f] + rest);
      assert base[..n] + [f] + rest == base[..n] + ([f] + rest);
    }
  }

  lemma SingletonIsOrdered(f: File)
    ensures Ordered([f])
  {
  }

  lemma FirstIsFirst(added: seq<File>)
    requires Ordered(added) && |added| > 0
    ensures AllBefore([added[0]], added[1..])
  {
  }

  lemma MergedTail(base: seq<File>, added: seq<File>, n: nat)
    requires n <= |base| && |added| > 0
    requires AllBefore(base[..n], [added[0]]) && AllBefore([added[0]], base[n..]) && AllBefore(base[..n], base[n..])
    requires AllBefore([added[0]], added[1..])
    ensures AllBefore([added[0]], Merged(base[n..], added[1..]))
    ensures AllBefore(base[..n], [added[0]] + Merged(base[n..], added[1..]))
  {
    hide Merged;
    MergedMembers(base[n..], added[1..]);
    assert added[0] in [added[0]];
    forall f, g | f in base[..n] && g in [added[0]] + Merged(base[n..], added[1..]) ensures BySmallest(f, g) {
      assert BySmallest(f, added[0]);
    }
  }

  /** A saved level holds the base files and the added files that are not deleted, in order. */
  lemma SavedIs(base: seq<File>, st: LevelState)
    requires Ordered(base) && Ordered(st.added)
    requires Foreign(base, st.added)
    ensures Ordered(Saved(base, st))
    ensures forall f :: f in Saved(base, st) <==> (f in base || f in st.added) && f.number !in st.deleted
  {
    MergedIsOrdered(base, st.added);
    MergedMembers(base, st.added);
    KeptIs(Merged(base, st.added), st.deleted);
  }
}
