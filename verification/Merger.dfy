/** The merging iterator of table/merger.cc over children with pairwise distinct keys: a cursor on their
  sorted union, whatever mix of moves it makes. */
module Merger {
  import opened Options
  import opened InternalKeys
  import opened Versions

  /** A child iterator: a cursor on one sorted run.  Off either end it is not valid, which is pos == |run|. */
  class RunIterator {
    const run: seq<Entry>
    var pos: nat

    constructor (run: seq<Entry>)
      ensures this.run == run && pos == |run|
    {
      this.run, pos := run, |run|;
    }

    predicate Valid()
      reads this
    {
      pos < |run|
    }

    function Entry(): Entry
      requires Valid()
      reads this
    {
      run[pos]
    }

    method SeekToFirst()
      modifies this
      ensures pos == 0
    {
      pos := 0;
    }

    method SeekToLast()
      modifies this
      ensures pos == if |run| == 0 then 0 else |run| - 1
    {
      pos := if |run| == 0 then 0 else |run| - 1;
    }

    method Seek(target: IKey)
      modifies this
      ensures pos == Versions.Seek(run, target)
    {
      pos := Versions.Seek(run, target);
    }

    method Next()
      requires Valid()
      modifies this
      ensures pos == old(pos) + 1
    {
      pos := pos + 1;
    }

    method Prev()
      requires Valid()
      modifies this
      ensures pos == if old(pos) == 0 then |run| else old(pos) - 1
    {
      pos := if pos == 0 then |run| else pos - 1;
    }
  }

  // ---- positions ------------------------------------------------------------------------

  /** The first n entries of the run are the ones in front of position t of the view. */
  ghost predicate Split(run: seq<Entry>, n: nat, view: seq<Entry>, t: nat) {
    n <= |run| && t <= |view| &&
    (t == |view| ==> n == |run|) &&
    (t < |view| ==> forall i :: 0 <= i < n ==> Before(run[i].key, view[t].key)) &&
    (t < |view| ==> forall i :: n <= i < |run| ==> !Before(run[i].key, view[t].key))
  }

  /** Where a child stands when it has stepped back in front of position t. */
  function BackOf(run: seq<Entry>, n: nat): nat {
    if n == 0 then |run| else n - 1
  }

  ghost predicate IsUnion(view: seq<Entry>, runs: seq<seq<Entry>>) {
    Sorted(view) && (forall c :: 0 <= c < |runs| ==> Sorted(runs[c])) &&
    (forall c, e :: 0 <= c < |runs| && e in runs[c] ==> e in view) &&
    (forall e :: e in view ==> exists c :: 0 <= c < |runs| && e in runs[c])
  }

  /** No key occurs in two runs. */
  ghost predicate Distinct(runs: seq<seq<Entry>>) {
    forall c, d, x, y :: 0 <= c < |runs| && 0 <= d < |runs| && x in runs[c] && y in runs[d] && c != d ==>
      Before(x.key, y.key) || Before(y.key, x.key)
  }

  lemma InView(view: seq<Entry>, runs: seq<seq<Entry>>, c: nat, i: nat) returns (k: nat)
    requires IsUnion(view, runs) && c < |runs| && i < |runs[c]|
    ensures k < |view| && view[k] == runs[c][i]
  {
    assert runs[c][i] in runs[c];
    assert runs[c][i] in view;
    k :| 0 <= k < |view| && view[k] == runs[c][i];
  }

  lemma InRun(view: seq<Entry>, runs: seq<seq<Entry>>, k: nat) returns (c: nat, i: nat)
    requires IsUnion(view, runs) && k < |view|
    ensures c < |runs| && i < |runs[c]| && runs[c][i] == view[k]
  {
    assert view[k] in view;
    c :| 0 <= c < |runs| && view[k] in runs[c];
    i :| 0 <= i < |runs[c]| && runs[c][i] == view[k];
  }

  /** If every child has as many entries behind it as belong in front of t, the least entry ahead is the one at t. */
  lemma LeastAhead(view: seq<Entry>, runs: seq<seq<Entry>>, pos: seq<nat>, t: nat, c: nat)
    requires IsUnion(view, runs) && |pos| == |runs| && t <= |view|
    requires forall d :: 0 <= d < |runs| ==> Split(runs[d], pos[d], view, t)
    requires c < |runs| && pos[c] < |runs[c]|
    requires forall d :: 0 <= d < |runs| && pos[d] < |runs[d]| ==> !Less(runs[d][pos[d]].key, runs[c][pos[c]].key)
    ensures t < |view| && runs[c][pos[c]] == view[t]
  {
    var k := InView(view, runs, c, pos[c]);
    assert Split(runs[c], pos[c], view, t);
    var d, j := InRun(view, runs, t);
    assert Split(runs[d], pos[d], view, t);
    assert pos[d] == j;
  }

  lemma NothingAhead(view: seq<Entry>, runs: seq<seq<Entry>>, pos: seq<nat>, t: nat)
    requires IsUnion(view, runs) && |pos| == |runs| && t <= |view|
    requires forall d :: 0 <= d < |runs| ==> Split(runs[d], pos[d], view, t) && pos[d] >= |runs[d]|
    ensures t == |view|
  {
    if t < |view| {
      var d, j := InRun(view, runs, t);
    }
  }

  /** The greatest entry in front of t is the one just before it. */
  lemma GreatestBehind(view: seq<Entry>, runs: seq<seq<Entry>>, n: seq<nat>, t: nat, c: nat)
    requires IsUnion(view, runs) && |n| == |runs| && t <= |view|
    requires forall d :: 0 <= d < |runs| ==> Split(runs[d], n[d], view, t)
    requires c < |runs| && n[c] > 0
    requires forall d :: 0 <= d < |runs| ==> n[d] <= |runs[d]|
    requires forall d :: 0 <= d < |runs| && n[d] > 0 ==> !Less(runs[c][n[c] - 1].key, runs[d][n[d] - 1].key)
    ensures t > 0 && runs[c][n[c] - 1] == view[t - 1]
  {
    assert Split(runs[c], n[c], view, t);
    var k := InView(view, runs, c, n[c] - 1);
    assert k < t;
    var d, j := InRun(view, runs, t - 1);
    assert Split(runs[d], n[d], view, t);
    assert j < n[d];
  }

  lemma NothingBehind(view: seq<Entry>, runs: seq<seq<Entry>>, n: seq<nat>, t: nat)
    requires IsUnion(view, runs) && |n| == |runs| && t <= |view|
    requires forall d :: 0 <= d < |runs| ==> Split(runs[d], n[d], view, t) && n[d] == 0
    ensures t == 0
  {
    if t > 0 {
      var d, j := InRun(view, runs, t - 1);
    }
  }

  lemma AfterNext(view: seq<Entry>, e: Entry, t: nat)
    requires Sorted(view) && e in view && t < |view| && Before(view[t].key, e.key)
    ensures t + 1 < |view| && !Before(e.key, view[t + 1].key)
  {
    var i :| 0 <= i < |view| && view[i] == e;
  }

  /** The run that holds the entry at t moves one on. */
  lemma OwnRunSteps(view: seq<Entry>, run: seq<Entry>, t: nat, p: nat)
    requires Sorted(view) && Sorted(run) && (forall e :: e in run ==> e in view) && t < |view| && p < |run| &&
      run[p] == view[t]
    ensures Split(run, p, view, t) && Split(run, p + 1, view, t + 1)
  {
    forall i | p < i < |run| ensures t + 1 < |view| && !Before(run[i].key, view[t + 1].key) {
      assert run[i] in run;
      AfterNext(view, run[i], t);
    }
    if p + 1 < |run| {
      AfterNext(view, run[p + 1], t);
    }
  }

  /** A run without the entry at t stays where it is. */
  lemma OtherRunStays(view: seq<Entry>, run: seq<Entry>, t: nat, n: nat)
    requires Sorted(view) && Sorted(run) && (forall e :: e in run ==> e in view) && t < |view|
    requires forall e :: e in run ==> Before(e.key, view[t].key) || Before(view[t].key, e.key)
    ensures Split(run, n, view, t) ==> Split(run, n, view, t + 1)
    ensures Split(run, n, view, t + 1) ==> Split(run, n, view, t)
  {
    SideOf(view, run, t);
    if n < |run| && Split(run, n, view, t) {
      assert !Before(run[n].key, view[t].key);
    }
  }

  lemma SideOf(view: seq<Entry>, run: seq<Entry>, t: nat)
    requires Sorted(view) && (forall e :: e in run ==> e in view) && t < |view|
    requires forall e :: e in run ==> Before(e.key, view[t].key) || Before(view[t].key, e.key)
    ensures forall i :: 0 <= i < |run| ==>
      (Before(run[i].key, view[t].key) <==> (t + 1 == |view| || Before(run[i].key, view[t + 1].key)))
  {
    forall i | 0 <= i < |run|
      ensures Before(run[i].key, view[t].key) <==> (t + 1 == |view| || Before(run[i].key, view[t + 1].key))
    {
      assert run[i] in run;
      if Before(view[t].key, run[i].key) {
        AfterNext(view, run[i], t);
      }
    }
  }

  /** Seeking every child splits every run at the same position of the view. */
  lemma SeekSplits(view: seq<Entry>, run: seq<Entry>, target: IKey)
    requires Sorted(view) && Sorted(run) && forall e :: e in run ==> e in view
    ensures Split(run, Seek(run, target), view, Seek(view, target))
  {
    var t, n := Seek(view, target), Seek(run, target);
    forall i | n <= i < |run| ensures t < |view| && !Before(run[i].key, view[t].key) {
      assert run[i] in run && (i > n ==> Before(run[n].key, run[i].key));
      var j :| 0 <= j < |view| && view[j] == run[i];
    }
    forall i | 0 <= i < n && t < |view| ensures Before(run[i].key, view[t].key) {
      assert run[i] in run;
      var j :| 0 <= j < |view| && view[j] == run[i];
    }
  }

  // ---- the union exists ----------------------------------------------------------------------

  function Merge(a: seq<Entry>, b: seq<Entry>): seq<Entry> {
    if |a| == 0 then b
    else if |b| == 0 then a
    else if Before(a[0].key, b[0].key) then [a[0]] + Merge(a[1..], b)
    else [b[0]] + Merge(a, b[1..])
  }

  function MergeAll(runs: seq<seq<Entry>>): seq<Entry> {
    if |runs| == 0 then [] else Merge(runs[0], MergeAll(runs[1..]))
  }

  lemma {:induction false} MergeElements(a: seq<Entry>, b: seq<Entry>)
    ensures forall e :: e in Merge(a, b) <==> e in a || e in b
  {
    if |a| > 0 && |b| > 0 {
      assert a == [a[0]] + a[1..] && b == [b[0]] + b[1..];
      if Before(a[0].key, b[0].key) {
        MergeElements(a[1..], b);
      } else {
        MergeElements(a, b[1..]);
      }
    }
  }

  ghost predicate Comparable(a: seq<Entry>, b: seq<Entry>) {
    forall x, y :: x in a && y in b ==> Before(x.key, y.key) || Before(y.key, x.key)
  }

  lemma {:induction false} MergeIsSorted(a: seq<Entry>, b: seq<Entry>)
    requires Sorted(a) && Sorted(b) && Comparable(a, b)
    ensures Sorted(Merge(a, b))
  {
    if |a| > 0 && |b| > 0 {
      assert a == [a[0]] + a[1..] && b == [b[0]] + b[1..];
      if Before(a[0].key, b[0].key) {
        MergeIsSorted(a[1..], b);
        MergeElements(a[1..], b);
        HeadBefore(a[0], a[1..], b, Merge(a[1..], b));
      } else {
        assert a[0] in a && b[0] in b;
        MergeIsSorted(a, b[1..]);
        MergeElements(a, b[1..]);
        HeadBefore(b[0], b[1..], a, Merge(a, b[1..]));
      }
    }
  }

  lemma HeadBefore(x: Entry, rest: seq<Entry>, other: seq<Entry>, merged: seq<Entry>)
    requires Sorted([x] + rest) && Sorted(other) && |other| > 0 && Before(x.key, other[0].key)
    requires Sorted(merged) && forall e :: e in merged ==> e in rest || e in other
    ensures Sorted([x] + merged)
  {
    forall i | 0 <= i < |merged| ensures Before(x.key, merged[i].key) {
      assert merged[i] in merged;
      if merged[i] in rest {
        var j :| 0 <= j < |rest| && rest[j] == merged[i];
        assert ([x] + rest)[0] == x && ([x] + rest)[j + 1] == rest[j];
      } else {
        var j :| 0 <= j < |other| && other[j] == merged[i];
      }
    }
  }

  lemma {:induction false} MergeAllElements(runs: seq<seq<Entry>>, e: Entry)
    ensures e in MergeAll(runs) <==> exists c :: 0 <= c < |runs| && e in runs[c]
  {
    if |runs| > 0 {
      MergeAllElements(runs[1..], e);
      MergeElements(runs[0], MergeAll(runs[1..]));
      if c :| 0 <= c < |runs| && e in runs[c] {
        assert c > 0 ==> runs[1..][c - 1] == runs[c];
      }
      if c :| 0 <= c < |runs[1..]| && e in runs[1..][c] {
        assert runs[c + 1] == runs[1..][c];
      }
    }
  }

  lemma {:induction false} MergeAllIsSorted(runs: seq<seq<Entry>>)
    requires (forall c :: 0 <= c < |runs| ==> Sorted(runs[c])) && Distinct(runs)
    ensures Sorted(MergeAll(runs))
  {
    if |runs| > 0 {
      var rest := runs[1..];
      MergeAllIsSorted(rest);
      forall x, y | x in runs[0] && y in MergeAll(rest) ensures Before(x.key, y.key) || Before(y.key, x.key) {
        MergeAllElements(rest, y);
        var c :| 0 <= c < |rest| && y in rest[c];
        assert runs[c + 1] == rest[c];
      }
      MergeIsSorted(runs[0], MergeAll(rest));
    }
  }

  /** Sorted runs without a common key have a sorted union. */
  lemma MergeAllIsUnion(runs: seq<seq<Entry>>)
    requires (forall c :: 0 <= c < |runs| ==> Sorted(runs[c])) && Distinct(runs)
    ensures IsUnion(MergeAll(runs), runs)
  {
    hide MergeAll, Distinct;
    MergeAllIsSorted(runs);
    forall e ensures e in MergeAll(runs) <==> exists c :: 0 <= c < |runs| && e in runs[c] {
      MergeAllElements(runs, e);
    }
  }

  // ---- gathering runs ----------------------------------------------------------------------------

  /** Sorted runs without a common key that together hold exactly these entries. */
  ghost predicate Gathers(runs: seq<seq<Entry>>, all: set<Entry>) {
    (forall c :: 0 <= c < |runs| ==> Sorted(runs[c])) && Distinct(runs) &&
    (forall c, e :: 0 <= c < |runs| && e in runs[c] ==> e in all) &&
    forall e :: e in all ==> exists c :: 0 <= c < |runs| && e in runs[c]
  }

  ghost predicate Unlike(a: set<Entry>, b: set<Entry>) {
    forall x, y :: x in a && y in b ==> Before(x.key, y.key) || Before(y.key, x.key)
  }

  lemma GathersMore(runs: seq<seq<Entry>>, all: set<Entry>, run: seq<Entry>)
    requires Gathers(runs, all) && Sorted(run) && Unlike(all, Elements(run))
    ensures Gathers(runs + [run], all + Elements(run))
  {
    hide Sorted, Before;
    var more := runs + [run];
    forall e | e in all + Elements(run) ensures exists c :: 0 <= c < |more| && e in more[c] {
      if e in all {
        var c :| 0 <= c < |runs| && e in runs[c];
        assert e in more[c];
      } else {
        assert e in more[|runs|];
      }
    }
    forall c, d, x: Entry, y: Entry | 0 <= c < |more| && 0 <= d < |more| && x in more[c] && y in more[d] && c != d
      ensures Before(x.key, y.key) || Before(y.key, x.key)
    {
      if c < |runs| && d < |runs| {
        assert x in runs[c] && y in runs[d];
      } else if c < |runs| {
        assert x in runs[c] && y in Elements(run);
      } else {
        assert y in runs[d] && x in Elements(run);
      }
    }
  }

  lemma NewerIsUnlike(a: set<Entry>, b: set<Entry>)
    requires Newer(a, b) || Newer(b, a)
    ensures Unlike(a, b)
  {
  }

  lemma UnlikeBoth(a: set<Entry>, b: set<Entry>, c: set<Entry>)
    requires Unlike(a, c) && Unlike(b, c)
    ensures Unlike(a + b, c)
  {
    hide Before;
  }

  lemma UnlikePart(a: set<Entry>, b: set<Entry>, c: set<Entry>)
    requires Unlike(a, c) && b <= c
    ensures Unlike(a, b)
  {
    hide Before;
  }

  lemma NothingGathered()
    ensures Gathers([], {})
  {
  }

  lemma GatheredIsUnion(runs: seq<seq<Entry>>, all: set<Entry>)
    requires Gathers(runs, all)
    ensures IsUnion(MergeAll(runs), runs) && Elements(MergeAll(runs)) == all
  {
    hide MergeAll, Sorted, Distinct;
    MergeAllIsUnion(runs);
    var view := MergeAll(runs);
    assert forall e :: e in view <==> e in all;
  }

  lemma UnlikeNothing(a: set<Entry>)
    ensures Unlike({}, a)
  {
  }

  lemma GathersParts(runs: seq<seq<Entry>>, all: set<Entry>)
    requires Gathers(runs, all)
    ensures Distinct(runs)
  {
  }

  // ---- the iterator --------------------------------------------------------------------------

  class MergingIterator {
    const children: seq<RunIterator>
    var current: Option<nat>
    var forward: bool
    /** The sorted union of the children, and where in it the iterator stands; at == |view| when not valid. */
    ghost const view: seq<Entry>
    ghost var at: nat

    constructor (children: seq<RunIterator>, ghost view: seq<Entry>)
      requires IsUnion(view, seq(|children|, c requires 0 <= c < |children| => children[c].run))
      requires Distinct(seq(|children|, c requires 0 <= c < |children| => children[c].run))
      requires forall c, d :: 0 <= c < d < |children| ==> children[c] != children[d]
      requires forall c :: 0 <= c < |children| ==> children[c].pos == |children[c].run|
      ensures Valid() && !IsValid() && this.children == children && this.view == view
    {
      this.children, this.view := children, view;
      current, forward := None, true;
      at := |view|;
    }

    ghost function Runs(): (r: seq<seq<Entry>>)
      ensures |r| == |children| && forall c :: 0 <= c < |children| ==> r[c] == children[c].run
    {
      seq(|children|, c requires 0 <= c < |children| => children[c].run)
    }

    ghost predicate Shape() {
      IsUnion(view, Runs()) && Distinct(Runs()) &&
      forall c, d :: 0 <= c < d < |children| ==> children[c] != children[d]
    }

    /** Moving forward, every child stands at its first entry at or after the current one. */
    ghost predicate Ahead(t: nat)
      reads children
    {
      forall c :: 0 <= c < |children| ==> Split(children[c].run, children[c].pos, view, t)
    }

    /** Moving backward, every child stands at its last entry in front of t, or is not valid. */
    ghost predicate Behind(t: nat)
      reads children
    {
      forall c :: 0 <= c < |children| ==> BehindAt(children[c], t)
    }

    ghost predicate BehindAt(child: RunIterator, t: nat)
      reads child
    {
      exists n: nat :: Split(child.run, n, view, t) && child.pos == BackOf(child.run, n)
    }

    ghost predicate Placed()
      reads this, children
    {
      at <= |view| && (current.Some? <==> at < |view|) &&
      (current.Some? ==>
       current.value < |children| && children[current.value].Valid() && children[current.value].Entry() == view[at])
    }

    ghost predicate Valid()
      reads this, children
      ensures Valid() ==> at <= |view| && (IsValid() <==> at < |view|) && Sorted(view)
    {
      Shape() && Placed() &&
      (forward ==> Ahead(at)) && (!forward ==> Behind(if at == |view| then 0 else at + 1))
    }

    predicate IsValid()
      reads this
    {
      current.Some?
    }

    method Current() returns (e: Entry)
      requires Valid() && IsValid()
      ensures at < |view| && e == view[at]
    {
      e := children[current.value].Entry();
    }

    /** The first child with the least key, among those that are valid. */
    method FindSmallest()
      requires Shape() && at <= |view| && Ahead(at)
      modifies this`current
      ensures Placed()
    {
      hide Split, IsUnion, Distinct, BehindAt;
      var smallest: Option<nat> := None;
      for i := 0 to |children|
        invariant smallest.None? ==> forall c :: 0 <= c < i ==> !children[c].Valid()
        invariant smallest.Some? ==> smallest.value < i && children[smallest.value].Valid()
        invariant smallest.Some? ==> forall c :: 0 <= c < i && children[c].Valid() ==>
          !Less(children[c].Entry().key, children[smallest.value].Entry().key)
      {
        var child := children[i];
        if child.Valid() {
          if smallest.None? || Less(child.Entry().key, children[smallest.value].Entry().key) {
            smallest := Some(i);
          }
        }
      }
      current := smallest;
      ghost var pos := seq(|children|, c requires 0 <= c < |children| reads children => children[c].pos);
      if smallest.Some? {
        LeastAhead(view, Runs(), pos, at, smallest.value);
      } else {
        NothingAhead(view, Runs(), pos, at);
      }
    }

    method SeekToFirst()
      requires Valid()
      modifies this, children
      ensures Valid() && at == 0
    {
      hide Split, IsUnion, Distinct, BehindAt, BackOf;
      for i := 0 to |children|
        invariant forall c :: 0 <= c < i ==> children[c].pos == 0
      {
        children[i].SeekToFirst();
      }
      at := 0;
      FirstSplits();
      FindSmallest();
      forward := true;
    }

    lemma FirstSplits()
      requires Shape()
      ensures forall c :: 0 <= c < |children| ==> Split(children[c].run, 0, view, 0)
    {
      forall c, i | 0 <= c < |children| && 0 <= i < |children[c].run|
        ensures |view| > 0 && !Before(children[c].run[i].key, view[0].key)
      {
        var k := InView(view, Runs(), c, i);
      }
      forall c | 0 <= c < |children| ensures Split(children[c].run, 0, view, 0) {
        if |children[c].run| > 0 {
          var k := InView(view, Runs(), c, 0);
        }
      }
    }

    /** The last child with the greatest key, among those that are valid. */
    method FindLargest(ghost t: nat)
      requires Shape() && t <= |view| && Behind(t) && at == (if t == 0 then |view| else t - 1)
      modifies this`current
      ensures Placed()
    {
      hide Split, IsUnion, Distinct;
      ghost var n := BehindCounts(t);
      var largest: Option<nat> := None;
      var i := |children|;
      while i > 0
        invariant 0 <= i <= |children|
        invariant largest.None? ==> forall c :: i <= c < |children| ==> !children[c].Valid()
        invariant largest.Some? ==> i <= largest.value < |children| && children[largest.value].Valid()
        invariant largest.Some? ==> forall c :: i <= c < |children| && children[c].Valid() ==>
          !Less(children[largest.value].Entry().key, children[c].Entry().key)
      {
        i := i - 1;
        var child := children[i];
        if child.Valid() {
          if largest.None? || Less(children[largest.value].Entry().key, child.Entry().key) {
            largest := Some(i);
          }
        }
      }
      current := largest;
      if largest.Some? {
        GreatestBehind(view, Runs(), n, t, largest.value);
      } else {
        NothingBehind(view, Runs(), n, t);
      }
    }

    /** How many entries of each child lie in front of t. */
    ghost function BehindCounts(t: nat): (n: seq<nat>)
      requires Behind(t)
      reads children
      ensures |n| == |children| && forall c :: 0 <= c < |children| ==>
        Split(children[c].run, n[c], view, t) && children[c].pos == BackOf(children[c].run, n[c]) &&
        n[c] <= |children[c].run|
    {
      seq(|children|, c requires 0 <= c < |children| && BehindAt(children[c], t) reads children =>
        var n: nat :| Split(children[c].run, n, view, t) && children[c].pos == BackOf(children[c].run, n); n)
    }

    method SeekToLast()
      requires Valid()
      modifies this, children
      ensures Valid() && at == if |view| == 0 then 0 else |view| - 1
    {
      hide Split, IsUnion, Distinct, BehindAt, Ahead;
      for i := 0 to |children|
        invariant forall c :: 0 <= c < i ==> children[c].pos == BackOf(children[c].run, |children[c].run|)
      {
        children[i].SeekToLast();
      }
      at := if |view| == 0 then 0 else |view| - 1;
      LastSplits();
      FindLargest(|view|);
      forward := false;
    }

    lemma LastSplits()
      requires Shape()
      ensures forall c :: 0 <= c < |children| && children[c].pos == BackOf(children[c].run, |children[c].run|) ==>
        BehindAt(children[c], |view|)
    {
      forall c | 0 <= c < |children| ensures Split(children[c].run, |children[c].run|, view, |view|) {
      }
    }

    method Seek(target: IKey)
      requires Valid()
      modifies this, children
      ensures Valid() && at == Versions.Seek(view, target)
    {
      hide Split, IsUnion, Distinct, BehindAt;
      SeekChildren(target);
      at := Versions.Seek(view, target);
      FindSmallest();
      forward := true;
    }

    method SeekChildren(target: IKey)
      requires Shape()
      modifies children
      ensures Ahead(Versions.Seek(view, target))
    {
      hide Split, IsUnion, Distinct;
      for i := 0 to |children|
        invariant forall c :: 0 <= c < i ==> Split(children[c].run, children[c].pos, view, Versions.Seek(view, target))
      {
        assert Runs()[i] == children[i].run;
        SeekRunSplits(i, target);
        children[i].Seek(target);
      }
    }

    lemma SeekRunSplits(c: nat, target: IKey)
      requires Shape() && c < |children|
      ensures Split(children[c].run, Versions.Seek(children[c].run, target), view, Versions.Seek(view, target))
    {
      assert Runs()[c] == children[c].run;
      SeekSplits(view, children[c].run, target);
    }

    /** Puts every other child at its first entry after the current one. */
    method TurnForward()
      requires Valid() && IsValid() && !forward
      modifies children
      ensures Shape() && Placed() && Ahead(at)
    {
      hide IsUnion, Distinct, Split, Compare;
      var key := children[current.value].Entry().key;
      CurrentSplits();
      SeekToCurrent();
      var i := 0;
      while i < |children|
        invariant 0 <= i <= |children| && Placed()
        invariant forall c :: 0 <= c < |children| && (c < i || c == current.value) ==>
          Split(children[c].run, children[c].pos, view, at)
      {
        var child := children[i];
        if i != current.value {
          SeekRunSplits(i, key);
          child.Seek(key);
          if child.Valid() && Compare(key, child.Entry().key) == 0 {
            // The program steps past an equal key here; distinct children have none.
            OtherDiffers(i);
            assert false;
          }
        }
        i := i + 1;
      }
    }

    /** The current child stands exactly at the current entry. */
    lemma CurrentSplits()
      requires Shape() && Placed() && current.Some?
      ensures Split(children[current.value].run, children[current.value].pos, view, at)
    {
      var c := current.value;
      assert Runs()[c] == children[c].run;
      OwnRunSteps(view, children[c].run, at, children[c].pos);
    }

    lemma SeekToCurrent()
      requires Shape() && Placed() && current.Some?
      ensures Versions.Seek(view, view[at].key) == at
    {
    }

    lemma OtherDiffers(c: nat)
      requires Shape() && Placed() && current.Some? && c < |children| && c != current.value
      ensures forall e :: e in children[c].run ==> Compare(view[at].key, e.key) != 0
      ensures forall e :: e in children[c].run ==> Before(e.key, view[at].key) || Before(view[at].key, e.key)
    {
      var d := current.value;
      assert Runs()[c] == children[c].run && Runs()[d] == children[d].run;
      assert children[d].Entry() in Runs()[d];
      forall e | e in children[c].run ensures Compare(view[at].key, e.key) != 0 {
        CompareIsLexicographic(view[at].key, e.key);
      }
    }

    method Next()
      requires Valid() && IsValid()
      modifies this, children
      ensures Valid() && at == old(at) + 1
    {
      hide Split, IsUnion, Distinct, BehindAt;
      if !forward {
        TurnForward();
        forward := true;
      }
      StepSplits();
      children[current.value].Next();
      at := at + 1;
      FindSmallest();
    }

    /** Past the current entry the current child has moved one on, and the others need not move. */
    lemma StepSplits()
      requires Shape() && Placed() && current.Some?
      ensures at < |view| && Split(children[current.value].run, children[current.value].pos, view, at)
      ensures Split(children[current.value].run, children[current.value].pos + 1, view, at + 1)
      ensures forall c :: 0 <= c < |children| && c != current.value ==> StaysPut(children[c].run, at)
    {
      hide StaysPut, Split, Distinct;
      var d := current.value;
      assert Runs()[d] == children[d].run;
      OwnRunSteps(view, children[d].run, at, children[d].pos);
      forall c | 0 <= c < |children| && c != d ensures StaysPut(children[c].run, at) {
        OtherStaysPut(c);
      }
    }

    lemma OtherStaysPut(c: nat)
      requires Shape() && Placed() && current.Some? && c < |children| && c != current.value
      ensures StaysPut(children[c].run, at)
    {
      hide Split, Distinct, Sorted;
      assert Runs()[c] == children[c].run;
      OtherDiffers(c);
      forall n: nat ensures Split(children[c].run, n, view, at) <==> Split(children[c].run, n, view, at + 1) {
        OtherRunStays(view, children[c].run, at, n);
      }
    }

    ghost predicate StaysPut(run: seq<Entry>, t: nat) {
      forall n: nat :: Split(run, n, view, t) <==> Split(run, n, view, t + 1)
    }

    /** Puts every other child at its last entry before the current one. */
    method TurnBackward()
      requires Valid() && IsValid() && forward
      modifies children
      ensures Shape() && Placed()
      ensures forall c :: 0 <= c < |children| && c != current.value ==> BehindAt(children[c], at)
    {
      hide IsUnion, Distinct, Split;
      var key := children[current.value].Entry().key;
      SeekToCurrent();
      var i := 0;
      while i < |children|
        invariant 0 <= i <= |children| && Placed()
        invariant forall c :: 0 <= c < i && c != current.value ==> BehindAt(children[c], at)
      {
        var child := children[i];
        if i != current.value {
          SeekRunSplits(i, key);
          child.Seek(key);
          ghost var n := child.pos;
          if child.Valid() {
            child.Prev();
          } else {
            child.SeekToLast();
          }
          EndOfRun(child.run, n, view, at);
          assert Split(child.run, n, view, at) && child.pos == BackOf(child.run, n);
        }
        i := i + 1;
      }
    }

    lemma EndOfRun(run: seq<Entry>, n: nat, view: seq<Entry>, t: nat)
      requires Split(run, n, view, t)
      ensures n <= |run|
    {
    }

    method Prev()
      requires Valid() && IsValid()
      modifies this, children
      ensures Valid() && at == if old(at) == 0 then |view| else old(at) - 1
    {
      hide Split, IsUnion, Distinct, StaysPut;
      if forward {
        TurnBackward();
        forward := false;
      } else {
        OthersAreBehind();
      }
      CurrentSplits();
      ghost var c, n := current.value, children[current.value].pos;
      children[current.value].Prev();
      assert Split(children[c].run, n, view, at) && children[c].pos == BackOf(children[c].run, n);
      ghost var t := at;
      at := if at == 0 then |view| else at - 1;
      FindLargest(t);
    }

    /** Moving backward, the children other than the current one are already in front of the current entry. */
    lemma OthersAreBehind()
      requires Shape() && Placed() && current.Some? && Behind(at + 1)
      ensures forall c :: 0 <= c < |children| && c != current.value ==> BehindAt(children[c], at)
    {
      StepSplits();
      forall c | 0 <= c < |children| && c != current.value ensures BehindAt(children[c], at) {
        assert BehindAt(children[c], at + 1);
        assert StaysPut(children[c].run, at);
      }
    }
  }

  method MakeChildren(runs: seq<seq<Entry>>) returns (children: seq<RunIterator>)
    ensures |children| == |runs| && fresh(children)
    ensures forall c :: 0 <= c < |runs| ==> children[c].run == runs[c] && children[c].pos == |runs[c]|
    ensures forall c, d :: 0 <= c < d < |runs| ==> children[c] != children[d]
  {
    children := [];
    for i := 0 to |runs|
      invariant |children| == i && fresh(children)
      invariant forall c :: 0 <= c < i ==> children[c].run == runs[c] && children[c].pos == |runs[c]|
      invariant forall c, d :: 0 <= c < d < i ==> children[c] != children[d]
    {
      var child := new RunIterator(runs[i]);
      children := children + [child];
    }
  }

  /** Reading a merging iterator from its first entry to its last gives the sorted union of the runs. */
  method MergeRuns(runs: seq<seq<Entry>>) returns (out: seq<Entry>)
    requires (forall c :: 0 <= c < |runs| ==> Sorted(runs[c])) && Distinct(runs)
    ensures out == MergeAll(runs) && IsUnion(out, runs)
  {
    hide IsUnion, Distinct, Sorted, Split, MergeAll, MergingIterator.Valid;
    MergeAllIsUnion(runs);
    var children := MakeChildren(runs);
    assert seq(|children|, c requires 0 <= c < |children| => children[c].run) == runs;
    var it := new MergingIterator(children, MergeAll(runs));
    it.SeekToFirst();
    out := [];
    while it.IsValid()
      invariant it.Valid() && fresh(it) && it.children == children && fresh(children)
      invariant it.view == MergeAll(runs) && out == it.view[..it.at]
      decreases |it.view| - it.at
    {
      var e := it.Current();
      out := out + [e];
      it.Next();
    }
  }
}
