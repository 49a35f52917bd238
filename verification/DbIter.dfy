/** The user iterator of db/db_iter.cc.  Over the sorted union its merging iterator goes through, and under any mix of
  moves, it is a cursor on the keys that are live at its sequence number. */
module DbIter {
  import opened Options
  import opened InternalKeys
  import opened ReadSpec
  import opened Versions
  import Merger

  // ---- the view of a snapshot ----------------------------------------------------------------

  predicate Seen(run: seq<Entry>, s: nat, i: nat)
    requires i < |run|
  {
    run[i].key.sequence <= s
  }

  /** Entry i is the newest one of its key at s, and a value. */
  ghost predicate Shown(run: seq<Entry>, s: nat, i: nat)
    requires i < |run|
  {
    Seen(run, s, i) && run[i].key.kind.Value? &&
    forall j :: 0 <= j < i && run[j].key.user == run[i].key.user ==> !Seen(run, s, j)
  }

  ghost predicate NoneShown(run: seq<Entry>, s: nat, from: int, to: int) {
    forall i :: 0 <= i < |run| && from <= i < to ==> !Shown(run, s, i)
  }

  /** cur is the first shown index at or after from; |run| if there is none. */
  ghost predicate FirstFrom(run: seq<Entry>, s: nat, from: int, cur: nat) {
    cur <= |run| && NoneShown(run, s, from, cur) && (cur < |run| ==> from <= cur && Shown(run, s, cur))
  }

  /** cur is the last shown index before to; |run| if there is none. */
  ghost predicate LastBefore(run: seq<Entry>, s: nat, to: int, cur: nat) {
    cur <= |run| && NoneShown(run, s, if cur == |run| then 0 else cur + 1, to) &&
    (cur < |run| ==> cur < to && Shown(run, s, cur))
  }

  /** The shown entries are exactly the live keys with their newest visible values. */
  lemma ShownIsVisible(run: seq<Entry>, s: nat, u: UserKey, v: string)
    requires Sorted(run)
    ensures Visible(Elements(run), u, s) == Some(v) <==>
      exists i :: 0 <= i < |run| && Shown(run, s, i) && run[i].key.user == u && run[i].value == v
  {
    var all := Elements(run);
    SortedIsIdentified(run);
    if i :| 0 <= i < |run| && Shown(run, s, i) && run[i].key.user == u && run[i].value == v {
      ShownIsNewest(run, s, i);
      LookupIs(all, u, s, run[i]);
    }
    if Visible(all, u, s) == Some(v) {
      var e := Newest(all, u, s);
      LookupIs(all, u, s, e);
      var i :| 0 <= i < |run| && run[i] == e;
      NewestIsShown(run, s, i);
    }
  }

  lemma ShownIsNewest(run: seq<Entry>, s: nat, i: nat)
    requires Sorted(run) && i < |run| && Shown(run, s, i)
    ensures IsNewest(Elements(run), run[i].key.user, s, run[i])
  {
    forall x | x in Elements(run) && AtOrBelow(x, run[i].key.user, s) ensures x.key.sequence <= run[i].key.sequence {
      var j :| 0 <= j < |run| && run[j] == x;
    }
  }

  lemma NewestIsShown(run: seq<Entry>, s: nat, i: nat)
    requires Sorted(run) && i < |run| && IsNewest(Elements(run), run[i].key.user, s, run[i]) && run[i].key.kind.Value?
    ensures Shown(run, s, i)
  {
    forall j | 0 <= j < i && run[j].key.user == run[i].key.user ensures !Seen(run, s, j) {
      assert run[j] in Elements(run);
    }
  }

  /** Each live key is shown once. */
  lemma ShownOnce(run: seq<Entry>, s: nat, i: nat, j: nat)
    requires i < j < |run| && Shown(run, s, i) && Shown(run, s, j)
    ensures run[i].key.user != run[j].key.user
  {
  }

  lemma UsersAscend(run: seq<Entry>)
    requires Sorted(run)
    ensures forall i, j :: 0 <= i <= j < |run| ==> run[i].key.user <= run[j].key.user
  {
  }

  // ---- one step of each scan -------------------------------------------------------------------

  /** The forward scan has settled everything before q: what is still hidden ahead is hidden by skip. */
  ghost predicate Settled(run: seq<Entry>, s: nat, q: nat, skipping: bool, skip: UserKey) {
    q <= |run| &&
    forall j, i :: 0 <= j < q <= i < |run| && run[j].key.user == run[i].key.user && Seen(run, s, j) ==>
      skipping && run[i].key.user <= skip
  }

  /** From position w on, the skip key hides nothing that is to be shown; everything before w that is still
      ahead of q is skipped. */
  ghost predicate Unwanted(run: seq<Entry>, s: nat, q: nat, w: nat, skipping: bool, skip: UserKey) {
    (forall i :: q <= i < w && i < |run| ==> skipping && run[i].key.user <= skip) &&
    (skipping ==> forall i :: q <= i < |run| && w <= i && run[i].key.user <= skip ==> !Shown(run, s, i))
  }

  lemma ForwardStep(run: seq<Entry>, s: nat, q: nat, w: nat, skipping: bool, skip: UserKey)
    requires Sorted(run) && q < |run| && Settled(run, s, q, skipping, skip) && Unwanted(run, s, q, w, skipping, skip)
    ensures !Seen(run, s, q) ==>
      !Shown(run, s, q) && Settled(run, s, q + 1, skipping, skip) && Unwanted(run, s, q + 1, w, skipping, skip)
    ensures Seen(run, s, q) && run[q].key.kind.Deletion? && (skipping ==> skip <= run[q].key.user) ==>
      !Shown(run, s, q) && Settled(run, s, q + 1, true, run[q].key.user) &&
      Unwanted(run, s, q + 1, w, true, run[q].key.user)
    ensures Seen(run, s, q) && run[q].key.kind.Value? && skipping && run[q].key.user <= skip ==>
      (w <= q ==> !Shown(run, s, q)) && Settled(run, s, q + 1, skipping, skip) &&
      Unwanted(run, s, q + 1, w, skipping, skip)
    ensures Seen(run, s, q) && run[q].key.kind.Value? && !(skipping && run[q].key.user <= skip) ==>
      Shown(run, s, q) && w <= q
  {
    UsersAscend(run);
  }

  class DBIter {
    const iter: Merger.MergingIterator
    const sequence: SequenceNumber
    var valid: bool
    var forward: bool
    var savedKey: UserKey
    var savedValue: string
    /** The index of the entry shown; |run| when not valid. */
    ghost var cur: nat

    constructor (iter: Merger.MergingIterator, sequence: SequenceNumber)
      requires iter.Valid()
      ensures this.iter == iter && this.sequence == sequence && Valid() && !valid
    {
      this.iter, this.sequence := iter, sequence;
      valid, forward, savedKey, savedValue := false, true, 0, "";
      cur := |iter.view|;
    }

    /** Where the child stands, counting "not valid" as one place before the start. */
    ghost function Behind(): int
      reads iter
    {
      if iter.IsValid() then iter.at else -1
    }

    ghost predicate Valid()
      reads this, iter, iter.children
    {
      iter.Valid() && cur <= |iter.view| && (valid <==> cur < |iter.view|) &&
      (valid ==> Shown(iter.view, sequence, cur)) &&
      (valid && forward ==> iter.at == cur) &&
      (valid && !forward ==>
       savedKey == iter.view[cur].key.user && savedValue == iter.view[cur].value && Behind() < cur) &&
      (valid && !forward ==> forall i :: Behind() < i < cur ==> !Seen(iter.view, sequence, i)) &&
      (valid && !forward && iter.IsValid() ==>
       Seen(iter.view, sequence, iter.at) && iter.view[iter.at].key.user < savedKey)
    }

    method Key() returns (u: UserKey)
      requires Valid() && valid
      ensures u == iter.view[cur].key.user
    {
      if forward {
        var e := iter.Current();
        u := e.key.user;
      } else {
        u := savedKey;
      }
    }

    method Value() returns (v: string)
      requires Valid() && valid
      ensures v == iter.view[cur].value
    {
      if forward {
        var e := iter.Current();
        v := e.value;
      } else {
        v := savedValue;
      }
    }

    /** Scans forward to the next entry to show, skipping past saved_key_ if asked to.
        A cleared saved_key_ is 0 here; it is not looked at again. */
    method FindNextUserEntry(skipping0: bool, ghost w: nat)
      requires iter.Valid() && iter.IsValid() && forward
      requires Settled(iter.view, sequence, iter.at, skipping0, savedKey) &&
        Unwanted(iter.view, sequence, iter.at, w, skipping0, savedKey)
      requires skipping0 ==>
        forall i :: iter.at <= i < |iter.view| && Seen(iter.view, sequence, i) ==> savedKey <= iter.view[i].key.user
      modifies this`valid, this`cur, this`savedKey, iter, iter.children
      ensures Valid() && FirstFrom(iter.view, sequence, if w < old(iter.at) then old(iter.at) else w, cur)
    {
      hide Shown, Settled, Unwanted, Sorted, Merger.MergingIterator.Valid;
      ghost var run, s := iter.view, sequence;
      ghost var start := if w < iter.at then iter.at else w;
      var skipping := skipping0;
      while iter.IsValid()
        invariant iter.Valid() && old(iter.at) <= iter.at
        invariant Settled(run, s, iter.at, skipping, savedKey) && Unwanted(run, s, iter.at, w, skipping, savedKey)
        invariant skipping ==> forall i :: iter.at <= i < |run| && Seen(run, s, i) ==> savedKey <= run[i].key.user
        invariant NoneShown(run, s, start, iter.at)
        decreases |run| - iter.at
      {
        var e := iter.Current();
        ForwardStep(run, s, iter.at, w, skipping, savedKey);
        if e.key.sequence <= sequence {
          match e.key.kind
          case Deletion =>
            savedKey, skipping := e.key.user, true;
            UsersFrom(run, iter.at);
          case Value =>
            if skipping && e.key.user <= savedKey {
            } else {
              valid, cur, savedKey := true, iter.at, 0;
              return;
            }
        }
        iter.Next();
      }
      valid, cur, savedKey := false, |run|, 0;
    }

    /** Scans backward, keeping the newest visible entry of each key met, until an entry of an earlier key shows
        that the kept one is complete. */
    method FindPrevUserEntry()
      requires iter.Valid() && !forward
      modifies this`valid, this`cur, this`savedKey, this`savedValue, this`forward, iter, iter.children
      ensures Valid() && LastBefore(iter.view, sequence, old(Behind()) + 1, cur)
    {
      hide Shown, Sorted, Merger.MergingIterator.Valid;
      ghost var run, s := iter.view, sequence;
      ghost var start := Behind();
      var kind := Deletion;
      ghost var m := |run|;
      while iter.IsValid()
        invariant -1 <= Behind() <= start < |run| && !forward
        invariant kind.Value? ==> Behind() < m <= start && savedKey == run[m].key.user && savedValue == run[m].value
        invariant kind.Value? ==> Kept(run, s, Behind(), m)
        invariant NoneShown(run, s, if kind.Value? then m + 1 else Behind() + 1, start + 1)
        invariant iter.Valid()
        decreases Behind() + 1
      {
        var e := iter.Current();
        ghost var q := iter.at;
        if kind.Value? {
          BackwardKept(run, s, q, m);
        }
        if e.key.sequence <= sequence {
          if kind.Value? && e.key.user < savedKey {
            break;
          }
          kind := e.key.kind;
          if kind.Deletion? {
            DeletionIsNotShown(run, s, q);
            savedKey, savedValue := 0, "";
          } else {
            savedKey, savedValue := e.key.user, e.value;
            m := q;
            KeptFresh(run, s, q);
          }
        } else {
          UnseenIsNotShown(run, s, q);
        }
        iter.Prev();
      }
      if kind.Deletion? {
        valid, cur, savedKey, savedValue, forward := false, |run|, 0, "", true;
      } else {
        KeptIsShown(run, s, Behind(), m);
        valid, cur := true, m;
      }
    }

    /** Seek: the first live key at or after target. */
    method Seek(target: UserKey)
      requires Valid()
      modifies this, iter, iter.children
      ensures Valid() && cur <= |iter.view|
      ensures NoneShownIn(target, cur) && (cur < |iter.view| ==> target <= iter.view[cur].key.user)
    {
      hide Shown, Sorted, Seen, Merger.MergingIterator.Valid;
      forward, savedValue, savedKey := true, "", 0;
      iter.Seek(SeekKey(target, sequence));
      SeekSettles(iter.view, sequence, target);
      ghost var from := iter.at;
      if iter.IsValid() {
        FindNextUserEntry(false, from);
        FoundFrom(iter.view, sequence, from, cur, target);
      } else {
        valid, cur := false, |iter.view|;
        FoundFrom(iter.view, sequence, from, cur, target);
      }
    }

    /** No live key from target on comes before position cur. */
    ghost predicate NoneShownIn(target: UserKey, to: nat) {
      forall i :: 0 <= i < |iter.view| && i < to && target <= iter.view[i].key.user ==> !Shown(iter.view, sequence, i)
    }

    method SeekToFirst()
      requires Valid()
      modifies this, iter, iter.children
      ensures Valid() && FirstFrom(iter.view, sequence, 0, cur)
    {
      hide Shown, Sorted, Merger.MergingIterator.Valid;
      forward, savedValue := true, "";
      iter.SeekToFirst();
      StartSettles(iter.view, sequence, savedKey);
      if iter.IsValid() {
        FindNextUserEntry(false, 0);
      } else {
        valid, cur := false, |iter.view|;
      }
    }

    method SeekToLast()
      requires Valid()
      modifies this, iter, iter.children
      ensures Valid() && LastBefore(iter.view, sequence, |iter.view|, cur)
    {
      forward, savedValue := false, "";
      iter.SeekToLast();
      FindPrevUserEntry();
    }

    /** Next: the next live key, also right after a turn from moving backward. */
    method Next()
      requires Valid() && valid
      modifies this, iter, iter.children
      ensures Valid() && FirstFrom(iter.view, sequence, old(cur) + 1, cur)
    {
      hide Shown, Sorted, Merger.MergingIterator.Valid;
      ghost var was, run := cur, iter.view;
      if !forward {
        forward := true;
        if !iter.IsValid() {
          iter.SeekToFirst();
        } else {
          iter.Next();
        }
        if !iter.IsValid() {
          // The program would give up here, but the entry shown is still ahead.
          assert false;
        }
      } else {
        var e := iter.Current();
        savedKey := e.key.user;
        iter.Next();
        if !iter.IsValid() {
          valid, savedKey, cur := false, 0, |iter.view|;
          return;
        }
      }
      ghost var from := iter.at;
      NextSettles(run, sequence, from, was);
      FindNextUserEntry(true, was + 1);
    }

    /** Prev: the previous live key, also right after a turn from moving forward. */
    method Prev()
      requires Valid() && valid
      modifies this, iter, iter.children
      ensures Valid() && LastBefore(iter.view, sequence, old(cur), cur)
    {
      hide Shown, Sorted, Merger.MergingIterator.Valid;
      ghost var was, run := cur, iter.view;
      if forward {
        var e := iter.Current();
        savedKey := e.key.user;
        while true
          invariant iter.Valid() && iter.IsValid() && iter.at <= was && valid && forward && cur == was
          invariant forall i :: iter.at <= i <= was ==> savedKey <= run[i].key.user
          invariant savedKey == run[was].key.user
          decreases iter.at
        {
          iter.Prev();
          if !iter.IsValid() {
            SameKeyIsHidden(run, sequence, -1, was);
            valid, savedKey, savedValue, cur := false, 0, "", |run|;
            return;
          }
          var e' := iter.Current();
          if e'.key.user < savedKey {
            break;
          }
        }
        forward := false;
      }
      ghost var behind := Behind();
      SameKeyIsHidden(run, sequence, behind, was);
      FindPrevUserEntry();
      ReachesBack(run, sequence, behind + 1, was, cur);
    }
  }

  // ---- what the moves rest on ------------------------------------------------------------------

  lemma SeekSettles(run: seq<Entry>, s: SequenceNumber, target: UserKey)
    requires Sorted(run)
    ensures var p := Versions.Seek(run, SeekKey(target, s));
      Settled(run, s, p, false, 0) && Unwanted(run, s, p, p, false, 0) &&
      (forall i :: 0 <= i < p ==> run[i].key.user < target || (run[i].key.user == target && !Seen(run, s, i))) &&
      (forall i :: p <= i < |run| ==> target <= run[i].key.user)
  {
    UsersAscend(run);
  }

  lemma FoundFrom(run: seq<Entry>, s: nat, from: nat, cur: nat, target: UserKey)
    requires FirstFrom(run, s, from, cur)
    requires forall i :: 0 <= i < from && i < |run| ==>
      run[i].key.user < target || (run[i].key.user == target && !Seen(run, s, i))
    requires forall i :: from <= i < |run| ==> target <= run[i].key.user
    ensures forall i :: 0 <= i < |run| && i < cur && target <= run[i].key.user ==> !Shown(run, s, i)
    ensures cur < |run| ==> target <= run[cur].key.user
  {
  }

  lemma StartSettles(run: seq<Entry>, s: nat, skip: UserKey)
    ensures Settled(run, s, 0, false, skip) && Unwanted(run, s, 0, 0, false, skip)
  {
  }

  /** From wherever the child stands, skipping the current key leaves the scan settled. */
  lemma NextSettles(run: seq<Entry>, s: nat, from: nat, was: nat)
    requires Sorted(run) && was < |run| && Shown(run, s, was) && from <= was + 1 && from <= |run|
    requires forall i :: from <= i < was ==> !Seen(run, s, i)
    requires from > 0 && from <= was ==> run[from - 1].key.user < run[was].key.user && Seen(run, s, from - 1)
    ensures Settled(run, s, from, true, run[was].key.user) && Unwanted(run, s, from, was + 1, true, run[was].key.user)
    ensures forall i :: from <= i < |run| && Seen(run, s, i) ==> run[was].key.user <= run[i].key.user
  {
    UsersAscend(run);
  }

  lemma SameKeyIsHidden(run: seq<Entry>, s: nat, behind: int, was: nat)
    requires Sorted(run) && was < |run| && Shown(run, s, was) && -1 <= behind < was
    requires (forall i :: behind < i <= was ==> run[was].key.user <= run[i].key.user) ||
      (forall i :: behind < i < was ==> !Seen(run, s, i))
    ensures NoneShown(run, s, behind + 1, was)
  {
    UsersAscend(run);
  }

  lemma ReachesBack(run: seq<Entry>, s: nat, to: int, was: nat, cur: nat)
    requires LastBefore(run, s, to, cur) && NoneShown(run, s, to, was) && 0 <= to <= was
    ensures LastBefore(run, s, was, cur)
  {
  }

  /** m is a visible value, and nothing visible lies between q and m. */
  ghost predicate Kept(run: seq<Entry>, s: nat, q: int, m: nat) {
    q < m < |run| && Seen(run, s, m) && run[m].key.kind.Value? && forall i :: 0 <= i && q < i < m ==> !Seen(run, s, i)
  }

  lemma KeptFresh(run: seq<Entry>, s: nat, q: nat)
    requires q < |run| && Seen(run, s, q) && run[q].key.kind.Value?
    ensures Kept(run, s, q as int - 1, q)
  {
  }

  /** Meeting another visible entry of the same key proves the kept one hidden; meeting an invisible one changes
    nothing. */
  lemma BackwardKept(run: seq<Entry>, s: nat, q: nat, m: nat)
    requires Sorted(run) && Kept(run, s, q, m)
    ensures Seen(run, s, q) && run[m].key.user <= run[q].key.user ==> !Shown(run, s, m)
    ensures !Seen(run, s, q) ==> Kept(run, s, q as int - 1, m)
    ensures forall i :: q < i < m ==> !Shown(run, s, i)
  {
    UsersAscend(run);
  }

  lemma DeletionIsNotShown(run: seq<Entry>, s: nat, q: nat)
    requires q < |run| && run[q].key.kind.Deletion?
    ensures !Shown(run, s, q)
  {
  }

  lemma UnseenIsNotShown(run: seq<Entry>, s: nat, q: nat)
    requires q < |run| && !Seen(run, s, q)
    ensures !Shown(run, s, q)
  {
  }

  /** With nothing before it, or an earlier key just before it, the kept entry is the newest of its key. */
  lemma KeptIsShown(run: seq<Entry>, s: nat, q: int, m: nat)
    requires Sorted(run) && Kept(run, s, q, m) && q >= -1
    requires q >= 0 ==> run[q].key.user < run[m].key.user
    ensures Shown(run, s, m)
  {
    UsersAscend(run);
  }

  lemma UsersFrom(run: seq<Entry>, q: nat)
    requires Sorted(run) && q < |run|
    ensures forall i :: q <= i < |run| ==> run[q].key.user <= run[i].key.user
  {
  }
}
