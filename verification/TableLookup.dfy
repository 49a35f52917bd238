/** Looking a key up in a table file: table/table.cc. */
module TableLookup {
  import opened Options
  import opened Coding
  import opened Comparator
  import opened Block
  import opened Tables
  import FilterBlock
  import Bloom

  // ---- the specification: a linear scan -----------------------------------------------------

  /** The first pair at or after k. */
  function Scan(entries: seq<Pair>, k: Bytes): Option<Pair> {
    if |entries| == 0 then None
    else if !InternalLess(entries[0].key, k) then Some(entries[0])
    else Scan(entries[1..], k)
  }

  /** What SaveValue makes of the pair it is handed: only a pair of the right user key counts. */
  function AnswerFor(found: Option<Pair>, user: Bytes): Option<Pair> {
    if found.Some? && |found.value.key| >= 8 && UserPart(found.value.key) == user then found else None
  }

  ghost predicate Splits(pairs: seq<Pair>, k: Bytes, f: nat) {
    f <= |pairs| && forall i :: 0 <= i < |pairs| ==> (InternalLess(pairs[i].key, k) <==> i < f)
  }

  lemma {:induction false} ScanSplits(entries: seq<Pair>, k: Bytes, f: nat)
    requires Splits(entries, k, f)
    ensures Scan(entries, k) == if f < |entries| then Some(entries[f]) else None
  {
    hide InternalLess;
    if |entries| > 0 {
      if f > 0 {
        ScanSplits(entries[1..], k, f - 1);
      } else {
        assert !InternalLess(entries[0].key, k);
      }
    }
  }

  /** The first pair at or after k is the newest one of its user key that k can see, if there is any. */
  lemma ScanFindsNewest(entries: seq<Pair>, user: Bytes, trailer: nat)
    requires Ascending(entries) && trailer < WORD64
    ensures var k := InternalKey(user, trailer);
      match AnswerFor(Scan(entries, k), user)
      case Some(p) => p in entries && |p.key| >= 8 && UserPart(p.key) == user && Trailer(p.key) <= trailer &&
        (forall q :: q in entries && |q.key| >= 8 && UserPart(q.key) == user && Trailer(q.key) <= trailer ==>
         Trailer(q.key) <= Trailer(p.key))
      case None => forall q :: q in entries && |q.key| >= 8 && UserPart(q.key) == user ==> Trailer(q.key) > trailer
  {
    hide Less;
    var k := InternalKey(user, trailer);
    InternalKeyParts(user, trailer);
    var f := SplitAscending(entries, k);
    ScanSplits(entries, k, f);
    Irreflexive(user);
    forall q | q in entries && |q.key| >= 8 && UserPart(q.key) == user && Trailer(q.key) <= trailer
      ensures f < |entries| && |entries[f].key| >= 8 && UserPart(entries[f].key) == user &&
        Trailer(q.key) <= Trailer(entries[f].key) <= trailer
    {
      var i :| 0 <= i < |entries| && entries[i] == q;
      assert !InternalLess(entries[i].key, k);
      assert entries[f] in entries && !InternalLess(entries[f].key, k);
      LessIsTotal(UserPart(entries[f].key), user);
      assert i == f || InternalLess(entries[f].key, entries[i].key);
    }
  }

  /** Ascending keys are split by any key. */
  lemma SplitAscending(entries: seq<Pair>, k: Bytes) returns (f: nat)
    requires Ascending(entries) && |k| >= 8
    ensures Splits(entries, k, f)
  {
    hide InternalLess;
    f := 0;
    while f < |entries| && InternalLess(entries[f].key, k)
      invariant f <= |entries| && forall i :: 0 <= i < f ==> InternalLess(entries[i].key, k)
    {
      f := f + 1;
    }
    forall i | f <= i < |entries| ensures !InternalLess(entries[i].key, k) {
      assert entries[i] in entries && entries[f] in entries;
      if i > f && InternalLess(entries[i].key, k) {
        InternalLessIsTransitive(entries[f].key, entries[i].key, k);
      }
    }
  }

  // ---- the index agrees with the scan -----------------------------------------------------------

  /** A complete index over the blocks. */
  ghost predicate Complete(v: View) {
    Good(v, false) && v.data == []
  }

  lemma EntryOf(v: View, i: nat)
    requires Complete(v) && i < |v.blocks|
    ensures |v.index| == |v.blocks| && IndexEntry(v.blocks, [], i, v.index[i]) && |v.blocks[i].plan.pairs| > 0
    ensures Entries(v) == Joined(v.blocks)
  {
  }

  /** Everything in a block is at or below its last key. */
  lemma LastIsGreatest(v: View, i: nat, p: Pair)
    requires Complete(v) && i < |v.blocks| && p in v.blocks[i].plan.pairs && |v.blocks[i].plan.pairs| > 0
    ensures |p.key| >= 8 && |LastKey(v.blocks[i])| >= 8 &&
      (p.key == LastKey(v.blocks[i]) || InternalLess(p.key, LastKey(v.blocks[i])))
  {
    hide InternalLess, IndexEntry;
    BlockAscends(v, i);
    var pairs := v.blocks[i].plan.pairs;
    var j :| 0 <= j < |pairs| && pairs[j] == p;
    assert pairs[|pairs| - 1] in pairs;
  }

  lemma {:induction false} JoinedHas(blocks: seq<Stored>, i: nat) returns (at: nat)
    requires i < |blocks|
    ensures at + |blocks[i].plan.pairs| <= |Joined(blocks)| &&
      Joined(blocks)[at..at + |blocks[i].plan.pairs|] == blocks[i].plan.pairs
  {
    var n := |blocks| - 1;
    if i == n {
      at := |Joined(blocks[..n])|;
    } else {
      at := JoinedHas(blocks[..n], i);
      assert Joined(blocks) == Joined(blocks[..n]) + blocks[n].plan.pairs;
      assert Joined(blocks)[at..at + |blocks[i].plan.pairs|] == Joined(blocks[..n])[at..at + |blocks[i].plan.pairs|];
      assert blocks[..n][i] == blocks[i];
    }
  }

  lemma BlockAscends(v: View, i: nat)
    requires Complete(v) && i < |v.blocks|
    ensures Ascending(v.blocks[i].plan.pairs)
  {
    hide InternalLess, IndexEntry;
    var at := JoinedHas(v.blocks, i);
    var all, pairs := Joined(v.blocks), v.blocks[i].plan.pairs;
    assert all == Entries(v);
    assert forall j :: 0 <= j < |pairs| ==> pairs[j] == all[at..at + |pairs|][j] == all[at + j];
    forall p | p in pairs ensures |p.key| >= 8 {
      var j :| 0 <= j < |pairs| && pairs[j] == p;
      assert all[at + j] in all;
    }
  }

  /** Blocks whose separator lies before k hold nothing at or after k. */
  lemma EarlierBlock(v: View, i: nat, k: Bytes, p: Pair)
    requires Complete(v) && i < |v.blocks| && |v.index| == |v.blocks| && |k| >= 8
    requires InternalLess(v.index[i].key, k) && p in v.blocks[i].plan.pairs
    ensures InternalLess(p.key, k)
  {
    hide InternalLess, Less, Good, Complete;
    EntryOf(v, i);
    var sep, last := v.index[i].key, LastKey(v.blocks[i]);
    LastIsGreatest(v, i, p);
    SeparatesIsAbove(last, sep);
    InternalLessIsTotal(last, sep);
    if last != sep {
      InternalLessIsTransitive(last, sep, k);
    }
    if p.key != last {
      InternalLessIsTransitive(p.key, last, k);
    }
  }

  /** Seeking k in the index splits it. */
  lemma IndexSplits(v: View, k: Bytes) returns (f: nat)
    requires Complete(v) && |k| >= 8
    ensures Splits(v.index, k, f) && |v.index| == |v.blocks|
  {
    hide InternalLess, Less, Good, Complete;
    if |v.blocks| > 0 {
      EntryOf(v, 0);
    } else {
      EmptyIndex(v);
    }
    f := 0;
    while f < |v.index| && InternalLess(v.index[f].key, k)
      invariant f <= |v.index| && forall i :: 0 <= i < f ==> InternalLess(v.index[i].key, k)
    {
      f := f + 1;
    }
    forall i | f < i < |v.index| ensures !InternalLess(v.index[i].key, k) {
      if InternalLess(v.index[i].key, k) {
        SeparatorsAscend(v, f, i, k);
      }
    }
  }

  lemma EmptyIndex(v: View)
    requires Complete(v) && |v.blocks| == 0
    ensures |v.index| == 0
  {
  }

  lemma SeparatorsAscend(v: View, i: nat, j: nat, k: Bytes)
    requires Complete(v) && i < j < |v.blocks| == |v.index| && |k| >= 8 && InternalLess(v.index[j].key, k)
    ensures InternalLess(v.index[i].key, k)
  {
    hide InternalLess, Less, Good, Complete;
    EntryOf(v, i);
    EntryOf(v, j);
    var p := v.blocks[j].plan.pairs[0];
    EarlierBlock(v, j, k, p);
    assert Below(v.index[i].key, LastKey(v.blocks[i]), p.key);
    InternalLessIsTransitive(v.index[i].key, p.key, k);
  }

  /** If nothing in block f is at or after k, a later pair of the same user key cannot be either. */
  lemma LaterDiffers(v: View, f: nat, k: Bytes, j: nat, p: Pair)
    requires Complete(v) && f < j < |v.blocks| && |v.index| == |v.blocks| && |k| >= 8 && Trailer(k) <= MAX_TRAILER
    requires !InternalLess(v.index[f].key, k) && InternalLess(LastKeyOf(v, f), k)
    requires p in v.blocks[j].plan.pairs
    ensures |p.key| >= 8 && UserPart(p.key) != UserPart(k)
  {
    hide Less, Good, Complete;
    EntryOf(v, f);
    var sep, last := v.index[f].key, LastKey(v.blocks[f]);
    assert Below(sep, last, p.key);
    assert sep != last;
    LessIsTotal(UserPart(sep), UserPart(k));
    if Less(UserPart(k), UserPart(sep)) {
      LessIsTransitive(UserPart(k), UserPart(sep), UserPart(p.key));
    }
    Irreflexive(UserPart(k));
  }

  function LastKeyOf(v: View, i: nat): Bytes
    requires i < |v.blocks|
  {
    if |v.blocks[i].plan.pairs| > 0 then LastKey(v.blocks[i]) else []
  }

  /** Nothing the scan can stop at has the user key of k. */
  lemma ScanAnswersNone(entries: seq<Pair>, k: Bytes, user: Bytes)
    requires forall p :: p in entries && !InternalLess(p.key, k) && |p.key| >= 8 ==> UserPart(p.key) != user
    ensures AnswerFor(Scan(entries, k), user) == None
  {
    hide InternalLess;
    if |entries| > 0 && InternalLess(entries[0].key, k) {
      ScanAnswersNone(entries[1..], k, user);
    }
  }

  /** Case 1: every separator lies before k, and so does every pair. */
  lemma BehindAll(v: View, k: Bytes)
    requires Complete(v) && |k| >= 8 && Splits(v.index, k, |v.index|) && |v.index| == |v.blocks|
    ensures AnswerFor(Scan(Joined(v.blocks), k), UserPart(k)) == None
  {
    hide InternalLess, Complete;
    JoinedMembers(v.blocks);
    forall p | p in Joined(v.blocks) ensures InternalLess(p.key, k) {
      var i :| 0 <= i < |v.blocks| && p in v.blocks[i].plan.pairs;
      EarlierBlock(v, i, k, p);
    }
    ScanAnswersNone(Joined(v.blocks), k, UserPart(k));
  }

  /** Case 2: block f has a pair at or after k; the scan stops at the same one. */
  lemma InBlock(v: View, k: Bytes, f: nat, g: nat)
    requires Complete(v) && |k| >= 8 && f < |v.blocks| == |v.index| && Splits(v.index, k, f)
    requires g < |v.blocks[f].plan.pairs| && Splits(v.blocks[f].plan.pairs, k, g)
    ensures Scan(Joined(v.blocks), k) == Some(v.blocks[f].plan.pairs[g])
  {
    hide InternalLess, Complete;
    var e, all := v.blocks[f].plan.pairs[g], Joined(v.blocks);
    JoinedMembers(v.blocks);
    assert e in all;
    AllAscend(v);
    var s := SplitAscending(all, k);
    ScanSplits(all, k, s);
    var t :| 0 <= t < |all| && all[t] == e;
    assert !InternalLess(e.key, k);
    var x := all[s];
    assert x in all && !InternalLess(x.key, k);
    var i :| 0 <= i < |v.blocks| && x in v.blocks[i].plan.pairs;
    if i < f {
      EarlierBlock(v, i, k, x);
    }
    if s < t {
      FirstInBlock(v, k, f, g, i, x);
    }
  }

  lemma AllAscend(v: View)
    requires Complete(v)
    ensures Ascending(Joined(v.blocks))
  {
    assert Entries(v) == Joined(v.blocks);
  }

  /** A pair at or after k in block f or later is not before the first such pair of block f. */
  lemma FirstInBlock(v: View, k: Bytes, f: nat, g: nat, i: nat, x: Pair)
    requires Complete(v) && |k| >= 8 && f <= i < |v.blocks| && x in v.blocks[i].plan.pairs && !InternalLess(x.key, k)
    requires g < |v.blocks[f].plan.pairs| && Splits(v.blocks[f].plan.pairs, k, g)
    ensures x == v.blocks[f].plan.pairs[g] ||
      (|x.key| >= 8 && |v.blocks[f].plan.pairs[g].key| >= 8 && !InternalLess(x.key, v.blocks[f].plan.pairs[g].key))
  {
    hide InternalLess, Complete;
    var e := v.blocks[f].plan.pairs[g];
    if i == f {
      BlockAscends(v, f);
      var pairs := v.blocks[f].plan.pairs;
      var j :| 0 <= j < |pairs| && pairs[j] == x;
      assert x in pairs && e in pairs;
      if j > g {
        InternalLessIsTotal(x.key, e.key);
      }
    } else {
      LaterIsGreater(v, f, i, e, x);
      InternalLessIsTotal(x.key, e.key);
    }
  }

  lemma LaterIsGreater(v: View, f: nat, i: nat, e: Pair, x: Pair)
    requires Complete(v) && f < i < |v.blocks| && e in v.blocks[f].plan.pairs && x in v.blocks[i].plan.pairs
    ensures |e.key| >= 8 && |x.key| >= 8 && InternalLess(e.key, x.key)
  {
    hide InternalLess, Less, Complete;
    EntryOf(v, f);
    EntryOf(v, i);
    var sep, last := v.index[f].key, LastKey(v.blocks[f]);
    LastIsGreatest(v, f, e);
    assert Below(sep, last, x.key);
    SeparatesIsAbove(last, sep);
    InternalLessIsTotal(last, sep);
    if last != sep {
      InternalLessIsTransitive(last, sep, x.key);
    }
    if e.key != last {
      InternalLessIsTransitive(e.key, last, x.key);
    }
  }

  /** Case 3: block f has no pair of this user key at or after k; then no block has. */
  lemma NotInBlock(v: View, k: Bytes, f: nat)
    requires Complete(v) && |k| >= 8 && Trailer(k) <= MAX_TRAILER && f < |v.blocks| == |v.index| &&
      Splits(v.index, k, f)
    requires forall p :: p in v.blocks[f].plan.pairs && |p.key| >= 8 && !InternalLess(p.key, k) ==>
      UserPart(p.key) != UserPart(k)
    ensures AnswerFor(Scan(Joined(v.blocks), k), UserPart(k)) == None
  {
    hide InternalLess, Complete, Less, IndexEntry, Good, Joined, Scan, AnswerFor, UserPart, Trailer;
    JoinedMembers(v.blocks);
    forall p | p in Joined(v.blocks) && !InternalLess(p.key, k) && |p.key| >= 8 ensures UserPart(p.key) != UserPart(k) {
      var i :| 0 <= i < |v.blocks| && p in v.blocks[i].plan.pairs;
      NotInAnyBlock(v, k, f, i, p);
    }
    ScanAnswersNone(Joined(v.blocks), k, UserPart(k));
  }

  lemma NotInAnyBlock(v: View, k: Bytes, f: nat, i: nat, p: Pair)
    requires Complete(v) && |k| >= 8 && Trailer(k) <= MAX_TRAILER && f < |v.blocks| == |v.index| &&
      Splits(v.index, k, f)
    requires forall q :: q in v.blocks[f].plan.pairs && |q.key| >= 8 && !InternalLess(q.key, k) ==>
      UserPart(q.key) != UserPart(k)
    requires i < |v.blocks| && p in v.blocks[i].plan.pairs && !InternalLess(p.key, k) && |p.key| >= 8
    ensures UserPart(p.key) != UserPart(k)
  {
    hide InternalLess, Complete, Less, IndexEntry, Good, Joined, UserPart, Trailer;
    EntryOf(v, f);
    if i < f {
      assert InternalLess(v.index[i].key, k);
      EarlierBlock(v, i, k, p);
    } else if i > f {
      assert !InternalLess(v.index[f].key, k);
      LaterBlock(v, k, f, i, p);
    }
  }

  lemma LaterBlock(v: View, k: Bytes, f: nat, i: nat, p: Pair)
    requires Complete(v) && |k| >= 8 && Trailer(k) <= MAX_TRAILER && f < i < |v.blocks| == |v.index| &&
      !InternalLess(v.index[f].key, k)
    requires p in v.blocks[i].plan.pairs && |v.blocks[f].plan.pairs| > 0
    requires forall q :: q in v.blocks[f].plan.pairs && |q.key| >= 8 && !InternalLess(q.key, k) ==>
      UserPart(q.key) != UserPart(k)
    ensures |p.key| >= 8 && UserPart(p.key) != UserPart(k)
  {
    hide Less, Complete;
    var pairs := v.blocks[f].plan.pairs;
    var last := pairs[|pairs| - 1];
    assert last in pairs;
    LaterIsGreater(v, f, i, last, p);
    if InternalLess(last.key, k) {
      LaterDiffers(v, f, k, i, p);
    } else {
      LessIsTotal(UserPart(last.key), UserPart(k));
      if Less(UserPart(last.key), UserPart(p.key)) {
        LessIsTransitive(UserPart(k), UserPart(last.key), UserPart(p.key));
      }
      Irreflexive(UserPart(k));
    }
  }

  // ---- reading a table file ---------------------------------------------------------------------------

  /** The file reaches to the end of the block and its trailer, which says that the block is not compressed. */
  predicate Stands(file: Bytes, h: Handle) {
    h.offset + h.size + TRAILER <= |file| && file[h.offset + h.size] == 0
  }

  /** A footer with the magic number, and an index block where it points. */
  ghost predicate HasIndex(file: Bytes) {
    FOOTER <= |file| &&
    match DecodeFooter(file[|file| - FOOTER..])
    case None => false
    case Some((_, index)) => Stands(file, index) && index.size < WORD32
  }

  /** ReadBlock for an uncompressed block. */
  method ReadBlock(file: Bytes, h: Handle) returns (r: Option<Bytes>)
    ensures r == if Stands(file, h) then Some(file[h.offset..h.offset + h.size]) else None
  {
    if h.offset + h.size + TRAILER > |file| || file[h.offset + h.size] != 0 {
      return None;
    }
    r := Some(file[h.offset..h.offset + h.size]);
  }

  method GetHandle(data: Bytes) returns (r: Option<Handle>)
    ensures forall h: Handle :: h.offset < WORD64 && h.size < WORD64 && data == HandleBytes(h) ==> r == Some(h)
  {
    hide HandleBytes, GetVarint;
    forall h: Handle | h.offset < WORD64 && h.size < WORD64 && data == HandleBytes(h)
      ensures DecodeHandle(data, 0) == Some(Read(h, |data|))
    {
      assert data[0..|data|] == data;
      HandleRoundTrip(data, 0, h);
    }
    var a := GetVarintPtr(data, 0, |data|, true);
    if a.None? {
      return None;
    }
    var b := GetVarintPtr(data, a.value.next, |data|, true);
    if b.None? {
      return None;
    }
    r := Some(Handle(a.value.value, b.value.value));
  }

  /** Seeks in a block of the file, if it can be read: the pair found, if any. */
  method SeekInBlock(contents: Bytes, less: (Bytes, Bytes) -> bool, k: Bytes, ghost plan: Plan, ghost f: nat)
      returns (r: Option<Pair>)
    requires |contents| < WORD32
    ensures Holds(contents, plan) && f <= |plan.pairs| ==>
      (forall i :: 0 <= i < |plan.pairs| ==> (less(plan.pairs[i].key, k) <==> i < f)) ==>
      r == if f < |plan.pairs| then Some(plan.pairs[f]) else None
  {
    hide Holds, Encoded, SharesPrefix, End, Sound;
    if Holds(contents, plan) {
      HoldsIsSound(contents, plan);
    }
    var found := Block.Open(contents);
    if found.None? || found.value.1 == 0 {
      return None;
    }
    var it := new Iter(contents, found.value.0, found.value.1, less, plan);
    it.Seek(k, f);
    ghost var on := it.Built() && it.Splits(k, f);
    if on && f < |plan.pairs| {
      it.Shown(f);
    }
    if it.Valid() {
      var pair := it.Current(f);
      r := Some(pair);
    } else {
      r := None;
    }
  }

  lemma HoldsIsSound(contents: Bytes, plan: Plan)
    requires Holds(contents, plan)
    ensures Sound(plan) && |plan.firsts| > 0
  {
  }

  class Table {
    const file: Bytes
    const policy: Policy
    const index: Bytes
    const filter: FilterBlock.FilterBlockReader?

    constructor (file: Bytes, policy: Policy, index: Bytes, filter: FilterBlock.FilterBlockReader?)
      requires filter != null ==> filter.Shape()
      ensures Valid() && this.file == file && this.policy == policy && this.index == index && this.filter == filter
    {
      this.file, this.policy, this.index, this.filter := file, policy, index, filter;
    }

    predicate Valid() {
      filter != null ==> filter.Shape()
    }

    /** What Open leaves: the index block, and a reader of the filter block if the policy asks for it. */
    ghost predicate Opened(l: Layout) {
      Holds(index, l.index.plan) && |index| < WORD32 &&
      (filter != null ==>
       l.filter.Some? && filter.hash == policy.hash && filter.Built(policy.bitsPerKey, policy.k, l.groups))
    }

    /** InternalGet: the index, the filter, the data block. */
    method InternalGet(k: Bytes, ghost entries: seq<Pair>, ghost l: Layout) returns (r: Option<Pair>)
      requires Valid() && |k| >= 8 && Trailer(k) <= MAX_TRAILER
      ensures TableFile(file, policy, entries, l) && Opened(l) ==>
        AnswerFor(r, UserPart(k)) == AnswerFor(Scan(entries, k), UserPart(k))
      ensures TableFile(file, policy, entries, l) && Opened(l) && RulesOut(l, k) ==> r == None
    {
      hide InternalLess, TableFile, Opened, Good, Complete, Holds, Less, FilterBlock.Answers, RulesOut;
      ghost var on := TableFile(file, policy, entries, l) && Opened(l);
      ghost var v := View(file, l.blocks, [], l.index.plan.pairs);
      ghost var f := 0;
      if on {
        TableIsComplete(file, policy, entries, l);
        OpenedIndex(l);
        f := IndexSplits(v, k);
      }
      if |index| >= WORD32 {
        return None;
      }
      var found := SeekInBlock(index, InternalLess, k, l.index.plan, f);
      if found.None? {
        if on {
          BehindAll(v, k);
        }
        return None;
      }
      if on {
        EntryOf(v, f);
        BlockRead(file, policy, entries, l, f);
      }
      var handle := GetHandle(found.value.value);
      if handle.None? {
        return None;
      }
      if filter != null {
        var may := filter.KeyMayMatch(handle.value.offset, UserPart(k), policy.bitsPerKey, policy.k, l.groups);
        if !may {
          if on {
            RuledOut(entries, l, f, k, may);
          }
          return None;
        }
      }
      if on {
        NotRuledOut(l, f, k);
      }
      var contents := ReadBlock(file, handle.value);
      if contents.None? || |contents.value| >= WORD32 {
        return None;
      }
      ghost var g := 0;
      if on {
        BlockAscends(v, f);
        g := SplitAscending(l.blocks[f].plan.pairs, k);
      }
      r := SeekInBlock(contents.value, InternalLess, k, if on then l.blocks[f].plan else l.index.plan, g);
      if on {
        if g < |l.blocks[f].plan.pairs| {
          InBlock(v, k, f, g);
        } else {
          NothingAtOrAfter(v, k, f, g);
        }
      }
    }

    /** The filter says that the block to look into does not have the user key. */
    ghost predicate RulesOut(l: Layout, k: Bytes)
      requires |k| >= 8 && Trailer(k) <= MAX_TRAILER
    {
      filter != null &&
      exists f: nat ::
        f < |l.blocks| == |l.index.plan.pairs| && Splits(l.index.plan.pairs, k, f) &&
        FilterBlock.Answers(policy.hash, policy.bitsPerKey, policy.k, l.groups, l.blocks[f].handle.offset, UserPart(k),
                            false)
    }

    lemma OpenedIndex(l: Layout)
      requires Opened(l)
      ensures Holds(index, l.index.plan) && |index| < WORD32
      ensures filter != null ==> filter.hash == policy.hash && filter.Built(policy.bitsPerKey, policy.k, l.groups)
    {
    }

    /** The filter was asked about the one block to look into. */
    lemma NotRuledOut(l: Layout, f: nat, k: Bytes)
      requires |k| >= 8 && Trailer(k) <= MAX_TRAILER && f < |l.blocks| == |l.index.plan.pairs|
      requires Splits(l.index.plan.pairs, k, f)
      requires filter != null ==>
        FilterBlock.Answers(policy.hash, policy.bitsPerKey, policy.k, l.groups, l.blocks[f].handle.offset, UserPart(k),
                            true)
      ensures !RulesOut(l, k)
    {
      hide InternalLess, Bloom.AllProbed;
      if RulesOut(l, k) {
        var g: nat :| g < |l.blocks| && Splits(l.index.plan.pairs, k, g) &&
          FilterBlock.Answers(policy.hash, policy.bitsPerKey, policy.k, l.groups, l.blocks[g].handle.offset,
                              UserPart(k), false);
        SplitsOnce(l.index.plan.pairs, k, f, g);
      }
    }

    /** A key the filter rules out is in no pair of the block. */
    lemma RuledOut(entries: seq<Pair>, l: Layout, f: nat, k: Bytes, may: bool)
      requires TableFile(file, policy, entries, l) && Opened(l) && filter != null && |k| >= 8 &&
        Trailer(k) <= MAX_TRAILER && !may
      requires f < |l.blocks| == |l.index.plan.pairs| && Splits(l.index.plan.pairs, k, f)
      requires FilterBlock.Answers(policy.hash, policy.bitsPerKey, policy.k, l.groups, l.blocks[f].handle.offset,
                                   UserPart(k), may)
      ensures AnswerFor(Scan(entries, k), UserPart(k)) == None
    {
      hide InternalLess, Good, Less, Holds, FilterBlock.Holds;
      var v := View(file, l.blocks, [], l.index.plan.pairs);
      NotInBlock(v, k, f);
    }
  }

  lemma SplitsOnce(pairs: seq<Pair>, k: Bytes, f: nat, g: nat)
    requires Splits(pairs, k, f) && Splits(pairs, k, g)
    ensures f == g
  {
    hide InternalLess;
    assert f < |pairs| ==> (InternalLess(pairs[f].key, k) <==> f < g);
    assert g < |pairs| ==> (InternalLess(pairs[g].key, k) <==> g < f);
  }

  lemma TableIsComplete(file: Bytes, policy: Policy, entries: seq<Pair>, l: Layout)
    requires TableFile(file, policy, entries, l)
    ensures Complete(View(file, l.blocks, [], l.index.plan.pairs)) && Joined(l.blocks) == entries
  {
  }

  /** The handle of block f leads to block f. */
  lemma BlockRead(file: Bytes, policy: Policy, entries: seq<Pair>, l: Layout, f: nat)
    requires TableFile(file, policy, entries, l) && f < |l.blocks|
    ensures BlockStored(file, l.blocks[f]) && |file| < WORD32
    ensures l.blocks[f].handle.offset + l.blocks[f].handle.size < WORD32
  {
    hide Holds;
  }

  lemma NothingAtOrAfter(v: View, k: Bytes, f: nat, g: nat)
    requires Complete(v) && |k| >= 8 && Trailer(k) <= MAX_TRAILER && f < |v.blocks| == |v.index| &&
      Splits(v.index, k, f)
    requires g == |v.blocks[f].plan.pairs| && Splits(v.blocks[f].plan.pairs, k, g)
    ensures AnswerFor(Scan(Joined(v.blocks), k), UserPart(k)) == None
  {
    hide InternalLess, Complete, Less;
    forall p | p in v.blocks[f].plan.pairs ensures InternalLess(p.key, k) {
      var i :| 0 <= i < g && v.blocks[f].plan.pairs[i] == p;
    }
    NotInBlock(v, k, f);
  }

  /** Table::Open: footer, index block, and with a filter policy the filter block. */
  method Open(file: Bytes, policy: Policy, useFilter: bool, ghost entries: seq<Pair>, ghost l: Layout)
      returns (t: Table?)
    ensures t != null <==> HasIndex(file)
    ensures t != null ==>
      fresh(t) && t.Valid() && t.file == file && t.policy == policy && (!useFilter ==> t.filter == null)
    ensures TableFile(file, policy, entries, l) ==> t != null && t.Opened(l)
  {
    hide TableFile, Holds, FooterBytes, DecodeFooter;
    ghost var on := TableFile(file, policy, entries, l);
    if on {
      FooterIsRead(file, policy, entries, l);
    }
    if |file| < FOOTER {
      return null;
    }
    var footer := DecodeFooter(file[|file| - FOOTER..]);
    if footer.None? {
      return null;
    }
    var index := ReadBlock(file, footer.value.1);
    if index.None? || |index.value| >= WORD32 {
      return null;
    }
    var filter: FilterBlock.FilterBlockReader? := null;
    if useFilter {
      filter := ReadMeta(file, policy, footer.value.0, entries, l);
    }
    t := new Table(file, policy, index.value, filter);
  }

  lemma FooterIsRead(file: Bytes, policy: Policy, entries: seq<Pair>, l: Layout)
    requires TableFile(file, policy, entries, l)
    ensures FOOTER <= |file| && DecodeFooter(file[|file| - FOOTER..]) == Some((l.meta.handle, l.index.handle))
    ensures BlockStored(file, l.index) && BlockStored(file, l.meta) && |file| < WORD32
    ensures l.meta.plan.pairs == MetaPairs(policy, l.filter)
    ensures l.filter.Some? ==> FilterStored(file, policy, l.filter.value, l.groups)
  {
    hide FooterBytes, DecodeFooter, Holds, FilterBlock.Holds, Good;
    FooterRoundTrip(l.meta.handle, l.index.handle);
  }

  /** ReadMeta and ReadFilter: a missing or unreadable filter only means that none is used. */
  method ReadMeta(file: Bytes, policy: Policy, metaindex: Handle, ghost entries: seq<Pair>, ghost l: Layout)
      returns (filter: FilterBlock.FilterBlockReader?)
    ensures filter != null ==> fresh(filter) && filter.Shape()
    ensures TableFile(file, policy, entries, l) && metaindex == l.meta.handle && filter != null ==>
      l.filter.Some? && filter.hash == policy.hash && filter.Built(policy.bitsPerKey, policy.k, l.groups)
    ensures TableFile(file, policy, entries, l) && metaindex == l.meta.handle && l.filter.Some? ==> filter != null
  {
    hide TableFile, Holds, FilterBlock.Holds, FilterBlock.Layout, Good, HandleBytes, Less, BlockStored, MetaPairs;
    ghost var on := TableFile(file, policy, entries, l) && metaindex == l.meta.handle;
    if on {
      FooterIsRead(file, policy, entries, l);
    }
    filter := null;
    var handle := FindFilter(file, policy, metaindex, l.meta, l.filter);
    if handle.None? {
      return;
    }
    var block := ReadBlock(file, handle.value);
    if block.None? || |block.value| >= WORD32 {
      return;
    }
    filter := new FilterBlock.FilterBlockReader(policy.hash, block.value);
  }

  ghost predicate MetaStored(file: Bytes, policy: Policy, metaindex: Handle, meta: Stored, filter: Option<Handle>) {
    BlockStored(file, meta) && metaindex == meta.handle && meta.plan.pairs == MetaPairs(policy, filter) &&
    |file| < WORD32 && (filter.Some? ==> filter.value.offset < WORD64 && filter.value.size < WORD64)
  }

  /** The handle the metaindex block keeps for the filter, if any. */
  method FindFilter(file: Bytes, policy: Policy, metaindex: Handle, ghost meta: Stored, ghost filter: Option<Handle>)
      returns (r: Option<Handle>)
    ensures MetaStored(file, policy, metaindex, meta, filter) ==> r == filter
  {
    hide Holds, HandleBytes, Less;
    Irreflexive(policy.metaKey);
    var contents := ReadBlock(file, metaindex);
    if contents.None? || |contents.value| >= WORD32 {
      return None;
    }
    var found := SeekInBlock(contents.value, Less, policy.metaKey, meta.plan, 0);
    if found.None? || found.value.key != policy.metaKey {
      return None;
    }
    r := GetHandle(found.value.value);
  }
}
