/** The work of one compaction: class Compaction of db/version_set.cc and the loop of
  DBImpl::DoCompactionWork in db/db_impl.cc.  The merged input is a sorted entry list;
  Merger.dfy shows that the merging iterator delivers it. */
module Compactions {
  import opened Options
  import opened InternalKeys
  import opened Versions
  import opened CompactionInputs

  ghost predicate Holds(f: File, u: UserKey) {
    f.smallest.user <= u <= f.largest.user
  }

  ghost predicate NoneHolds(files: seq<File>, u: UserKey) {
    forall f :: f in files ==> !Holds(f, u)
  }

  /** No file below the output level can hold the user key. */
  ghost predicate NoDeeperData(v: Version, level: nat, u: UserKey) {
    forall l :: level + 2 <= l < |v| ==> NoneHolds(v[l], u)
  }

  class Compaction {
    const level: nat
    const version: Version
    const grandparents: seq<File>
    const maxFileSize: nat
    /** level_ptrs_: per level, how many files the keys seen so far have passed. */
    const levelPtrs: array<nat>
    var grandparentIndex: nat
    var seenKey: bool
    var overlappedBytes: nat

    constructor (level: nat, version: Version, grandparents: seq<File>, maxFileSize: nat)
      ensures this.level == level && this.version == version && this.grandparents == grandparents &&
        this.maxFileSize == maxFileSize
      ensures fresh(levelPtrs) && Valid() && forall u :: Passed(u)
      ensures grandparentIndex == 0 && !seenKey && overlappedBytes == 0
    {
      this.level, this.version, this.grandparents, this.maxFileSize := level, version, grandparents, maxFileSize;
      levelPtrs := new nat[|version|](i => 0);
      grandparentIndex, seenKey, overlappedBytes := 0, false, 0;
    }

    ghost predicate Valid()
      reads this, levelPtrs
    {
      levelPtrs.Length == |version| && grandparentIndex <= |grandparents| &&
      forall l :: level + 2 <= l < |version| ==> levelPtrs[l] <= |version[l]|
    }

    /** Every file a pointer has moved past ends before u. */
    ghost predicate Passed(u: UserKey)
      requires Valid()
      reads this, levelPtrs
    {
      forall l, i :: level + 2 <= l < |version| && 0 <= i < levelPtrs[l] ==> version[l][i].largest.user < u
    }

    /** The pointers only move forward, which is right as long as the keys asked about never go back. */
    method IsBaseLevelForKey(u: UserKey) returns (base: bool)
      requires Valid() && Passed(u) && LevelsValid(version) && LevelsDisjoint(version)
      modifies levelPtrs
      ensures Valid() && Passed(u)
      ensures base <==> NoDeeperData(version, level, u)
    {
      hide LevelsValid, LevelsDisjoint;
      var lvl := level + 2;
      while lvl < |version|
        invariant level + 2 <= lvl && Valid() && Passed(u)
        invariant forall l :: level + 2 <= l < lvl && l < |version| ==> NoneHolds(version[l], u)
      {
        var files := version[lvl];
        while levelPtrs[lvl] < |files|
          invariant Valid() && Passed(u)
          invariant levelPtrs[lvl] < |files| || forall f :: f in files ==> f.largest.user < u
          decreases |files| - levelPtrs[lvl]
        {
          var f := files[levelPtrs[lvl]];
          if u <= f.largest.user {
            if u >= f.smallest.user {
              assert f in version[lvl] && Holds(f, u);
              return false;
            }
            break;
          }
          levelPtrs[lvl] := levelPtrs[lvl] + 1;
        }
        BetweenFiles(version, lvl, levelPtrs[lvl], u);
        lvl := lvl + 1;
      }
      base := true;
    }

    /** Scans forward to the first grandparent file that ends at or after key, and asks for a new
        output file once the files passed hold too many bytes. */
    method ShouldStopBefore(key: IKey) returns (stop: bool)
      requires Valid()
      modifies this`grandparentIndex, this`seenKey, this`overlappedBytes
      ensures Valid() && seenKey && old(grandparentIndex) <= grandparentIndex
      ensures forall i :: old(grandparentIndex) <= i < grandparentIndex ==> Less(grandparents[i].largest, key)
      ensures grandparentIndex < |grandparents| ==> !Less(grandparents[grandparentIndex].largest, key)
      ensures var bytes := old(overlappedBytes) +
          (if old(seenKey) then TotalFileSize(grandparents[old(grandparentIndex)..grandparentIndex]) else 0);
        stop == (bytes > 10 * maxFileSize) && overlappedBytes == if stop then 0 else bytes
    {
      ghost var start := grandparentIndex;
      ghost var bytes := overlappedBytes;
      while grandparentIndex < |grandparents| && Less(grandparents[grandparentIndex].largest, key)
        invariant start <= grandparentIndex <= |grandparents| && seenKey == old(seenKey) && Valid()
        invariant forall i :: start <= i < grandparentIndex ==> Less(grandparents[i].largest, key)
        invariant overlappedBytes ==
          bytes + (if seenKey then TotalFileSize(grandparents[start..grandparentIndex]) else 0)
        decreases |grandparents| - grandparentIndex
      {
        TotalOfOneMore(grandparents, start, grandparentIndex);
        if seenKey {
          overlappedBytes := overlappedBytes + grandparents[grandparentIndex].size;
        }
        grandparentIndex := grandparentIndex + 1;
      }
      seenKey := true;
      stop := overlappedBytes > 10 * maxFileSize;
      if stop {
        overlappedBytes := 0;
      }
    }
  }

  lemma BetweenFiles(v: Version, l: nat, n: nat, u: UserKey)
    requires LevelsValid(v) && LevelsDisjoint(v) && 0 < l < |v| && n <= |v[l]|
    requires forall i :: 0 <= i < n ==> v[l][i].largest.user < u
    requires n < |v[l]| ==> u < v[l][n].smallest.user
    ensures NoneHolds(v[l], u)
  {
    SmallestAscends(v[l]);
  }

  // ---- which entries are dropped -------------------------------------------------------

  /** last_sequence_for_key when the loop looks at entry i. */
  function LastSequence(input: seq<Entry>, i: nat): SequenceNumber
    requires i < |input|
  {
    if i > 0 && input[i - 1].key.user == input[i].key.user then input[i - 1].key.sequence else MAX_SEQUENCE
  }

  /** Rule (A), hidden by a newer entry every live snapshot sees; or rule (B), a deletion
      every live snapshot sees and nothing is left for it to hide. */
  ghost predicate Dropped(input: seq<Entry>, i: nat, snapshot: nat, v: Version, level: nat)
    requires i < |input|
  {
    LastSequence(input, i) <= snapshot ||
    (input[i].key.kind.Deletion? && input[i].key.sequence <= snapshot && NoDeeperData(v, level, input[i].key.user))
  }

  /** The surviving entries among the first n. */
  ghost function Survivors(input: seq<Entry>, n: nat, snapshot: nat, v: Version, level: nat): seq<Entry>
    requires n <= |input|
  {
    if n == 0 then []
    else
      Survivors(input, n - 1, snapshot, v, level) +
      (if Dropped(input, n - 1, snapshot, v, level) then [] else [input[n - 1]])
  }

  lemma {:induction false} SurvivorsAre(input: seq<Entry>, n: nat, snapshot: nat, v: Version, level: nat)
    requires n <= |input|
    ensures forall e :: e in Survivors(input, n, snapshot, v, level) <==>
      exists i :: 0 <= i < n && input[i] == e && !Dropped(input, i, snapshot, v, level)
  {
    if n > 0 {
      SurvivorsAre(input, n - 1, snapshot, v, level);
    }
  }

  lemma {:induction false} SurvivorsAreSorted(input: seq<Entry>, n: nat, snapshot: nat, v: Version, level: nat)
    requires n <= |input| && Sorted(input)
    ensures Sorted(Survivors(input, n, snapshot, v, level))
    ensures forall e :: e in Survivors(input, n, snapshot, v, level) && n < |input| ==> Before(e.key, input[n].key)
  {
    if n > 0 {
      SurvivorsAreSorted(input, n - 1, snapshot, v, level);
    }
  }

  function Flatten(outputs: seq<seq<Entry>>): seq<Entry> {
    if |outputs| == 0 then [] else Flatten(outputs[..|outputs| - 1]) + outputs[|outputs| - 1]
  }

  // ---- where the outputs are cut ---------------------------------------------------------------

  /** The scan over the grandparents: how many files were passed, whether a key was seen, and the bytes since the last
    stop. */
  datatype Scan = Scan(index: nat, seen: bool, bytes: nat)

  /** What decides where outputs end: the grandparents, the input, and where an output file is full. */
  datatype Plan = Plan(grandparents: seq<File>, maxFileSize: nat, start: Scan, input: seq<Entry>, full: seq<bool>)

  ghost function FirstNotBefore(files: seq<File>, from: nat, key: IKey): (i: nat)
    requires from <= |files|
    ensures from <= i <= |files|
    decreases |files| - from
  {
    if from < |files| && Less(files[from].largest, key) then FirstNotBefore(files, from + 1, key) else from
  }

  lemma {:induction false} FirstIs(files: seq<File>, from: nat, key: IKey, i: nat)
    requires from <= i <= |files| && (forall k :: from <= k < i ==> Less(files[k].largest, key))
    requires i < |files| ==> !Less(files[i].largest, key)
    ensures FirstNotBefore(files, from, key) == i
    decreases |files| - from
  {
    if from < i {
      FirstIs(files, from + 1, key, i);
    }
  }

  /** Bytes of grandparents passed since the last stop, when this key comes. */
  ghost function Passing(p: Plan, s: Scan, key: IKey): nat
    requires s.index <= |p.grandparents|
  {
    s.bytes + if s.seen then TotalFileSize(p.grandparents[s.index..FirstNotBefore(p.grandparents, s.index, key)]) else 0
  }

  ghost function ScanAt(p: Plan, n: nat): (s: Scan)
    requires n <= |p.input| && p.start.index <= |p.grandparents|
    ensures s.index <= |p.grandparents|
  {
    if n == 0 then p.start
    else
      var s, key := ScanAt(p, n - 1), p.input[n - 1].key;
      Scan(FirstNotBefore(p.grandparents, s.index, key), true, if Passing(p, s, key) > 10 * p.maxFileSize then 0
           else Passing(p, s, key))
  }

  /** In front of this key more than ten file sizes of grandparents have been passed. */
  ghost predicate StopsAt(p: Plan, k: nat)
    requires k < |p.input| && p.start.index <= |p.grandparents|
  {
    Passing(p, ScanAt(p, k), p.input[k].key) > 10 * p.maxFileSize
  }

  /** A new output is asked for behind entry a and before entry n is over: the file is full, or a grandparent boundary
    says so. */
  ghost predicate Asked(p: Plan, a: nat, n: nat)
    requires a < n <= |p.input| == |p.full| && p.start.index <= |p.grandparents|
  {
    p.full[a] || exists k :: a < k < n && StopsAt(p, k)
  }

  ghost predicate Picks(p: Plan, output: seq<Entry>, at: seq<nat>) {
    |at| == |output| && forall j :: 0 <= j < |at| ==> at[j] < |p.input| && p.input[at[j]] == output[j]
  }

  ghost predicate WellPlanned(p: Plan) {
    |p.full| == |p.input| && p.start.index <= |p.grandparents|
  }

  /** Inside an output no new one is asked for. */
  ghost predicate Together(p: Plan, at: seq<nat>) {
    WellPlanned(p) && forall j :: 0 < j < |at| ==> at[j - 1] < at[j] < |p.input| && !Asked(p, at[j - 1], at[j] + 1)
  }

  /** Between two outputs one is asked for. */
  ghost predicate Apart(p: Plan, a: seq<nat>, b: seq<nat>) {
    WellPlanned(p) && |a| > 0 && |b| > 0 && a[|a| - 1] < b[0] < |p.input| && Asked(p, a[|a| - 1], b[0] + 1)
  }

  /** The outputs are the input entries at these places, and each new one starts exactly where it is asked for. */
  ghost predicate CutAsAsked(p: Plan, outputs: seq<seq<Entry>>, at: seq<seq<nat>>) {
    |at| == |outputs| &&
    (forall o :: 0 <= o < |at| ==> |at[o]| > 0 && Picks(p, outputs[o], at[o]) && Together(p, at[o])) &&
    forall o :: 0 < o < |at| ==> Apart(p, at[o - 1], at[o])
  }

  /** The same of the finished outputs and the one being built from entries in front of i, as far as asked in front of
    n. */
  ghost predicate CutSoFar(p: Plan, outputs: seq<seq<Entry>>, at: seq<seq<nat>>, builder: seq<Entry>, cur: seq<nat>,
                           i: nat, n: nat) {
    WellPlanned(p) && i <= n <= |p.input| && CutAsAsked(p, outputs, at) && Picks(p, builder, cur) && Together(p, cur) &&
    (|cur| > 0 ==> cur[|cur| - 1] < i && !Asked(p, cur[|cur| - 1], n) && (|at| > 0 ==> Apart(p, at[|at| - 1], cur))) &&
    (|cur| == 0 && |at| > 0 ==> LastOf(at) < i && Asked(p, LastOf(at), n))
  }

  ghost function LastOf(at: seq<seq<nat>>): nat
    requires |at| > 0
  {
    var a := at[|at| - 1]; if |a| > 0 then a[|a| - 1] else 0
  }

  lemma AskedStep(p: Plan, a: nat, i: nat)
    requires WellPlanned(p) && a < i < |p.input|
    ensures Asked(p, a, i + 1) <==> Asked(p, a, i) || StopsAt(p, i)
  {
    hide StopsAt;
    if StopsAt(p, i) {
      assert a < i < i + 1 && StopsAt(p, i);
    }
  }

  lemma AskedFresh(p: Plan, i: nat)
    requires WellPlanned(p) && i < |p.input|
    ensures Asked(p, i, i + 1) <==> p.full[i]
  {
  }

  /** A finished output more. */
  lemma OneMoreOutput(p: Plan, outputs: seq<seq<Entry>>, at: seq<seq<nat>>, output: seq<Entry>, a: seq<nat>)
    requires CutAsAsked(p, outputs, at) && |a| > 0 && Picks(p, output, a) && Together(p, a) &&
      (|at| > 0 ==> Apart(p, at[|at| - 1], a))
    ensures CutAsAsked(p, outputs + [output], at + [a])
  {
    hide Together, Picks, Apart;
    var at', outputs' := at + [a], outputs + [output];
    forall o | 0 < o < |at'| ensures Apart(p, at'[o - 1], at'[o]) {
      if o < |at| {
        assert at'[o - 1] == at[o - 1] && at'[o] == at[o];
      }
    }
    forall o | 0 <= o < |at'| ensures |at'[o]| > 0 && Picks(p, outputs'[o], at'[o]) && Together(p, at'[o]) {
      if o < |at| {
        assert at'[o] == at[o] && outputs'[o] == outputs[o];
      }
    }
  }

  /** Entry i stops nothing. */
  lemma CutGoesOn(p: Plan, outputs: seq<seq<Entry>>, at: seq<seq<nat>>, builder: seq<Entry>, cur: seq<nat>, i: nat)
    requires CutSoFar(p, outputs, at, builder, cur, i, i) && i < |p.input| && (|builder| > 0 ==> !StopsAt(p, i))
    ensures CutSoFar(p, outputs, at, builder, cur, i, i + 1)
  {
    hide Asked, StopsAt, Together, Apart, CutAsAsked;
    if |cur| > 0 {
      AskedStep(p, cur[|cur| - 1], i);
    } else if |at| > 0 {
      AskedStep(p, LastOf(at), i);
    }
  }

  /** Entry i stops the output being built. */
  lemma CutStops(p: Plan, outputs: seq<seq<Entry>>, at: seq<seq<nat>>, builder: seq<Entry>, cur: seq<nat>, i: nat)
    requires CutSoFar(p, outputs, at, builder, cur, i, i) && i < |p.input| && |builder| > 0 && StopsAt(p, i)
    ensures CutSoFar(p, outputs + [builder], at + [cur], [], [], i, i + 1)
  {
    hide Asked, StopsAt, Apart, CutAsAsked;
    OneMoreOutput(p, outputs, at, builder, cur);
    AskedStep(p, cur[|cur| - 1], i);
  }

  /** Entry i is dropped. */
  lemma CutSkips(p: Plan, outputs: seq<seq<Entry>>, at: seq<seq<nat>>, builder: seq<Entry>, cur: seq<nat>, i: nat)
    requires CutSoFar(p, outputs, at, builder, cur, i, i + 1)
    ensures CutSoFar(p, outputs, at, builder, cur, i + 1, i + 1)
  {
    hide Asked, Together, Apart, CutAsAsked, Picks;
  }

  lemma Joins(p: Plan, builder: seq<Entry>, cur: seq<nat>, i: nat)
    requires WellPlanned(p) && i < |p.input| && Picks(p, builder, cur) && Together(p, cur)
    requires |cur| > 0 ==> cur[|cur| - 1] < i && !Asked(p, cur[|cur| - 1], i + 1)
    ensures Picks(p, builder + [p.input[i]], cur + [i]) && Together(p, cur + [i])
  {
    hide Asked;
    var cur' := cur + [i];
    forall j | 0 < j < |cur'| ensures cur'[j - 1] < cur'[j] < |p.input| && !Asked(p, cur'[j - 1], cur'[j] + 1) {
      if j < |cur| {
        assert cur'[j - 1] == cur[j - 1] && cur'[j] == cur[j];
      }
    }
  }

  /** The output that entry i joins still starts where it was asked for. */
  lemma StartsApart(p: Plan, outputs: seq<seq<Entry>>, at: seq<seq<nat>>, cur: seq<nat>, i: nat)
    requires WellPlanned(p) && i < |p.input| && CutAsAsked(p, outputs, at) && |at| > 0
    requires |cur| > 0 ==> Apart(p, at[|at| - 1], cur)
    requires |cur| == 0 ==> LastOf(at) < i && Asked(p, LastOf(at), i + 1)
    ensures Apart(p, at[|at| - 1], cur + [i])
  {
    hide Asked;
    LastIsLast(p, outputs, at);
  }

  /** Entry i joins the output being built and does not fill it. */
  lemma CutTakes(p: Plan, outputs: seq<seq<Entry>>, at: seq<seq<nat>>, builder: seq<Entry>, cur: seq<nat>, i: nat)
    requires CutSoFar(p, outputs, at, builder, cur, i, i + 1) && i < |p.input| && !p.full[i]
    ensures CutSoFar(p, outputs, at, builder + [p.input[i]], cur + [i], i + 1, i + 1)
  {
    hide Asked, CutAsAsked, Apart, Picks, Together;
    Joins(p, builder, cur, i);
    AskedFresh(p, i);
    if |at| > 0 {
      StartsApart(p, outputs, at, cur, i);
    }
  }

  /** Entry i joins the output being built and fills it. */
  lemma CutFills(p: Plan, outputs: seq<seq<Entry>>, at: seq<seq<nat>>, builder: seq<Entry>, cur: seq<nat>, i: nat)
    requires CutSoFar(p, outputs, at, builder, cur, i, i + 1) && i < |p.input| && p.full[i]
    ensures CutSoFar(p, outputs + [builder + [p.input[i]]], at + [cur + [i]], [], [], i + 1, i + 1)
  {
    hide Asked, CutAsAsked, Apart, Picks, Together;
    Joins(p, builder, cur, i);
    AskedFresh(p, i);
    if |at| > 0 {
      StartsApart(p, outputs, at, cur, i);
    }
    OneMoreOutput(p, outputs, at, builder + [p.input[i]], cur + [i]);
    NothingBuilt(p);
  }

  lemma NothingBuilt(p: Plan)
    requires WellPlanned(p)
    ensures Picks(p, [], []) && Together(p, [])
  {
  }

  lemma LastIsLast(p: Plan, outputs: seq<seq<Entry>>, at: seq<seq<nat>>)
    requires CutAsAsked(p, outputs, at) && |at| > 0
    ensures |at[|at| - 1]| > 0
  {
  }

  lemma CutStarts(p: Plan)
    requires WellPlanned(p)
    ensures CutSoFar(p, [], [], [], [], 0, 0)
  {
  }

  /** What is left at the end is the last output. */
  lemma CutEnds(p: Plan, outputs: seq<seq<Entry>>, at: seq<seq<nat>>, builder: seq<Entry>, cur: seq<nat>, i: nat)
    requires CutSoFar(p, outputs, at, builder, cur, i, i)
    ensures if |builder| > 0 then CutAsAsked(p, outputs + [builder], at + [cur]) else CutAsAsked(p, outputs, at)
  {
    hide Asked, Together, Apart, CutAsAsked;
    if |builder| > 0 {
      OneMoreOutput(p, outputs, at, builder, cur);
    }
  }

  ghost function ScanOf(c: Compaction): Scan
    reads c
  {
    Scan(c.grandparentIndex, c.seenKey, c.overlappedBytes)
  }

  ghost function PlanOf(c: Compaction, input: seq<Entry>, full: seq<bool>): Plan
    reads c
  {
    Plan(c.grandparents, c.maxFileSize, ScanOf(c), input, full)
  }

  /** ShouldStopBefore is one step of the scan. */
  lemma ScanMoves(p: Plan, i: nat, from: nat, to: nat)
    requires WellPlanned(p) && i < |p.input| && from == ScanAt(p, i).index <= to <= |p.grandparents|
    requires forall k :: from <= k < to ==> Less(p.grandparents[k].largest, p.input[i].key)
    requires to < |p.grandparents| ==> !Less(p.grandparents[to].largest, p.input[i].key)
    ensures FirstNotBefore(p.grandparents, from, p.input[i].key) == to
    ensures ScanAt(p, i + 1) == Scan(to, true, if StopsAt(p, i) then 0 else Passing(p, ScanAt(p, i), p.input[i].key))
  {
    FirstIs(p.grandparents, from, p.input[i].key, to);
  }

  /** The loop of DoCompactionWork.  full[i] says whether the output file has reached its size
      limit after input[i] was added to it; at tells where in the input each output comes from. */
  method DoCompactionWork(c: Compaction, input: seq<Entry>, smallestSnapshot: nat, full: seq<bool>)
      returns (outputs: seq<seq<Entry>>, ghost at: seq<seq<nat>>)
    requires c.Valid() && (forall u :: c.Passed(u)) && LevelsValid(c.version) && LevelsDisjoint(c.version)
    requires Sorted(input) && |full| == |input|
    modifies c, c.levelPtrs
    ensures Flatten(outputs) == Survivors(input, |input|, smallestSnapshot, c.version, c.level)
    ensures forall o :: o in outputs ==> |o| > 0
    ensures CutAsAsked(old(PlanOf(c, input, full)), outputs, at)
  {
    hide LevelsValid, LevelsDisjoint, NoDeeperData, Sorted, Survivors, Flatten, CutSoFar, CutAsAsked, StopsAt, ScanAt;
    hide TotalFileSize, FirstNotBefore;
    outputs, at := [], [];
    var builder := [];
    ghost var cur: seq<nat>, p := [], PlanOf(c, input, full);
    NothingYet(input, smallestSnapshot, c.version, c.level);
    CutStarts(p);
    ScanStarts(p);
    var currentUserKey: Option<UserKey> := None;
    var lastSequenceForKey: SequenceNumber := MAX_SEQUENCE;
    var i := 0;
    while i < |input|
      invariant 0 <= i <= |input| && c.Valid()
      invariant i < |input| ==> c.Passed(input[i].key.user)
      invariant i > 0 ==>
        currentUserKey == Some(input[i - 1].key.user) && lastSequenceForKey == input[i - 1].key.sequence
      invariant i == 0 ==> currentUserKey == None
      invariant Flatten(outputs) + builder == Survivors(input, i, smallestSnapshot, c.version, c.level)
      invariant forall o :: o in outputs ==> |o| > 0
      invariant ScanOf(c) == ScanAt(p, i) && CutSoFar(p, outputs, at, builder, cur, i, i)
    {
      var key := input[i].key;
      ghost var from := c.grandparentIndex;
      var stop := c.ShouldStopBefore(key);
      ScanMoves(p, i, from, c.grandparentIndex);
      StopIs(p, i);
      if stop && |builder| > 0 {
        FlattenMore(outputs, builder);
        CutStops(p, outputs, at, builder, cur, i);
        outputs, builder := outputs + [builder], [];
        at, cur := at + [cur], [];
      } else {
        CutGoesOn(p, outputs, at, builder, cur, i);
      }
      var drop := false;
      if currentUserKey.None? || currentUserKey.value != key.user {
        currentUserKey, lastSequenceForKey := Some(key.user), MAX_SEQUENCE;
      }
      if lastSequenceForKey <= smallestSnapshot {
        drop := true;
      } else if key.kind.Deletion? && key.sequence <= smallestSnapshot {
        drop := c.IsBaseLevelForKey(key.user);
      }
      lastSequenceForKey := key.sequence;
      OneMoreEntry(input, i, smallestSnapshot, c.version, c.level);
      if !drop {
        if full[i] {
          CutFills(p, outputs, at, builder, cur, i);
        } else {
          CutTakes(p, outputs, at, builder, cur, i);
        }
        builder, cur := builder + [input[i]], cur + [i];
        if full[i] {
          FlattenMore(outputs, builder);
          outputs, builder := outputs + [builder], [];
          at, cur := at + [cur], [];
        }
      } else {
        CutSkips(p, outputs, at, builder, cur, i);
      }
      PassedLater(c, input, i);
      i := i + 1;
    }
    CutEnds(p, outputs, at, builder, cur, i);
    if |builder| > 0 {
      FlattenMore(outputs, builder);
      outputs, at := outputs + [builder], at + [cur];
    }
  }

  lemma ScanStarts(p: Plan)
    requires WellPlanned(p)
    ensures ScanAt(p, 0) == p.start
  {
  }

  lemma StopIs(p: Plan, i: nat)
    requires WellPlanned(p) && i < |p.input|
    ensures StopsAt(p, i) <==> Passing(p, ScanAt(p, i), p.input[i].key) > 10 * p.maxFileSize
  {
  }

  lemma NothingYet(input: seq<Entry>, snapshot: nat, v: Version, level: nat)
    ensures Survivors(input, 0, snapshot, v, level) == [] && Flatten([]) == []
  {
  }

  lemma FlattenMore(outputs: seq<seq<Entry>>, output: seq<Entry>)
    ensures Flatten(outputs + [output]) == Flatten(outputs) + output
  {
    assert (outputs + [output])[..|outputs|] == outputs;
  }

  lemma OneMoreEntry(input: seq<Entry>, i: nat, snapshot: nat, v: Version, level: nat)
    requires i < |input|
    ensures Survivors(input, i + 1, snapshot, v, level) ==
      Survivors(input, i, snapshot, v, level) + if Dropped(input, i, snapshot, v, level) then [] else [input[i]]
  {
    hide Dropped;
  }

  lemma PassedLater(c: Compaction, input: seq<Entry>, i: nat)
    requires c.Valid() && Sorted(input) && i < |input| && c.Passed(input[i].key.user)
    ensures i + 1 < |input| ==> c.Passed(input[i + 1].key.user)
  {
  }
}
