/** The whole point of the storage engine: every run of the steps of Database.dfy reads like a plain map
  with saved copies, whatever is flushed, moved or compacted in between. */
module MapRefinement {
  import opened Options
  import opened InternalKeys
  import opened ReadSpec
  import opened Versions
  import opened CompactionInputs
  import opened VersionEdits
  import opened Compactions
  import opened SnapshotReads
  import opened Install
  import opened Database

  type Contents = map<UserKey, string>

  /** What a user sees: the current contents, and the contents saved by each live snapshot. */
  datatype Spec = Spec(current: Contents, saved: seq<Contents>)

  function ReadOf(m: Contents, u: UserKey): Option<string> {
    if u in m then Some(m[u]) else None
  }

  function ApplyOp(m: Contents, op: Op): Contents {
    if op.kind.Value? then m[op.user := op.value] else m - {op.user}
  }

  function ApplyOps(m: Contents, ops: seq<Op>): Contents
    decreases |ops|
  {
    if |ops| == 0 then m else ApplyOps(ApplyOp(m, ops[0]), ops[1..])
  }

  /** Only writes and snapshots mean anything; the rest is upkeep. */
  function SpecNext(spec: Spec, ev: Event): Spec {
    match ev
    case Write(ops) => spec.(current := ApplyOps(spec.current, ops))
    case Snapshot => spec.(saved := spec.saved + [spec.current])
    case Release(i) => if i < |spec.saved| then spec.(saved := spec.saved[..i] + spec.saved[i + 1..]) else spec
    case _ => spec
  }

  ghost predicate ReadsLike(all: set<Entry>, s: nat, m: Contents) {
    forall u :: Visible(all, u, s) == ReadOf(m, u)
  }

  ghost predicate Refines(st: State, spec: Spec) {
    |spec.saved| == |st.snapshots| && ReadsLike(All(st), st.lastSequence, spec.current) &&
    forall i :: 0 <= i < |spec.saved| ==> ReadsLike(All(st), st.snapshots[i], spec.saved[i])
  }

  // ---- one write ------------------------------------------------------------------------

  lemma StateIsIdentified(st: State)
    requires Inv(st)
    ensures Identified(All(st))
  {
    hide ValidVersion, Stored, NoneAfter, NumbersBelow;
    MemSetIsIdentified(st);
    AllIsIdentified(MemSet(st), st.version);
  }

  /** An entry newer than everything else changes no older read. */
  lemma OlderReadsSame(all: set<Entry>, last: nat, e: Entry, u: UserKey, s: nat)
    requires Identified(all) && NoneAfter(all, last) && s <= last < e.key.sequence
    ensures Visible(all + {e}, u, s) == Visible(all, u, s)
  {
    if !NoneVisible(all, u, s) {
      var x := Newest(all, u, s);
      LookupIs(all, u, s, x);
      LookupIs(all + {e}, u, s, x);
    }
  }

  /** At its own sequence number it decides the read of its key, and of no other key. */
  lemma NewReads(all: set<Entry>, last: nat, e: Entry, u: UserKey)
    requires Identified(all) && NoneAfter(all, last) && e.key.sequence == last + 1
    ensures Visible(all + {e}, u, last + 1) ==
      if u != e.key.user then Visible(all, u, last)
      else if e.key.kind.Value? then Some(e.value) else None
  {
    var s := last + 1;
    if u == e.key.user {
      LookupIs(all + {e}, u, s, e);
    } else if !NoneVisible(all, u, last) {
      var x := Newest(all, u, last);
      LookupIs(all, u, last, x);
      assert IsNewest(all + {e}, u, s, x);
      LookupIs(all + {e}, u, s, x);
    } else {
      assert forall y :: y in all && AtOrBelow(y, u, s) ==> AtOrBelow(y, u, last);
      assert NoneVisible(all + {e}, u, s);
    }
  }

  lemma WriteOneRefines(st: State, op: Op, spec: Spec)
    requires Inv(st) && Refines(st, spec) && st.lastSequence + 1 < MAX_SEQUENCE
    ensures Refines(WriteOne(st, op), spec.(current := ApplyOp(spec.current, op)))
  {
    hide Visible, MemInsert, All, ValidVersion, Stored, NumbersBelow, Newer, NoneAfter;
    var st', e := WriteOne(st, op), EntryOf(op, st.lastSequence + 1);
    WriteOneKeepsInv(st, op);
    StateIsIdentified(st);
    var all := All(st);
    InvBounds(st);
    forall u ensures Visible(all + {e}, u, st'.lastSequence) == ReadOf(ApplyOp(spec.current, op), u) {
      NewReads(all, st.lastSequence, e, u);
      assert Visible(all, u, st.lastSequence) == ReadOf(spec.current, u);
    }
    forall i | 0 <= i < |spec.saved| ensures ReadsLike(All(st'), st'.snapshots[i], spec.saved[i]) {
      forall u ensures Visible(all + {e}, u, st.snapshots[i]) == ReadOf(spec.saved[i], u) {
        OlderReadsSame(all, st.lastSequence, e, u, st.snapshots[i]);
        assert ReadsLike(all, st.snapshots[i], spec.saved[i]);
      }
    }
  }

  lemma InvBounds(st: State)
    requires Inv(st)
    ensures NoneAfter(All(st), st.lastSequence) && st.lastSequence < MAX_SEQUENCE
    ensures forall i :: 0 <= i < |st.snapshots| ==> SmallestSnapshot(st) <= st.snapshots[i] <= st.lastSequence
    ensures SmallestSnapshot(st) <= st.lastSequence
  {
    hide ValidVersion, Stored, NumbersBelow, Newer, NoneAfter;
  }

  lemma {:induction false} WriteRefines(st: State, ops: seq<Op>, spec: Spec)
    requires Inv(st) && Refines(st, spec) && st.lastSequence + |ops| < MAX_SEQUENCE
    ensures Refines(WriteAll(st, ops), spec.(current := ApplyOps(spec.current, ops)))
    decreases |ops|
  {
    hide Inv, Refines;
    if |ops| > 0 {
      WriteOneRefines(st, ops[0], spec);
      WriteOneKeepsInv(st, ops[0]);
      WriteRefines(WriteOne(st, ops[0]), ops[1..], spec.(current := ApplyOp(spec.current, ops[0])));
    }
  }

  // ---- upkeep -----------------------------------------------------------------------------

  /** A safe compaction step changes no read at any live snapshot. */
  lemma CompactReadsSame(st: State, ev: Event, st': State, u: UserKey, s: nat)
    requires Inv(st) && ev.Compact? && Next(st, ev, st') && Safe(st, ev) && SmallestSnapshot(st) <= s
    ensures Visible(All(st'), u, s) == Visible(All(st), u, s)
  {
    hide Inv, Legal, Disjoint, ValidFiles, Sorted, Installed, OutputNumbers, Survivors, Stored, Newer, Ran;
    hide Above, Visible, FileEntries, Resurrects, Elements;
    CompactionStepRan(st, ev.level, ev.inputs0, ev.inputs1, ev.input, ev.outputs, st');
    InvBounds(st);
    assert MemSet(st') == MemSet(st);
    ReadUnchanged(MemSet(st), st.version, ev.level, ev.inputs0, ev.inputs1, ev.input, SmallestSnapshot(st),
                  ev.outputs, st'.version, u, s);
  }

  lemma CompactRefines(st: State, ev: Event, st': State, spec: Spec)
    requires Inv(st) && ev.Compact? && Next(st, ev, st') && Safe(st, ev) && Refines(st, spec)
    ensures Refines(st', spec)
  {
    hide Visible, Inv, Next, Safe, All;
    SameReadSettings(st, ev, st');
    InvBounds(st);
    forall s: nat, m | SmallestSnapshot(st) <= s && ReadsLike(All(st), s, m) ensures ReadsLike(All(st'), s, m) {
      forall u ensures Visible(All(st'), u, s) == ReadOf(m, u) {
        CompactReadsSame(st, ev, st', u, s);
      }
    }
  }

  lemma SameReadSettings(st: State, ev: Event, st': State)
    requires ev.Compact? && Next(st, ev, st')
    ensures st'.snapshots == st.snapshots && st'.lastSequence == st.lastSequence
  {
  }

  /** And an unsafe one shows: some key reads differently at the oldest live snapshot. */
  lemma UnsafeCompactionShows(st: State, ev: Event, st': State) returns (u: UserKey)
    requires Inv(st) && ev.Compact? && Next(st, ev, st') && !Safe(st, ev)
    ensures Visible(All(st'), u, SmallestSnapshot(st)) != Visible(All(st), u, SmallestSnapshot(st))
  {
    hide Inv, Legal, Disjoint, ValidFiles, Sorted, Installed, OutputNumbers, Survivors, Stored, Newer, Ran;
    hide Above, Visible, FileEntries, Resurrects, Elements;
    CompactionStepRan(st, ev.level, ev.inputs0, ev.inputs1, ev.input, ev.outputs, st');
    assert MemSet(st') == MemSet(st);
    var x, y;
    u, x, y :| Resurrects(MemSet(st), st.version, ev.level, ev.inputs1, SmallestSnapshot(st), u, x, y);
    ResurrectionShows(MemSet(st), st.version, ev.level, ev.inputs0, ev.inputs1, ev.input, SmallestSnapshot(st),
                      ev.outputs, st'.version, u, x, y);
  }

  lemma SameContentsRefine(st: State, st': State, spec: Spec)
    requires Refines(st, spec) && All(st') == All(st) && st'.snapshots == st.snapshots &&
      st'.lastSequence == st.lastSequence
    ensures Refines(st', spec)
  {
  }

  lemma SnapshotRefines(st: State, spec: Spec)
    requires Refines(st, spec)
    ensures Refines(st.(snapshots := st.snapshots + [st.lastSequence]), spec.(saved := spec.saved + [spec.current]))
  {
    hide ReadsLike;
    assert All(st.(snapshots := st.snapshots + [st.lastSequence])) == All(st);
  }

  lemma ReleaseRefines(st: State, i: nat, spec: Spec)
    requires Refines(st, spec) && i < |st.snapshots|
    ensures Refines(st.(snapshots := st.snapshots[..i] + st.snapshots[i + 1..]),
                    spec.(saved := spec.saved[..i] + spec.saved[i + 1..]))
  {
    hide ReadsLike;
    assert All(st.(snapshots := st.snapshots[..i] + st.snapshots[i + 1..])) == All(st);
  }

  lemma UpkeepRefines(st: State, ev: Event, st': State, spec: Spec)
    requires Inv(st) && Next(st, ev, st') && Refines(st, spec) && (ev.Flush? || ev.Move? || ev.Switch?)
    ensures Refines(st', spec)
  {
    hide Inv, FlushStep, CompactStep, MoveStep, Refines, All;
    StepSettings(st, ev, st');
    match ev
    case Switch => SwitchKeepsInv(st); SameContentsRefine(st, st', spec);
    case Flush(level, size) => FlushKeepsInv(st, level, size, st'); SameContentsRefine(st, st', spec);
    case Move(level, file) => MoveKeepsInv(st, level, file, st'); SameContentsRefine(st, st', spec);
  }

  /** Every step is a step of the map, or none at all. */
  lemma StepRefines(st: State, ev: Event, st': State, spec: Spec)
    requires Inv(st) && Next(st, ev, st') && Safe(st, ev) && Refines(st, spec)
    ensures Refines(st', SpecNext(spec, ev))
  {
    hide Inv, FlushStep, CompactStep, MoveStep, Refines, All, Safe;
    match ev
    case Write(ops) => WriteRefines(st, ops, spec);
    case Compact(_, _, _, _, _) => CompactRefines(st, ev, st', spec);
    case Snapshot => SnapshotRefines(st, spec);
    case Release(i) => SavedPerSnapshot(st, spec); ReleaseRefines(st, i, spec);
    case _ => UpkeepRefines(st, ev, st', spec);
  }

  lemma SavedPerSnapshot(st: State, spec: Spec)
    requires Refines(st, spec)
    ensures |spec.saved| == |st.snapshots|
  {
  }

  lemma StepSettings(st: State, ev: Event, st': State)
    requires Next(st, ev, st') && (ev.Flush? || ev.Move? || ev.Switch?)
    ensures st'.snapshots == st.snapshots && st'.lastSequence == st.lastSequence
  {
  }

  // ---- runs --------------------------------------------------------------------------------

  ghost predicate Run(states: seq<State>, events: seq<Event>) {
    |states| == |events| + 1 && forall i :: 0 <= i < |events| ==> Next(states[i], events[i], states[i + 1])
  }

  function SpecRun(spec: Spec, events: seq<Event>): Spec
    decreases |events|
  {
    if |events| == 0 then spec else SpecRun(SpecNext(spec, events[0]), events[1..])
  }

  /** The tree keeps its shape over every run, whatever is compacted. */
  lemma {:induction false} RunKeepsInv(states: seq<State>, events: seq<Event>)
    requires Run(states, events) && Inv(states[0])
    ensures forall i :: 0 <= i < |states| ==> Inv(states[i])
    decreases |events|
  {
    hide Inv, Next;
    if |events| > 0 {
      var n := |events| - 1;
      RunKeepsInv(states[..n + 1], events[..n]);
      assert Inv(states[..n + 1][n]);
      StepKeepsInv(states[n], events[n], states[n + 1]);
      forall i | 0 <= i < |states| ensures Inv(states[i]) {
        assert i <= n ==> Inv(states[..n + 1][i]);
      }
    }
  }

  /** Over every run of safe steps the last state reads like the map after the same writes. */
  lemma {:induction false} RunRefinesMap(states: seq<State>, events: seq<Event>, spec: Spec)
    requires Run(states, events) && (forall i :: 0 <= i < |events| ==> Safe(states[i], events[i]))
    requires Inv(states[0]) && Refines(states[0], spec)
    ensures Inv(states[|events|]) && Refines(states[|events|], SpecRun(spec, events))
    decreases |events|
  {
    hide Inv, Refines, Next, Safe;
    if |events| > 0 {
      assert Next(states[0], events[0], states[1]);
      StepKeepsInv(states[0], events[0], states[1]);
      StepRefines(states[0], events[0], states[1], spec);
      forall i | 0 <= i < |events[1..]| ensures Next(states[1..][i], events[1..][i], states[1..][i + 1]) {
        assert Next(states[i + 1], events[i + 1], states[i + 2]);
      }
      forall i | 0 <= i < |events[1..]| ensures Safe(states[1..][i], events[1..][i]) {
        assert Safe(states[i + 1], events[i + 1]);
      }
      RunRefinesMap(states[1..], events[1..], SpecNext(spec, events[0]));
    }
  }

  const START := State([], None, [[], [], [], [], [], [], []], 0, [], 2)

  lemma NoFiles(v: Version, next: nat)
    requires |v| == NUM_LEVELS && forall l :: 0 <= l < NUM_LEVELS ==> v[l] == []
    ensures ValidVersion(v) && Ordered(v[0]) && Stored(v) == {} && NumbersBelow(v, next)
  {
    assert forall l :: 0 <= l < NUM_LEVELS ==> FileEntries(v[l]) == {};
  }

  /** A new database satisfies the invariant and reads like the empty map. */
  lemma StartRefinesEmpty(next: nat)
    ensures Inv(START.(nextFile := next)) && Refines(START.(nextFile := next), Spec(map[], []))
  {
    hide ValidVersion, Ordered, Stored, NumbersBelow;
    NoFiles(START.version, next);
    assert All(START.(nextFile := next)) == {};
  }
}
