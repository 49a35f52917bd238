/** Group commit against the database as a state machine: however the threads of WriteQueue.dfy interleave, the
  memtables hold what one writer would have put there, batch after batch in the order of the answers, and every reader
  sees the plain map behind some of the batches. */
module GroupCommit {
  import opened Options
  import opened InternalKeys
  import opened ReadSpec
  import opened Versions
  import opened Database
  import opened MapRefinement
  import opened CrashConsistency
  import Queue = WriteQueue

  /** No write to the log failed; a call may still have given up before it took a sequence number. */
  ghost predicate NoneFailed(handled: seq<Queue.Handled>) {
    forall i :: 0 <= i < |handled| ==> handled[i].ok || handled[i].ops == []
  }

  /** What the batches mean: nothing, if the write to the log failed. */
  function WritesOf(handled: seq<Queue.Handled>): (events: seq<Event>)
    ensures |events| == |handled|
  {
    seq(|handled|, i requires 0 <= i < |handled| => Write(if handled[i].ok then handled[i].ops else []))
  }

  /** A database that one writer took through the batches. */
  function AloneAfter(handled: seq<Queue.Handled>): (st: State)
    requires Queue.TotalOps(handled) < MAX_SEQUENCE
    ensures st.lastSequence == Queue.TotalOps(handled)
    decreases |handled|
  {
    if |handled| == 0 then START
    else
      var n := |handled| - 1;
      WriteMoves(AloneAfter(handled[..n]), handled[n].ops);
      WriteAll(AloneAfter(handled[..n]), handled[n].ops)
  }

  /** Its states, one per batch. */
  function StatesOf(handled: seq<Queue.Handled>): (states: seq<State>)
    requires Queue.TotalOps(handled) < MAX_SEQUENCE
    ensures |states| == |handled| + 1
  {
    seq(|handled| + 1, i requires 0 <= i <= |handled| => (PartIsSmaller(handled, i); AloneAfter(handled[..i])))
  }

  lemma PartIsSmaller(handled: seq<Queue.Handled>, i: nat)
    requires i <= |handled|
    ensures Queue.TotalOps(handled[..i]) <= Queue.TotalOps(handled)
  {
    Queue.TotalGrows(handled, i, |handled|);
    assert handled[..|handled|] == handled;
  }

  /** What is in the memtables, as entries. */
  ghost function EntriesOf(memory: seq<Queue.Insertion>): set<Entry> {
    set i | 0 <= i < |memory| && memory[i].sequence <= MAX_SEQUENCE :: EntryOf(memory[i].op, memory[i].sequence)
  }

  lemma EntriesBoth(a: seq<Queue.Insertion>, b: seq<Queue.Insertion>)
    ensures EntriesOf(a + b) == EntriesOf(a) + EntriesOf(b)
  {
    hide EntryOf;
    var all := a + b;
    forall i | 0 <= i < |b| && b[i].sequence <= MAX_SEQUENCE ensures EntryOf(b[i].op, b[i].sequence) in EntriesOf(all) {
      assert all[|a| + i] == b[i];
    }
    forall i | 0 <= i < |a| && a[i].sequence <= MAX_SEQUENCE ensures EntryOf(a[i].op, a[i].sequence) in EntriesOf(all) {
      assert all[i] == a[i];
    }
  }

  lemma EntriesOfOps(generation: nat, last: nat, ops: seq<Op>)
    ensures EntriesOf(Queue.InsertionsOf(generation, last + 1, ops)) == OpsEntries(ops, last)
  {
    hide EntryOf;
    var ins := Queue.InsertionsOf(generation, last + 1, ops);
    forall i | 0 <= i < |ops| ensures ins[i].op == ops[i] && ins[i].sequence == last + 1 + i {
    }
  }

  /** Batch by batch the one writer ends with what the group commits left in the memtables. */
  lemma {:induction false} AloneHolds(handled: seq<Queue.Handled>)
    requires Queue.Consecutive(handled) && NoneFailed(handled) && Queue.TotalOps(handled) < MAX_SEQUENCE
    ensures Inv(AloneAfter(handled)) && Elements(AloneAfter(handled).mem) == EntriesOf(Queue.Inserted(handled))
    decreases |handled|
  {
    hide Inv, Elements, EntriesOf, Queue.InsertionsOf, OpsEntries, WriteAll;
    if |handled| == 0 {
      StartRefinesEmpty(2);
      NoElements();
      NothingIn();
    } else {
      var n := |handled| - 1;
      var front, h := handled[..n], handled[n];
      assert forall i :: 0 <= i < n ==> front[..i] == handled[..i];
      AloneHolds(front);
      WriteAddsOps(AloneAfter(front), h.ops);
      WriteKeepsInv(AloneAfter(front), h.ops);
      EntriesOfOps(h.generation, Queue.TotalOps(front), h.ops);
      EntriesBoth(Queue.Inserted(front), Queue.InsertionsOf(h.generation, h.first, h.ops));
      if !h.ok {
        NothingWritten(AloneAfter(front));
      }
    }
  }

  lemma NothingIn()
    ensures EntriesOf([]) == {} && START.(nextFile := 2) == START && EntriesOf(Queue.Inserted([])) == {}
  {
  }

  lemma NothingWritten(st: State)
    ensures OpsEntries([], st.lastSequence) == {}
  {
  }

  // ---- a run of one writer ---------------------------------------------------------------------------------

  /** The batches, in the order of the answers, are writes of the state machine, one after the other. */
  lemma {:induction false} AloneRuns(handled: seq<Queue.Handled>)
    requires Queue.Consecutive(handled) && NoneFailed(handled) && Queue.TotalOps(handled) < MAX_SEQUENCE
    ensures Run(StatesOf(handled), WritesOf(handled)) && StatesOf(handled)[0] == START &&
      StatesOf(handled)[|handled|] == AloneAfter(handled)
    ensures forall k :: 0 <= k <= |handled| ==> StatesOf(handled)[k].lastSequence == Queue.TotalOps(handled[..k])
  {
    hide AloneAfter, Queue.TotalOps;
    var states, events := StatesOf(handled), WritesOf(handled);
    forall i | 0 <= i < |events| ensures Next(states[i], events[i], states[i + 1]) {
      OneWrite(handled, i);
    }
    assert handled[..|handled|] == handled;
    NothingAlone(handled[..0]);
  }

  lemma NothingAlone(none: seq<Queue.Handled>)
    requires none == []
    ensures Queue.TotalOps(none) == 0 && AloneAfter(none) == START
  {
  }

  lemma {:induction false} OneWrite(handled: seq<Queue.Handled>, i: nat)
    requires NoneFailed(handled) && Queue.TotalOps(handled) < MAX_SEQUENCE && i < |handled|
    ensures Next(StatesOf(handled)[i], WritesOf(handled)[i], StatesOf(handled)[i + 1])
  {
    hide WriteAll, AloneAfter, Queue.TotalOps;
    PartIsSmaller(handled, i);
    PartIsSmaller(handled, i + 1);
    AloneMore(handled[..i + 1], handled[..i]);
  }

  lemma {:induction false} AloneMore(handled: seq<Queue.Handled>, front: seq<Queue.Handled>)
    requires |handled| > 0 && front == handled[..|handled| - 1] && Queue.TotalOps(handled) < MAX_SEQUENCE
    ensures var ops := handled[|handled| - 1].ops;
      Queue.TotalOps(handled) == Queue.TotalOps(front) + |ops| &&
      AloneAfter(handled) == WriteAll(AloneAfter(front), ops)
  {
    hide WriteAll;
  }

  // ---- what readers see --------------------------------------------------------------------------------------

  /** No two entries of the memtables share a key and a sequence number. */
  lemma MemoryIsIdentified(s: Queue.State)
    requires Queue.Inv(s)
    ensures Identified(EntriesOf(s.memory))
  {
    hide Queue.Inv;
    forall x, y | x in EntriesOf(s.memory) && y in EntriesOf(s.memory) && x.key.user == y.key.user &&
      x.key.sequence == y.key.sequence
      ensures x == y
    {
      var i :| 0 <= i < |s.memory| && s.memory[i].sequence <= MAX_SEQUENCE &&
        x == EntryOf(s.memory[i].op, s.memory[i].sequence);
      var j :| 0 <= j < |s.memory| && s.memory[j].sequence <= MAX_SEQUENCE &&
        y == EntryOf(s.memory[j].op, s.memory[j].sequence);
      if i < j {
        Queue.SequencesIncrease(s, i, j);
      } else if j < i {
        Queue.SequencesIncrease(s, j, i);
      }
    }
  }

  lemma InvHistory(s: Queue.State)
    requires Queue.Inv(s)
    ensures Queue.Consecutive(s.handled) && Queue.TotalOps(s.handled) == s.lastSequence
    ensures s.memory == Queue.Inserted(s.handled) + Queue.InFlight(s)
    ensures forall i :: 0 <= i < |Queue.InFlight(s)| ==> s.lastSequence < Queue.InFlight(s)[i].sequence
    ensures forall i :: 0 <= i < |s.snapshots| ==> Queue.AtBoundary(s.handled, s.snapshots[i])
  {
    hide Queue.FirstComeFirstServed, Queue.OneLeader, Queue.FrontIsAwake, Queue.Answered, Queue.LogIsAhead;
    hide Queue.SyncInv;
    hide Queue.Consecutive, Queue.TotalOps;
    hide Queue.AtBoundary, Queue.Joined, Queue.Inserted;
  }

  lemma BelowBoth(a: set<Entry>, b: set<Entry>, s: nat)
    requires forall e :: e in b ==> s < e.key.sequence
    ensures Below(a + b, s) == Below(a, s)
  {
  }

  lemma FlightIsNewer(s: Queue.State, k: nat)
    requires Queue.Inv(s) && k <= s.lastSequence
    ensures forall e :: e in EntriesOf(Queue.InFlight(s)) ==> k < e.key.sequence
  {
    hide Queue.Inv, Queue.InFlight;
    InvHistory(s);
  }

  /** Entries that are no newer than last, one of each number, that read like the map. */
  ghost predicate ReadsNow(all: set<Entry>, last: nat, m: Contents) {
    Identified(all) && NoneAfter(all, last) && ReadsLike(all, last, m)
  }

  lemma OpReads(all: set<Entry>, last: nat, op: Op, m: Contents)
    requires ReadsNow(all, last, m) && last < MAX_SEQUENCE
    ensures ReadsNow(all + {EntryOf(op, last + 1)}, last + 1, ApplyOp(m, op))
  {
    hide Visible;
    var e := EntryOf(op, last + 1);
    forall u ensures Visible(all + {e}, u, last + 1) == ReadOf(ApplyOp(m, op), u) {
      NewReads(all, last, e, u);
      assert Visible(all, u, last) == ReadOf(m, u);
    }
  }

  lemma {:induction false} OpsRead(all: set<Entry>, last: nat, ops: seq<Op>, m: Contents)
    requires ReadsNow(all, last, m) && last + |ops| < MAX_SEQUENCE
    ensures ReadsNow(all + OpsEntries(ops, last), last + |ops|, ApplyOps(m, ops))
    decreases |ops|
  {
    hide ReadsNow, EntryOf;
    if |ops| == 0 {
      assert all + OpsEntries(ops, last) == all;
    } else {
      var e := EntryOf(ops[0], last + 1);
      OpReads(all, last, ops[0], m);
      OpsRead(all + {e}, last + 1, ops[1..], ApplyOp(m, ops[0]));
      FirstOp(ops, last);
      assert all + {e} + OpsEntries(ops[1..], last + 1) == all + OpsEntries(ops, last);
    }
  }

  /** Sequence numbers that a failed batch took and did not use change no read. */
  lemma SkippedReads(all: set<Entry>, last: nat, skipped: nat, m: Contents)
    requires ReadsNow(all, last, m)
    ensures ReadsNow(all, last + skipped, m)
  {
    hide Visible;
    assert Below(all, last) == all;
    forall u ensures Visible(all, u, last + skipped) == ReadOf(m, u) {
      BelowReads(all, u, last, last + skipped);
      assert Visible(all, u, last) == ReadOf(m, u);
    }
  }

  ghost function MapAfter(handled: seq<Queue.Handled>): Contents {
    SpecRun(Spec(map[], []), WritesOf(handled)).current
  }

  lemma MapMore(handled: seq<Queue.Handled>)
    requires |handled| > 0
    ensures handled[|handled| - 1].ok ==>
      MapAfter(handled) == ApplyOps(MapAfter(handled[..|handled| - 1]), handled[|handled| - 1].ops)
    ensures !handled[|handled| - 1].ok ==> MapAfter(handled) == MapAfter(handled[..|handled| - 1])
  {
    hide SpecRun;
    var n := |handled| - 1;
    SpecRunLast(Spec(map[], []), WritesOf(handled));
    assert WritesOf(handled)[..n] == WritesOf(handled[..n]);
    OtherEventsKeepCurrent(SpecRun(Spec(map[], []), WritesOf(handled[..n])), WritesOf(handled)[n]);
    NothingApplied(MapAfter(handled[..n]));
  }

  lemma NothingApplied(m: Contents)
    ensures ApplyOps(m, []) == m
  {
  }

  lemma NothingReads()
    ensures ReadsNow(EntriesOf(Queue.Inserted([])), 0, MapAfter([]))
  {
    NothingIn();
    NothingRun(Spec(map[], []), WritesOf([]));
  }

  /** What the handled batches left in the memtables reads like the map behind those whose log write succeeded. */
  lemma {:induction false} HandledReads(handled: seq<Queue.Handled>)
    requires Queue.Consecutive(handled) && Queue.TotalOps(handled) < MAX_SEQUENCE
    ensures ReadsNow(EntriesOf(Queue.Inserted(handled)), Queue.TotalOps(handled), MapAfter(handled))
    decreases |handled|
  {
    hide ReadsNow, EntriesOf, Queue.InsertionsOf, OpsEntries, MapAfter;
    if |handled| == 0 {
      NothingReads();
    } else {
      var n := |handled| - 1;
      var front, h := handled[..n], handled[n];
      assert forall i :: 0 <= i < n ==> front[..i] == handled[..i];
      HandledReads(front);
      MapMore(handled);
      var last := Queue.TotalOps(front);
      if h.ok {
        OpsRead(EntriesOf(Queue.Inserted(front)), last, h.ops, MapAfter(front));
        EntriesOfOps(h.generation, last, h.ops);
        EntriesBoth(Queue.Inserted(front), Queue.InsertionsOf(h.generation, h.first, h.ops));
      } else {
        SkippedReads(EntriesOf(Queue.Inserted(front)), last, |h.ops|, MapAfter(front));
        assert Queue.Inserted(front) + [] == Queue.Inserted(front);
      }
    }
  }

  /** One batch more adds nothing that is as old as s. */
  lemma BatchIsNewer(handled: seq<Queue.Handled>, front: seq<Queue.Handled>, s: nat)
    requires |handled| > 0 && front == handled[..|handled| - 1] && s < handled[|handled| - 1].first
    ensures Below(EntriesOf(Queue.Inserted(handled)), s) == Below(EntriesOf(Queue.Inserted(front)), s)
  {
    hide EntriesOf, Queue.InsertionsOf, Below;
    var h := handled[|handled| - 1];
    if h.ok {
      var more := Queue.InsertionsOf(h.generation, h.first, h.ops);
      EntriesBoth(Queue.Inserted(front), more);
      EntriesOfOps(h.generation, h.first - 1, h.ops);
      OpsAreNewer(h.ops, h.first - 1);
      BelowBoth(EntriesOf(Queue.Inserted(front)), EntriesOf(more), s);
    } else {
      assert Queue.Inserted(front) + [] == Queue.Inserted(front);
    }
  }

  lemma OpsAreNewer(ops: seq<Op>, last: nat)
    ensures forall e :: e in OpsEntries(ops, last) ==> last < e.key.sequence
  {
  }

  /** The batches behind the first k left nothing that is as old as these. */
  lemma {:induction false} LaterIsNewer(handled: seq<Queue.Handled>, k: nat)
    requires Queue.Consecutive(handled) && k <= |handled|
    ensures Below(EntriesOf(Queue.Inserted(handled)), Queue.TotalOps(handled[..k])) ==
      Below(EntriesOf(Queue.Inserted(handled[..k])), Queue.TotalOps(handled[..k]))
    decreases |handled|
  {
    hide EntriesOf, Below, Queue.Inserted, Queue.TotalOps;
    var n := |handled| - 1;
    if k == |handled| {
      assert handled[..k] == handled;
    } else {
      var front := handled[..n];
      assert front[..k] == handled[..k];
      FrontIsConsecutive(handled, n);
      LaterIsNewer(front, k);
      PartIsSmaller(front, k);
      assert handled[n].first == Queue.TotalOps(handled[..n]) + 1;
      BatchIsNewer(handled, front, Queue.TotalOps(handled[..k]));
    }
  }

  lemma FrontIsConsecutive(handled: seq<Queue.Handled>, k: nat)
    requires Queue.Consecutive(handled) && k <= |handled|
    ensures Queue.Consecutive(handled[..k])
  {
    assert forall i :: 0 <= i < k ==> handled[..k][..i] == handled[..i];
  }

  /** Whatever the threads are doing, a read at the boundary behind the first k batches is a read of the map behind
    those of them whose log write succeeded: so it is at the last sequence number, and at every snapshot. */
  lemma GroupCommitReads(s: Queue.State, k: nat)
    requires Queue.Inv(s) && s.lastSequence < MAX_SEQUENCE && k <= |s.handled|
    ensures ReadsLike(EntriesOf(s.memory), Queue.TotalOps(s.handled[..k]),
                      SpecRun(Spec(map[], []), WritesOf(s.handled)[..k]).current)
  {
    hide Queue.Inv, Visible, EntriesOf, Queue.Inserted, Queue.InFlight, SpecRun, WritesOf;
    var handled, boundary := s.handled, Queue.TotalOps(s.handled[..k]);
    InvHistory(s);
    PartIsSmaller(handled, k);
    FrontIsConsecutive(handled, k);
    HandledReads(handled[..k]);
    MemoryIsIdentified(s);
    EntriesBoth(Queue.Inserted(handled), Queue.InFlight(s));
    FlightIsNewer(s, boundary);
    BelowBoth(EntriesOf(Queue.Inserted(handled)), EntriesOf(Queue.InFlight(s)), boundary);
    LaterIsNewer(handled, k);
    FrontWrites(handled, k);
    forall u
      ensures Visible(EntriesOf(s.memory), u, boundary) ==
        ReadOf(SpecRun(Spec(map[], []), WritesOf(handled)[..k]).current, u)
    {
      BelowReads(EntriesOf(s.memory), u, boundary, boundary);
      BelowReads(EntriesOf(Queue.Inserted(handled[..k])), u, boundary, boundary);
    }
  }

  lemma FrontWrites(handled: seq<Queue.Handled>, k: nat)
    requires k <= |handled|
    ensures WritesOf(handled)[..k] == WritesOf(handled[..k])
  {
  }

  /** Every snapshot a thread has taken reads like the map behind some of the batches. */
  lemma SnapshotReadsMap(s: Queue.State, i: nat) returns (k: nat)
    requires Queue.Inv(s) && s.lastSequence < MAX_SEQUENCE && i < |s.snapshots|
    ensures k <= |s.handled| && s.snapshots[i] == Queue.TotalOps(s.handled[..k])
    ensures ReadsLike(EntriesOf(s.memory), s.snapshots[i], SpecRun(Spec(map[], []), WritesOf(s.handled)[..k]).current)
  {
    hide Queue.Inv, ReadsLike;
    InvHistory(s);
    k :| 0 <= k <= |s.handled| && s.snapshots[i] == Queue.TotalOps(s.handled[..k]);
    GroupCommitReads(s, k);
  }
}
