/** The write queue of DBImpl::Write in db/db_impl.cc: any number of writer threads, one mutex, group
  commit.  A step is what one thread does while it holds the mutex, or one action of the section in
  which the leader has released it.  Every interleaving of the steps is a run. */
module WriteQueue {
  import opened Options
  import Database
  import opened InternalKeys

  type Op = Database.Op

  /** One call of Write, identified by its Writer object. */
  type Id = nat

  /** A missing batch only asks for a memtable switch.  bytes is the encoded size of the batch. */
  datatype Request = Request(sync: bool, batch: Option<seq<Op>>, bytes: nat)

  function OpsOf(r: Request): seq<Op> {
    if r.batch.Some? then r.batch.value else []
  }

  function Joined(rs: seq<Request>): seq<Op> {
    if |rs| == 0 then [] else Joined(rs[..|rs| - 1]) + OpsOf(rs[|rs| - 1])
  }

  // ---- BuildBatchGroup ------------------------------------------------------------------

  function TotalBytes(rs: seq<Request>): nat {
    if |rs| == 0 then 0
    else TotalBytes(rs[..|rs| - 1]) + (if rs[|rs| - 1].batch.Some? then rs[|rs| - 1].bytes else 0)
  }

  /** At most 1 MB, and a small first batch is not slowed down by more than 128 KB of company. */
  function GroupLimit(first: nat): nat {
    if first <= 0x2_0000 then first + 0x2_0000 else 0x10_0000
  }

  /** May request i be committed in the group that request 0 leads? */
  predicate Joins(rs: seq<Request>, i: nat)
    requires 0 < i < |rs|
  {
    (rs[i].sync ==> rs[0].sync) && (rs[i].batch.Some? ==> TotalBytes(rs[..i + 1]) <= GroupLimit(rs[0].bytes))
  }

  /** The longest front segment whose members may all join. */
  ghost predicate GroupOf(rs: seq<Request>, n: nat) {
    0 < n <= |rs| && (forall i :: 0 < i < n ==> Joins(rs, i)) && (n < |rs| ==> !Joins(rs, n))
  }

  lemma FirstRequest(rs: seq<Request>)
    requires |rs| > 0
    ensures Joined(rs[..1]) == OpsOf(rs[0]) && TotalBytes(rs[..1]) == if rs[0].batch.Some? then rs[0].bytes else 0
  {
    assert rs[..1][..0] == [];
  }

  lemma OneMoreRequest(rs: seq<Request>, n: nat)
    requires n < |rs|
    ensures Joined(rs[..n + 1]) == Joined(rs[..n]) + OpsOf(rs[n])
    ensures TotalBytes(rs[..n + 1]) == TotalBytes(rs[..n]) + if rs[n].batch.Some? then rs[n].bytes else 0
  {
    assert rs[..n + 1][..n] == rs[..n];
  }

  method BuildBatchGroup(writers: seq<Request>) returns (result: seq<Op>, n: nat)
    requires |writers| > 0 && writers[0].batch.Some?
    ensures GroupOf(writers, n) && result == Joined(writers[..n])
    ensures (exists i :: 0 <= i < n && writers[i].sync) ==> writers[0].sync
    ensures var limit := if writers[0].bytes <= 0x2_0000 then writers[0].bytes + 0x2_0000 else 0x10_0000;
      (forall i :: 0 < i < n && writers[i].batch.Some? ==> TotalBytes(writers[..i + 1]) <= limit) &&
      (n < |writers| ==>
        (writers[n].sync && !writers[0].sync) || (writers[n].batch.Some? && TotalBytes(writers[..n + 1]) > limit))
  {
    hide TotalBytes, Joined;
    result := writers[0].batch.value;
    var size := writers[0].bytes;
    var maxSize := 0x10_0000;
    if size <= 0x2_0000 {
      maxSize := size + 0x2_0000;
    }
    n := 1;
    FirstRequest(writers);
    while n < |writers|
      invariant 0 < n <= |writers| && size == TotalBytes(writers[..n]) && result == Joined(writers[..n])
      invariant forall i :: 0 < i < n ==> Joins(writers, i)
      invariant forall i :: 0 <= i < n && writers[i].sync ==> writers[0].sync
      invariant forall i :: 0 < i < n && writers[i].batch.Some? ==> TotalBytes(writers[..i + 1]) <= maxSize
    {
      var w := writers[n];
      OneMoreRequest(writers, n);
      if w.sync && !writers[0].sync {
        break;
      }
      if w.batch.Some? {
        size := size + w.bytes;
        if size > maxSize {
          break;
        }
        result := result + w.batch.value;
      }
      n := n + 1;
    }
  }

  // ---- the state -------------------------------------------------------------------------

  /** Where a thread is in Write.  Applying is the unlocked section. */
  datatype Phase =
    | Waiting
    | MakingRoom
    | Applying(count: nat, last: nat, ops: seq<Op>, logged: bool, failed: bool, inserted: nat)
    | Done(ok: bool)

  /** One record in one log file; log and memtable are replaced together and share a generation.  A record is synced
    if the log file was, behind it. */
  datatype Record = Record(generation: nat, base: nat, ops: seq<Op>, synced: bool)
  datatype Insertion = Insertion(generation: nat, sequence: nat, op: Op)

  /** What became of a request: the sequence numbers its batch was given, and its status. */
  datatype Handled = Handled(writer: Id, first: nat, ops: seq<Op>, generation: nat, ok: bool)

  /** What came of adding a record: an error with or without the record in the file, a file that could not be synced
    although the leader had asked for it, or no error. */
  datatype Logged = AddFailed(written: bool) | SyncFailed | Added

  /** stopped says that an error of Sync was recorded, behind which MakeRoomForWrite fails.
    arrivals and handled are history: all calls in the order they queued up, and all that returned. */
  datatype State = State(queue: seq<Id>, requests: map<Id, Request>, phases: map<Id, Phase>, awake: set<Id>,
                         lastSequence: nat, generation: nat, log: seq<Record>, memory: seq<Insertion>,
                         snapshots: seq<nat>, stopped: bool, arrivals: seq<Id>, handled: seq<Handled>)

  const INIT := State([], map[], map[], {}, 0, 0, [], [], [], false, [], [])

  datatype Step =
    | Enqueue(w: Id, r: Request)
    | Check(w: Id)
    | SwitchMemTable(w: Id)
    | GiveUp(w: Id)
    | NoBatch(w: Id)
    | StartGroup(w: Id, count: nat)
    | AddRecord(w: Id, outcome: Logged)
    | InsertNext(w: Id)
    | Finish(w: Id)
    | TakeSnapshot

  function RequestsOf(s: State, ids: seq<Id>): (rs: seq<Request>)
    ensures |rs| == |ids|
  {
    seq(|ids|, i requires 0 <= i < |ids| => if ids[i] in s.requests then s.requests[ids[i]]
        else Request(false, None, 0))
  }

  predicate At(s: State, w: Id) {
    w in s.requests && w in s.phases
  }

  /** The guards are the code's own tests; none of them says that a thread is alone. */
  ghost predicate Enabled(s: State, step: Step) {
    match step
    case Enqueue(w, r) => w !in s.requests
    case Check(w) => At(s, w) && s.phases[w].Waiting? && w in s.awake && |s.queue| > 0
    case SwitchMemTable(w) => At(s, w) && s.phases[w].MakingRoom? && !s.stopped
    case GiveUp(w) => At(s, w) && s.phases[w].MakingRoom? && |s.queue| > 0
    case NoBatch(w) =>
      At(s, w) && s.phases[w].MakingRoom? && !s.stopped && s.requests[w].batch.None? && |s.queue| > 0
    case StartGroup(w, n) =>
      At(s, w) && s.phases[w].MakingRoom? && !s.stopped && s.requests[w].batch.Some? &&
      GroupOf(RequestsOf(s, s.queue), n)
    case AddRecord(w, outcome) =>
      At(s, w) && s.phases[w].Applying? && !s.phases[w].logged && (outcome.SyncFailed? ==> s.requests[w].sync)
    case InsertNext(w) =>
      At(s, w) && s.phases[w].Applying? && s.phases[w].logged && !s.phases[w].failed &&
      s.phases[w].inserted < |s.phases[w].ops|
    case Finish(w) =>
      At(s, w) && s.phases[w].Applying? && s.phases[w].logged && s.phases[w].count <= |s.queue| &&
      (s.phases[w].failed || s.phases[w].inserted == |s.phases[w].ops|)
    case TakeSnapshot => true
  }

  function Outcomes(ids: seq<Id>, rs: seq<Request>, first: nat, generation: nat, ok: bool): seq<Handled>
    requires |ids| == |rs|
  {
    if |ids| == 0 then []
    else
      var n := |ids| - 1;
      Outcomes(ids[..n], rs[..n], first, generation, ok) +
      [Handled(ids[n], first + |Joined(rs[..n])|, OpsOf(rs[n]), generation, ok)]
  }

  /** The last loop of Write: pop up to the last writer of the group, wake its members and the new front. */
  function Pop(s: State, n: nat, ok: bool, outcomes: seq<Handled>): State
    requires n <= |s.queue|
  {
    var group := s.queue[..n];
    s.(queue := s.queue[n..],
       phases := map w | w in s.phases :: if w in group then Done(ok) else s.phases[w],
       awake := s.awake + (set w | w in group) + (if n < |s.queue| then {s.queue[n]} else {}),
       handled := s.handled + outcomes)
  }

  function After(s: State, step: Step): State
    requires Enabled(s, step)
  {
    match step
    case Enqueue(w, r) =>
      s.(queue := s.queue + [w], requests := s.requests[w := r], phases := s.phases[w := Waiting],
         awake := s.awake + {w},
         arrivals := s.arrivals + [w])
    case Check(w) => if w == s.queue[0] then s.(phases := s.phases[w := MakingRoom]) else s.(awake := s.awake - {w})
    case SwitchMemTable(w) => s.(generation := s.generation + 1)
    case GiveUp(w) => Pop(s, 1, false, [Handled(s.queue[0], s.lastSequence + 1, [], s.generation, false)])
    case NoBatch(w) => Pop(s, 1, true, [Handled(s.queue[0], s.lastSequence + 1, [], s.generation, true)])
    case StartGroup(w, n) =>
      s.(phases := s.phases[w := Applying(n, s.lastSequence, Joined(RequestsOf(s, s.queue)[..n]), false, false, 0)])
    case AddRecord(w, outcome) =>
      var p := s.phases[w];
      var synced := outcome.Added? && s.requests[w].sync;
      s.(phases := s.phases[w := p.(logged := true, failed := !outcome.Added?)],
         log := if outcome == AddFailed(false) then s.log
         else s.log + [Record(s.generation, p.last + 1, p.ops, synced)],
         stopped := s.stopped || outcome.SyncFailed?)
    case InsertNext(w) =>
      var p := s.phases[w];
      s.(phases := s.phases[w := p.(inserted := p.inserted + 1)],
         memory := s.memory + [Insertion(s.generation, p.last + 1 + p.inserted, p.ops[p.inserted])])
    case Finish(w) =>
      var p := s.phases[w];
      Pop(s, p.count, !p.failed,
          Outcomes(s.queue[..p.count], RequestsOf(s, s.queue)[..p.count], p.last + 1, s.generation, !p.failed))
        .(lastSequence := p.last + |p.ops|)
    case TakeSnapshot => s.(snapshots := s.snapshots + [s.lastSequence])
  }

  ghost predicate Next(s: State, step: Step, s': State) {
    Enabled(s, step) && s' == After(s, step)
  }

  // ---- the invariant -----------------------------------------------------------------------

  ghost predicate NoDup(ids: seq<Id>) {
    forall i, j :: 0 <= i < j < |ids| ==> ids[i] != ids[j]
  }

  function Writers(handled: seq<Handled>): (ids: seq<Id>)
    ensures |ids| == |handled|
  {
    seq(|handled|, i requires 0 <= i < |handled| => handled[i].writer)
  }

  /** Every call is answered at most once, in the order the calls queued up, and none is lost. */
  ghost predicate FirstComeFirstServed(s: State) {
    s.arrivals == Writers(s.handled) + s.queue && NoDup(s.arrivals) && forall w :: w in s.requests <==> w in s.arrivals
  }

  ghost predicate Leads(s: State, w: Id) {
    |s.queue| > 0 && s.queue[0] == w
  }

  /** Only the front of the queue is past its wait loop, so nobody else is in the unlocked section. */
  ghost predicate OneLeader(s: State) {
    (forall w :: w in s.phases <==> w in s.requests) &&
    (forall w :: w in s.phases && (s.phases[w].MakingRoom? || s.phases[w].Applying?) ==> Leads(s, w)) &&
    (forall w :: w in s.phases && w !in s.queue ==> s.phases[w].Done?) &&
    (forall w :: w in s.queue ==> w in s.phases && !s.phases[w].Done?)
  }

  /** No wake-up is lost: a front writer that still waits is going to look again. */
  ghost predicate FrontIsAwake(s: State) {
    forall w :: Leads(s, w) && w in s.phases && s.phases[w].Waiting? ==> w in s.awake
  }

  function TotalOps(handled: seq<Handled>): nat {
    if |handled| == 0 then 0 else TotalOps(handled[..|handled| - 1]) + |handled[|handled| - 1].ops|
  }

  /** The batches use up the sequence numbers one after the other. */
  ghost predicate Consecutive(handled: seq<Handled>) {
    forall i :: 0 <= i < |handled| ==> handled[i].first == TotalOps(handled[..i]) + 1
  }

  function InsertionsOf(generation: nat, first: nat, ops: seq<Op>): (ins: seq<Insertion>)
    ensures |ins| == |ops|
  {
    seq(|ops|, i requires 0 <= i < |ops| => Insertion(generation, first + i, ops[i]))
  }

  /** What the handled batches put into the memtables. */
  function Inserted(handled: seq<Handled>): seq<Insertion> {
    if |handled| == 0 then []
    else
      var h := handled[|handled| - 1];
      Inserted(handled[..|handled| - 1]) + (if h.ok then InsertionsOf(h.generation, h.first, h.ops) else [])
  }

  /** What the group being applied has put there so far. */
  function InFlight(s: State): seq<Insertion> {
    if |s.queue| > 0 && s.queue[0] in s.phases && s.phases[s.queue[0]].Applying? then
      var p := s.phases[s.queue[0]];
      if p.inserted <= |p.ops| then InsertionsOf(s.generation, p.last + 1, p.ops[..p.inserted]) else []
    else []
  }

  /** The unlocked section works on the batches at the front of the queue, numbered from where the last group ended. */
  ghost predicate GroupIsFront(s: State) {
    forall w :: w in s.phases && s.phases[w].Applying? ==>
      var p := s.phases[w];
      0 < p.count <= |s.queue| && p.ops == Joined(RequestsOf(s, s.queue[..p.count])) && p.last == s.lastSequence &&
      p.inserted <= |p.ops| && (!p.logged || p.failed ==> p.inserted == 0) &&
      (p.logged && !p.failed ==>
        w in s.requests && Record(s.generation, p.last + 1, p.ops, s.requests[w].sync) in s.log)
  }

  /** Nobody in the group asked for more than its leader. */
  ghost predicate LeaderSyncs(s: State) {
    forall w :: w in s.phases && s.phases[w].Applying? ==>
      w in s.requests && s.phases[w].count <= |s.queue| &&
      forall i :: 0 <= i < s.phases[w].count && s.queue[i] in s.requests && s.requests[s.queue[i]].sync ==>
        s.requests[w].sync
  }

  /** Once a sync has failed, a group that is still being applied is the one whose sync it was. */
  ghost predicate StopsTheGroup(s: State) {
    s.stopped ==> forall w :: w in s.phases && s.phases[w].Applying? ==> s.phases[w].logged && s.phases[w].failed
  }

  ghost predicate SequencesInOrder(s: State) {
    Consecutive(s.handled) && TotalOps(s.handled) == s.lastSequence
  }

  /** The memtables hold exactly the batches of the calls that succeeded, once each and in order, and a front part of
    the current group. */
  ghost predicate MemoryIsHistory(s: State) {
    s.memory == Inserted(s.handled) + InFlight(s)
  }

  ghost predicate Covers(r: Record, m: Insertion) {
    r.generation == m.generation && r.base <= m.sequence < r.base + |r.ops| && r.ops[m.sequence - r.base] == m.op
  }

  /** Log first: whatever is in a memtable is in a record of the log file that goes with it. */
  ghost predicate LogIsAhead(s: State) {
    forall m :: m in s.memory ==> exists r :: r in s.log && Covers(r, m)
  }

  /** A snapshot falls between two batches. */
  ghost predicate AtBoundary(handled: seq<Handled>, snapshot: nat) {
    exists k :: 0 <= k <= |handled| && snapshot == TotalOps(handled[..k])
  }

  ghost predicate SnapshotsAtBoundaries(s: State) {
    forall i :: 0 <= i < |s.snapshots| ==> AtBoundary(s.handled, s.snapshots[i])
  }

  ghost predicate AnsweredAs(s: State, h: Handled) {
    At(s, h.writer) && s.phases[h.writer] == Done(h.ok) && (h.ok ==> h.ops == OpsOf(s.requests[h.writer]))
  }

  /** A call that returned has the status of its group, and if that is OK its whole batch was applied. */
  ghost predicate Answered(s: State) {
    forall h :: h in s.handled ==> AnsweredAs(s, h)
  }

  /** The record has the whole batch of h, under the numbers it was given. */
  ghost predicate Holds(r: Record, h: Handled) {
    r.generation == h.generation && r.base <= h.first && h.first + |h.ops| <= r.base + |r.ops| &&
    r.ops[h.first - r.base..h.first - r.base + |h.ops|] == h.ops
  }

  ghost predicate InLog(log: seq<Record>, h: Handled, sync: bool) {
    exists r :: r in log && Holds(r, h) && (sync ==> r.synced)
  }

  /** A batch that was answered OK is in a record of the log, and in a synced one if its caller had asked for that. */
  ghost predicate KeptAsAsked(s: State) {
    forall h :: h in s.handled && h.ok && h.ops != [] ==>
      h.writer in s.requests && InLog(s.log, h, s.requests[h.writer].sync)
  }

  ghost predicate Inv(s: State) {
    FirstComeFirstServed(s) && OneLeader(s) && FrontIsAwake(s) && Answered(s) && GroupIsFront(s) &&
    SequencesInOrder(s) && MemoryIsHistory(s) && LogIsAhead(s) && SnapshotsAtBoundaries(s) && SyncInv(s)
  }

  ghost predicate SyncInv(s: State) {
    LeaderSyncs(s) && StopsTheGroup(s) && KeptAsAsked(s)
  }

  // ---- what a group leaves behind ------------------------------------------------------------

  lemma {:induction false} OutcomesAppend(h: seq<Handled>, ids: seq<Id>, rs: seq<Request>, generation: nat, ok: bool)
    requires |ids| == |rs| && Consecutive(h)
    ensures var h' := h + Outcomes(ids, rs, TotalOps(h) + 1, generation, ok);
      Consecutive(h') && TotalOps(h') == TotalOps(h) + |Joined(rs)| && Writers(h') == Writers(h) + ids &&
      Inserted(h') == Inserted(h) + (if ok then InsertionsOf(generation, TotalOps(h) + 1, Joined(rs)) else [])
  {
    hide Consecutive, TotalOps, Inserted, InsertionsOf, Joined;
    if |ids| == 0 {
      assert h + [] == h && Joined(rs) == [] by { NothingJoined(); }
    } else {
      var n := |ids| - 1;
      var first := TotalOps(h) + 1;
      OutcomesAppend(h, ids[..n], rs[..n], generation, ok);
      var before := h + Outcomes(ids[..n], rs[..n], first, generation, ok);
      var last := Handled(ids[n], first + |Joined(rs[..n])|, OpsOf(rs[n]), generation, ok);
      assert h + Outcomes(ids, rs, first, generation, ok) == before + [last];
      OneMore(before, last);
      assert ids == ids[..n] + [ids[n]];
      assert rs[..n + 1] == rs;
      OneMoreRequest(rs, n);
      InsertionsConcat(generation, first, Joined(rs[..n]), last.ops);
    }
  }

  lemma NothingJoined()
    ensures Joined([]) == [] && forall g, f :: InsertionsOf(g, f, []) == []
  {
  }

  lemma InsertionsConcat(generation: nat, first: nat, a: seq<Op>, b: seq<Op>)
    ensures InsertionsOf(generation, first, a + b) ==
      InsertionsOf(generation, first, a) + InsertionsOf(generation, first + |a|, b)
  {
  }

  lemma OneMore(h: seq<Handled>, last: Handled)
    requires Consecutive(h) && last.first == TotalOps(h) + 1
    ensures var h' := h + [last];
      Consecutive(h') && TotalOps(h') == TotalOps(h) + |last.ops| && Writers(h') == Writers(h) + [last.writer] &&
      Inserted(h') == Inserted(h) + (if last.ok then InsertionsOf(last.generation, last.first, last.ops) else [])
  {
    hide InsertionsOf, TotalOps, Consecutive, Inserted;
    FoldsGrow(h, last);
    RangesGrow(h, last);
    assert Writers(h + [last]) == Writers(h) + [last.writer];
  }

  lemma FoldsGrow(h: seq<Handled>, last: Handled)
    ensures TotalOps(h + [last]) == TotalOps(h) + |last.ops|
    ensures Inserted(h + [last]) ==
      Inserted(h) + (if last.ok then InsertionsOf(last.generation, last.first, last.ops) else [])
  {
    hide InsertionsOf;
    assert (h + [last])[..|h|] == h;
  }

  lemma RangesGrow(h: seq<Handled>, last: Handled)
    requires Consecutive(h) && last.first == TotalOps(h) + 1
    ensures Consecutive(h + [last])
  {
    hide TotalOps;
    var h' := h + [last];
    forall i | 0 <= i < |h'| ensures h'[i].first == TotalOps(h'[..i]) + 1 {
      assert h'[..i] == h[..i];
    }
  }

  lemma BoundaryStays(h: seq<Handled>, more: seq<Handled>, snapshot: nat)
    requires AtBoundary(h, snapshot)
    ensures AtBoundary(h + more, snapshot)
  {
    var k :| 0 <= k <= |h| && snapshot == TotalOps(h[..k]);
    assert (h + more)[..k] == h[..k];
  }

  // ---- the queue -----------------------------------------------------------------------------

  ghost predicate QueueInv(s: State) {
    FirstComeFirstServed(s) && OneLeader(s) && FrontIsAwake(s)
  }

  lemma QueuedArrived(s: State)
    requires FirstComeFirstServed(s)
    ensures forall w :: w in s.queue ==> w in s.requests
  {
  }

  lemma EnqueueKeepsQueue(s: State, w: Id, r: Request)
    requires QueueInv(s) && Enabled(s, Enqueue(w, r))
    ensures QueueInv(After(s, Enqueue(w, r)))
  {
    var s' := After(s, Enqueue(w, r));
    assert s'.arrivals == Writers(s'.handled) + s'.queue;
    QueuedArrived(s);
  }

  lemma CheckKeepsQueue(s: State, w: Id)
    requires QueueInv(s) && Enabled(s, Check(w))
    ensures QueueInv(After(s, Check(w)))
  {
    hide NoDup;
    if w == s.queue[0] {
      LeaderKeepsQueue(s, w, MakingRoom);
    }
  }

  /** Steps of the leader that stay at the front. */
  lemma LeaderKeepsQueue(s: State, w: Id, p: Phase)
    requires QueueInv(s) && Leads(s, w) && (p.MakingRoom? || p.Applying?)
    ensures QueueInv(s.(phases := s.phases[w := p]))
  {
    hide NoDup;
    assert w in s.queue;
  }

  lemma WritersConcat(a: seq<Handled>, b: seq<Handled>)
    ensures Writers(a + b) == Writers(a) + Writers(b)
  {
  }

  lemma QueueHasNoDup(s: State)
    requires FirstComeFirstServed(s)
    ensures NoDup(s.queue)
  {
    var n := |s.handled|;
    assert forall i :: 0 <= i < |s.queue| ==> s.queue[i] == s.arrivals[n + i];
  }

  lemma PopKeepsOrder(s: State, n: nat, ok: bool, outcomes: seq<Handled>)
    requires FirstComeFirstServed(s) && 0 < n <= |s.queue| && Writers(outcomes) == s.queue[..n]
    ensures FirstComeFirstServed(Pop(s, n, ok, outcomes))
  {
    hide NoDup;
    WritersConcat(s.handled, outcomes);
    assert s.queue == s.queue[..n] + s.queue[n..];
    assert Pop(s, n, ok, outcomes).arrivals == Writers(s.handled + outcomes) + s.queue[n..];
  }

  lemma PopKeepsLeader(s: State, n: nat, ok: bool, outcomes: seq<Handled>)
    requires OneLeader(s) && NoDup(s.queue) && 0 < n <= |s.queue|
    ensures var s' := Pop(s, n, ok, outcomes);
      OneLeader(s') && FrontIsAwake(s') && forall w :: w in s'.phases ==> s'.phases[w].Waiting? || s'.phases[w].Done?
  {
    hide NoDup, OneLeader;
    RestIsWaiting(s, n);
    GroupIsDone(s, n);
    var s' := Pop(s, n, ok, outcomes);
    assert OneLeader(s') by { LeaderAgain(s, n, ok, outcomes); }
  }

  lemma GroupIsDone(s: State, n: nat)
    requires OneLeader(s) && 0 < n <= |s.queue|
    ensures forall w :: w in s.phases && w !in s.queue[..n] ==> s.phases[w].Waiting? || s.phases[w].Done?
  {
    assert s.queue[..n][0] == s.queue[0];
  }

  lemma LeaderAgain(s: State, n: nat, ok: bool, outcomes: seq<Handled>)
    requires OneLeader(s) && 0 < n <= |s.queue|
    requires forall w :: w in s.queue[n..] ==>
      w in s.queue && w !in s.queue[..n] && w in s.phases && s.phases[w].Waiting?
    requires forall w :: w in s.phases && w !in s.queue[..n] ==> s.phases[w].Waiting? || s.phases[w].Done?
    ensures OneLeader(Pop(s, n, ok, outcomes))
  {
    assert s.queue == s.queue[..n] + s.queue[n..];
    assert forall w :: w in s.queue ==> w in s.queue[..n] || w in s.queue[n..];
  }

  lemma PopKeepsQueue(s: State, n: nat, ok: bool, outcomes: seq<Handled>)
    requires QueueInv(s) && 0 < n <= |s.queue| && Writers(outcomes) == s.queue[..n]
    ensures var s' := Pop(s, n, ok, outcomes);
      QueueInv(s') && forall w :: w in s'.phases ==> s'.phases[w].Waiting? || s'.phases[w].Done?
  {
    hide NoDup, FirstComeFirstServed, OneLeader, FrontIsAwake, Pop;
    QueueHasNoDup(s);
    PopKeepsOrder(s, n, ok, outcomes);
    PopKeepsLeader(s, n, ok, outcomes);
  }

  /** Whoever is behind a popped group was not in it, and is still in its wait loop. */
  lemma RestIsWaiting(s: State, n: nat)
    requires OneLeader(s) && NoDup(s.queue) && 0 < n <= |s.queue|
    ensures forall w :: w in s.queue[n..] ==>
      w in s.queue && w !in s.queue[..n] && w in s.phases && s.phases[w].Waiting?
  {
    forall w | w in s.queue[n..] ensures w in s.queue && w !in s.queue[..n] && s.phases[w].Waiting? {
      var i :| 0 <= i < |s.queue[n..]| && s.queue[n..][i] == w;
      assert s.queue[n + i] == w;
    }
  }

  // ---- what is written -------------------------------------------------------------------------

  ghost predicate ContentInv(s: State) {
    GroupIsFront(s) && SequencesInOrder(s) && MemoryIsHistory(s) && LogIsAhead(s) && SnapshotsAtBoundaries(s)
  }

  ghost predicate NobodyApplies(s: State) {
    forall w :: w in s.phases ==> !s.phases[w].Applying?
  }

  lemma EnqueueKeepsContent(s: State, w: Id, r: Request)
    requires QueueInv(s) && ContentInv(s) && Enabled(s, Enqueue(w, r))
    ensures ContentInv(After(s, Enqueue(w, r)))
  {
    hide Joined, Inserted, Consecutive, FrontIsAwake, Covers, InsertionsOf, TotalOps, FirstComeFirstServed;
    hide GroupIsFront;
    var s' := After(s, Enqueue(w, r));
    QueuedArrived(s);
    EnqueueKeepsGroup(s, w, r);
    assert |s.queue| > 0 ==> s'.queue[0] == s.queue[0] && s.queue[0] in s.queue;
    assert InFlight(s') == InFlight(s);
  }

  lemma EnqueueKeepsGroup(s: State, w: Id, r: Request)
    requires GroupIsFront(s) && w !in s.requests && (forall x :: x in s.phases ==> x in s.requests)
    requires forall x :: x in s.queue ==> x in s.requests
    ensures GroupIsFront(After(s, Enqueue(w, r)))
  {
    hide Joined;
    var s' := After(s, Enqueue(w, r));
    forall n | 0 <= n <= |s.queue| ensures RequestsOf(s', s'.queue[..n]) == RequestsOf(s, s.queue[..n]) {
      assert s'.queue[..n] == s.queue[..n];
    }
  }

  /** While the leader makes room nothing is in flight; it may even replace the memtable. */
  lemma QuietKeepsContent(s: State, s': State)
    requires ContentInv(s) && NobodyApplies(s) && NobodyApplies(s')
    requires s'.handled == s.handled && s'.memory == s.memory && s'.log == s.log && s'.lastSequence == s.lastSequence
    requires s'.snapshots == s.snapshots
    ensures ContentInv(s')
  {
    hide Inserted, Consecutive, Covers;
  }

  lemma LeaderIsAlone(s: State, w: Id)
    requires OneLeader(s) && w in s.phases && s.phases[w].MakingRoom?
    ensures NobodyApplies(s) && Leads(s, w)
  {
  }

  lemma StartKeepsContent(s: State, w: Id, n: nat)
    requires OneLeader(s) && ContentInv(s) && Enabled(s, StartGroup(w, n))
    ensures ContentInv(After(s, StartGroup(w, n)))
  {
    hide Inserted, Consecutive, Covers, Joined, GroupOf;
    LeaderIsAlone(s, w);
    var s' := After(s, StartGroup(w, n));
    GroupInQueue(s, n);
    assert RequestsOf(s', s'.queue[..n]) == RequestsOf(s, s.queue)[..n];
    assert InFlight(s') == [] == InFlight(s);
  }

  lemma GroupInQueue(s: State, n: nat)
    requires GroupOf(RequestsOf(s, s.queue), n)
    ensures 0 < n <= |s.queue|
  {
  }

  lemma ApplierIsAlone(s: State, w: Id)
    requires OneLeader(s) && w in s.phases && s.phases[w].Applying?
    ensures Leads(s, w) && forall x :: x in s.phases && x != w ==> !s.phases[x].Applying?
  {
  }

  lemma AddRecordKeepsContent(s: State, w: Id, outcome: Logged)
    requires OneLeader(s) && ContentInv(s) && Enabled(s, AddRecord(w, outcome))
    ensures ContentInv(After(s, AddRecord(w, outcome)))
  {
    hide Inserted, Consecutive, Joined, OneLeader, Covers;
    ApplierIsAlone(s, w);
    var s' := After(s, AddRecord(w, outcome));
    assert RequestsOf(s', s'.queue[..s.phases[w].count]) == RequestsOf(s, s.queue[..s.phases[w].count]);
    assert InFlight(s') == [] == InFlight(s);
  }

  lemma InsertKeepsContent(s: State, w: Id)
    requires OneLeader(s) && ContentInv(s) && Enabled(s, InsertNext(w))
    ensures ContentInv(After(s, InsertNext(w)))
  {
    hide Inserted, Consecutive, Joined, OneLeader, Covers, LogIsAhead, GroupIsFront;
    ApplierIsAlone(s, w);
    var s', p := After(s, InsertNext(w)), s.phases[w];
    assert GroupIsFront(s') by { InsertKeepsGroup(s, w); }
    var next := Insertion(s.generation, p.last + 1 + p.inserted, p.ops[p.inserted]);
    assert InFlight(s') == InFlight(s) + [next] by {
      assert p.ops[..p.inserted + 1] == p.ops[..p.inserted] + [p.ops[p.inserted]];
    }
    assert LogIsAhead(s') by { NextIsLogged(s, w, next); }
  }

  lemma InsertKeepsGroup(s: State, w: Id)
    requires GroupIsFront(s) && Enabled(s, InsertNext(w)) &&
      forall x :: x in s.phases && x != w ==> !s.phases[x].Applying?
    ensures GroupIsFront(After(s, InsertNext(w)))
  {
    hide Joined;
    var s' := After(s, InsertNext(w));
    assert RequestsOf(s', s'.queue[..s.phases[w].count]) == RequestsOf(s, s.queue[..s.phases[w].count]);
  }

  lemma NextIsLogged(s: State, w: Id, next: Insertion)
    requires GroupIsFront(s) && LogIsAhead(s) && Enabled(s, InsertNext(w))
    requires var p := s.phases[w]; next == Insertion(s.generation, p.last + 1 + p.inserted, p.ops[p.inserted])
    ensures LogIsAhead(After(s, InsertNext(w)))
  {
    hide Joined;
    var p := s.phases[w];
    assert Covers(Record(s.generation, p.last + 1, p.ops, s.requests[w].sync), next);
  }

  /** One call leaves alone, with no sequence numbers used. */
  lemma PopOneKeepsContent(s: State, w: Id, ok: bool)
    requires QueueInv(s) && ContentInv(s) && At(s, w) && s.phases[w].MakingRoom? && |s.queue| > 0
    ensures var outcome := Handled(s.queue[0], s.lastSequence + 1, [], s.generation, ok);
      QueueInv(Pop(s, 1, ok, [outcome])) && ContentInv(Pop(s, 1, ok, [outcome]))
  {
    hide Inserted, Consecutive, Covers, NoDup, OneLeader, FirstComeFirstServed, FrontIsAwake;
    var outcome := Handled(s.queue[0], s.lastSequence + 1, [], s.generation, ok);
    LeaderIsAlone(s, w);
    assert Writers([outcome]) == s.queue[..1];
    PopKeepsQueue(s, 1, ok, [outcome]);
    OneMore(s.handled, outcome);
    AtBoundaries(s, [outcome]);
    var s' := Pop(s, 1, ok, [outcome]);
    assert NobodyApplies(s');
    assert InFlight(s) == [] == InFlight(s');
    assert Inserted(s'.handled) == Inserted(s.handled);
  }

  lemma AtBoundaries(s: State, more: seq<Handled>)
    requires SnapshotsAtBoundaries(s)
    ensures forall i :: 0 <= i < |s.snapshots| ==> AtBoundary(s.handled + more, s.snapshots[i])
  {
    hide AtBoundary;
    forall i | 0 <= i < |s.snapshots| ensures AtBoundary(s.handled + more, s.snapshots[i]) {
      BoundaryStays(s.handled, more, s.snapshots[i]);
    }
  }

  lemma FinishKeepsInv(s: State, w: Id)
    requires QueueInv(s) && ContentInv(s) && Enabled(s, Finish(w))
    ensures QueueInv(After(s, Finish(w))) && ContentInv(After(s, Finish(w)))
  {
    hide Inserted, Consecutive, Covers, NoDup, OneLeader, FirstComeFirstServed, FrontIsAwake, TotalOps;
    hide Outcomes, Joined, InsertionsOf;
    var p := s.phases[w];
    ApplierIsAlone(s, w);
    var ids, rs := s.queue[..p.count], RequestsOf(s, s.queue)[..p.count];
    assert rs == RequestsOf(s, ids);
    var outcomes := Outcomes(ids, rs, p.last + 1, s.generation, !p.failed);
    OutcomesAppend(s.handled, ids, rs, s.generation, !p.failed);
    OutcomeWriters(ids, rs, p.last + 1, s.generation, !p.failed);
    PopKeepsQueue(s, p.count, !p.failed, outcomes);
    AtBoundaries(s, outcomes);
    var s1, s' := Pop(s, p.count, !p.failed, outcomes), After(s, Finish(w));
    OtherFields(s1, s');
    assert InFlight(s') == [];
    assert p.ops[..|p.ops|] == p.ops;
    NothingJoined();
  }

  lemma {:induction false} OutcomeWriters(ids: seq<Id>, rs: seq<Request>, first: nat, generation: nat, ok: bool)
    requires |ids| == |rs|
    ensures Writers(Outcomes(ids, rs, first, generation, ok)) == ids
  {
    if |ids| > 0 {
      OutcomeWriters(ids[..|ids| - 1], rs[..|ids| - 1], first, generation, ok);
    }
  }

  lemma OtherFields(s: State, s': State)
    requires QueueInv(s) &&
      s' == s.(lastSequence := s'.lastSequence, generation := s'.generation, log := s'.log, memory := s'.memory,
               snapshots := s'.snapshots, stopped := s'.stopped)
    ensures QueueInv(s')
  {
    hide NoDup;
  }

  lemma SnapshotKeepsContent(s: State)
    requires ContentInv(s)
    ensures ContentInv(After(s, TakeSnapshot))
  {
    hide Inserted, Consecutive, Covers, TotalOps, Joined;
    assert s.handled[..|s.handled|] == s.handled;
    assert AtBoundary(s.handled, s.lastSequence);
    var s' := After(s, TakeSnapshot);
    forall n | 0 <= n <= |s.queue| ensures RequestsOf(s', s'.queue[..n]) == RequestsOf(s, s.queue[..n]) {
    }
    assert InFlight(s') == InFlight(s);
  }

  lemma CheckKeepsContent(s: State, w: Id)
    requires OneLeader(s) && ContentInv(s) && Enabled(s, Check(w))
    ensures ContentInv(After(s, Check(w)))
  {
    hide Inserted, Consecutive, Covers, Joined, TotalOps;
    var s' := After(s, Check(w));
    forall n | 0 <= n <= |s.queue| ensures RequestsOf(s', s'.queue[..n]) == RequestsOf(s, s.queue[..n]) {
    }
    assert InFlight(s') == InFlight(s);
  }

  // ---- the answers -------------------------------------------------------------------------------

  lemma {:induction false} OutcomesAnswer(ids: seq<Id>, rs: seq<Request>, first: nat, generation: nat, ok: bool,
                                          h: Handled)
    requires |ids| == |rs| && h in Outcomes(ids, rs, first, generation, ok)
    ensures h.ok == ok && h.generation == generation
    ensures exists i :: 0 <= i < |ids| && AnswerOf(ids, rs, first, h, i)
  {
    hide Joined;
    var n := |ids| - 1;
    if h in Outcomes(ids[..n], rs[..n], first, generation, ok) {
      OutcomesAnswer(ids[..n], rs[..n], first, generation, ok, h);
      var i :| 0 <= i < n && AnswerOf(ids[..n], rs[..n], first, h, i);
      assert rs[..n][..i] == rs[..i];
      assert AnswerOf(ids, rs, first, h, i);
    } else {
      assert AnswerOf(ids, rs, first, h, n);
    }
  }

  /** h is the answer to request i, whose batch comes behind those of the requests in front of it. */
  ghost predicate AnswerOf(ids: seq<Id>, rs: seq<Request>, first: nat, h: Handled, i: nat) {
    i < |ids| == |rs| && h.writer == ids[i] && h.ops == OpsOf(rs[i]) && h.first == first + |Joined(rs[..i])|
  }

  lemma HandledLeft(s: State, h: Handled)
    requires FirstComeFirstServed(s) && h in s.handled
    ensures h.writer !in s.queue && h.writer in s.requests
  {
    var i :| 0 <= i < |s.handled| && s.handled[i] == h;
    assert Writers(s.handled)[i] == h.writer && s.arrivals[i] == h.writer;
    assert forall j :: 0 <= j < |s.queue| ==> s.queue[j] == s.arrivals[|s.handled| + j];
  }

  lemma PopKeepsAnswers(s: State, n: nat, ok: bool, outcomes: seq<Handled>)
    requires FirstComeFirstServed(s) && OneLeader(s) && Answered(s) && 0 < n <= |s.queue|
    requires forall h :: h in outcomes ==>
      h.ok == ok && h.writer in s.queue[..n] && (ok ==> h.ops == OpsOf(s.requests[h.writer]))
    ensures Answered(Pop(s, n, ok, outcomes))
  {
    hide NoDup, FirstComeFirstServed;
    var s' := Pop(s, n, ok, outcomes);
    forall h | h in s'.handled ensures AnsweredAs(s', h) {
      if h in s.handled {
        HandledLeft(s, h);
      } else {
        assert h in outcomes && h.writer in s.queue;
      }
    }
  }

  lemma OthersKeepAnswers(s: State, s': State, w: Id)
    requires FirstComeFirstServed(s) && Answered(s) && s'.handled == s.handled && (w in s.queue || w !in s.requests)
    requires forall x :: x in s.requests && x != w ==> x in s'.requests && s'.requests[x] == s.requests[x]
    requires forall x :: x in s.phases && x != w ==> x in s'.phases && s'.phases[x] == s.phases[x]
    ensures Answered(s')
  {
    hide NoDup, FirstComeFirstServed;
    forall h | h in s'.handled ensures AnsweredAs(s', h) {
      HandledLeft(s, h);
      assert AnsweredAs(s, h);
    }
  }

  lemma FinishKeepsAnswers(s: State, w: Id)
    requires FirstComeFirstServed(s) && OneLeader(s) && Answered(s) && GroupIsFront(s) && Enabled(s, Finish(w))
    ensures Answered(After(s, Finish(w)))
  {
    hide NoDup, FirstComeFirstServed, Outcomes, Joined;
    var p := s.phases[w];
    var ids, rs := s.queue[..p.count], RequestsOf(s, s.queue)[..p.count];
    var outcomes := Outcomes(ids, rs, p.last + 1, s.generation, !p.failed);
    forall h | h in outcomes
      ensures h.ok == !p.failed && h.writer in ids && h.writer in s.requests && h.ops == OpsOf(s.requests[h.writer])
    {
      OutcomesAnswer(ids, rs, p.last + 1, s.generation, !p.failed, h);
      var i :| 0 <= i < |ids| && AnswerOf(ids, rs, p.last + 1, h, i);
      assert s.queue[i] in s.queue;
    }
    PopKeepsAnswers(s, p.count, !p.failed, outcomes);
  }

  lemma StepKeepsAnswers(s: State, step: Step)
    requires FirstComeFirstServed(s) && OneLeader(s) && Answered(s) && GroupIsFront(s) && Enabled(s, step)
    ensures Answered(After(s, step))
  {
    hide FirstComeFirstServed, GroupIsFront, GroupOf, Outcomes, Joined, Answered;
    match step
    case Enqueue(w, r) => OthersKeepAnswers(s, After(s, step), w);
    case Check(w) => OthersKeepAnswers(s, After(s, step), w);
    case SwitchMemTable(w) => OthersKeepAnswers(s, After(s, step), w);
    case GiveUp(w) => PopKeepsAnswers(s, 1, false, [Handled(s.queue[0], s.lastSequence + 1, [], s.generation, false)]);
    case NoBatch(w) => PopKeepsAnswers(s, 1, true, [Handled(s.queue[0], s.lastSequence + 1, [], s.generation, true)]);
    case StartGroup(w, _) => OthersKeepAnswers(s, After(s, step), w);
    case AddRecord(w, _) => OthersKeepAnswers(s, After(s, step), w);
    case InsertNext(w) => OthersKeepAnswers(s, After(s, step), w);
    case Finish(w) => FinishKeepsAnswers(s, w);
    case TakeSnapshot => SnapshotKeepsAnswers(s);
  }

  lemma SnapshotKeepsAnswers(s: State)
    requires Answered(s)
    ensures Answered(After(s, TakeSnapshot))
  {
  }

  // ---- what a caller that asked for sync is promised ----------------------------------------------

  lemma {:induction false} BatchInGroup(rs: seq<Request>, i: nat)
    requires i < |rs|
    ensures var at := |Joined(rs[..i])|;
      at + |OpsOf(rs[i])| <= |Joined(rs)| && Joined(rs)[at..at + |OpsOf(rs[i])|] == OpsOf(rs[i])
  {
    var n := |rs| - 1;
    assert Joined(rs) == Joined(rs[..n]) + OpsOf(rs[n]);
    if i < n {
      BatchInGroup(rs[..n], i);
      assert rs[..n][..i] == rs[..i];
      assert rs[..n][i] == rs[i];
    }
  }

  lemma StartKeepsLeader(s: State, w: Id, n: nat)
    requires OneLeader(s) && SyncInv(s) && Enabled(s, StartGroup(w, n))
    ensures SyncInv(After(s, StartGroup(w, n)))
  {
    hide TotalBytes, Joined, Holds, InLog;
    LeaderIsAlone(s, w);
    GroupInQueue(s, n);
    var rs := RequestsOf(s, s.queue);
    forall i | 0 <= i < n && s.queue[i] in s.requests && s.requests[s.queue[i]].sync ensures s.requests[w].sync {
      assert rs[i] == s.requests[s.queue[i]] && rs[0] == s.requests[w];
      assert i > 0 ==> Joins(rs, i);
    }
  }

  lemma EnqueueKeepsSync(s: State, w: Id, r: Request)
    requires FirstComeFirstServed(s) && OneLeader(s) && SyncInv(s) && Enabled(s, Enqueue(w, r))
    ensures SyncInv(After(s, Enqueue(w, r)))
  {
    hide NoDup, InLog, OneLeader;
    QueuedArrived(s);
  }

  lemma AddRecordKeepsSync(s: State, w: Id, outcome: Logged)
    requires OneLeader(s) && SyncInv(s) && Enabled(s, AddRecord(w, outcome))
    ensures SyncInv(After(s, AddRecord(w, outcome)))
  {
    hide Holds, OneLeader, InLog;
    ApplierIsAlone(s, w);
    var s' := After(s, AddRecord(w, outcome));
    LogGrows(s, s'.log);
  }

  lemma LogGrows(s: State, log: seq<Record>)
    requires s.log <= log
    ensures forall h, sync :: InLog(s.log, h, sync) ==> InLog(log, h, sync)
  {
    hide Holds;
  }

  /** Steps that change neither requests, the queue nor the log, and start no group. */
  lemma OthersKeepSync(s: State, s': State)
    requires SyncInv(s) && s'.requests == s.requests && s'.queue == s.queue && s'.log == s.log
    requires s'.handled == s.handled && s'.stopped == s.stopped
    requires forall w :: w in s'.phases && s'.phases[w].Applying? ==>
      w in s.phases && s.phases[w].Applying? && s'.phases[w] == s.phases[w].(inserted := s'.phases[w].inserted)
    ensures SyncInv(s')
  {
    hide InLog;
  }

  lemma PopKeepsSync(s: State, n: nat, ok: bool, outcomes: seq<Handled>)
    requires QueueInv(s) && SyncInv(s) && 0 < n <= |s.queue| && Writers(outcomes) == s.queue[..n]
    requires forall h :: h in outcomes && h.ok && h.ops != [] ==>
      h.writer in s.requests && InLog(s.log, h, s.requests[h.writer].sync)
    ensures SyncInv(Pop(s, n, ok, outcomes))
  {
    hide InLog, QueueInv, Pop;
    PopKeepsQueue(s, n, ok, outcomes);
    PoppedFields(s, n, ok, outcomes);
  }

  lemma PoppedFields(s: State, n: nat, ok: bool, outcomes: seq<Handled>)
    requires n <= |s.queue|
    ensures var s' := Pop(s, n, ok, outcomes);
      s'.requests == s.requests && s'.log == s.log && s'.handled == s.handled + outcomes
  {
  }

  /** The one record of the group has every batch of it, and it is synced if anyone in the group asked for that. */
  lemma GroupIsInRecord(s: State, w: Id, h: Handled)
    requires OneLeader(s) && GroupIsFront(s) && LeaderSyncs(s) && Enabled(s, Finish(w)) && !s.phases[w].failed
    requires var p := s.phases[w];
      h in Outcomes(s.queue[..p.count], RequestsOf(s, s.queue)[..p.count], p.last + 1, s.generation, true)
    ensures h.writer in s.requests && InLog(s.log, h, s.requests[h.writer].sync)
  {
    hide Joined, Outcomes, Holds;
    var p := s.phases[w];
    var ids, rs := s.queue[..p.count], RequestsOf(s, s.queue)[..p.count];
    assert rs == RequestsOf(s, ids);
    OutcomesAnswer(ids, rs, p.last + 1, s.generation, true, h);
    var i :| 0 <= i < |ids| && AnswerOf(ids, rs, p.last + 1, h, i);
    assert s.queue[i] in s.queue && p.ops == Joined(rs);
    var r := Record(s.generation, p.last + 1, p.ops, s.requests[w].sync);
    PartIsHeld(r, ids, rs, h, i);
    assert r in s.log && Holds(r, h);
  }

  lemma PartIsHeld(r: Record, ids: seq<Id>, rs: seq<Request>, h: Handled, i: nat)
    requires AnswerOf(ids, rs, r.base, h, i) && h.generation == r.generation && r.ops == Joined(rs)
    ensures Holds(r, h)
  {
    hide Joined;
    BatchInGroup(rs, i);
  }

  lemma FinishKeepsSync(s: State, w: Id)
    requires QueueInv(s) && GroupIsFront(s) && SyncInv(s) && Enabled(s, Finish(w))
    ensures SyncInv(After(s, Finish(w)))
  {
    hide Joined, Outcomes, InLog, FirstComeFirstServed, FrontIsAwake, OneLeader;
    var p := s.phases[w];
    ApplierIsAlone(s, w);
    var ids, rs := s.queue[..p.count], RequestsOf(s, s.queue)[..p.count];
    var outcomes := Outcomes(ids, rs, p.last + 1, s.generation, !p.failed);
    OutcomeWriters(ids, rs, p.last + 1, s.generation, !p.failed);
    forall h | h in outcomes && h.ok && h.ops != []
      ensures h.writer in s.requests && InLog(s.log, h, s.requests[h.writer].sync)
    {
      OutcomesAnswer(ids, rs, p.last + 1, s.generation, !p.failed, h);
      GroupIsInRecord(s, w, h);
    }
    assert Writers(outcomes) == s.queue[..p.count] && p.count > 0;
    PopKeepsSync(s, p.count, !p.failed, outcomes);
  }

  /** Whoever asked for sync and is told OK has the whole batch in a record that was synced. */
  lemma StepKeepsSync(s: State, step: Step)
    requires QueueInv(s) && GroupIsFront(s) && SyncInv(s) && Enabled(s, step)
    ensures SyncInv(After(s, step))
  {
    hide FirstComeFirstServed, FrontIsAwake, OneLeader, GroupIsFront, GroupOf, Pop, Outcomes, Joined, SyncInv;
    match step
    case Enqueue(w, r) => EnqueueKeepsSync(s, w, r);
    case Check(w) => OthersKeepSync(s, After(s, step));
    case SwitchMemTable(w) => OthersKeepSync(s, After(s, step));
    case GiveUp(w) =>
      assert Writers([Handled(s.queue[0], s.lastSequence + 1, [], s.generation, false)]) == s.queue[..1];
      PopKeepsSync(s, 1, false, [Handled(s.queue[0], s.lastSequence + 1, [], s.generation, false)]);
    case NoBatch(w) =>
      assert Writers([Handled(s.queue[0], s.lastSequence + 1, [], s.generation, true)]) == s.queue[..1];
      PopKeepsSync(s, 1, true, [Handled(s.queue[0], s.lastSequence + 1, [], s.generation, true)]);
    case StartGroup(w, n) => StartKeepsLeader(s, w, n);
    case AddRecord(w, outcome) => AddRecordKeepsSync(s, w, outcome);
    case InsertNext(w) => OthersKeepSync(s, After(s, step));
    case Finish(w) => FinishKeepsSync(s, w);
    case TakeSnapshot => OthersKeepSync(s, After(s, step));
  }

  /** A crash that takes any records but those that were synced leaves the whole batch of every caller that had asked
    for sync and was told OK. */
  lemma SyncedSurvives(s: State, left: seq<Record>, w: Id)
    requires Inv(s) && w in s.requests && s.requests[w].sync && OpsOf(s.requests[w]) != []
    requires w in s.phases && s.phases[w] == Done(true)
    requires forall r :: r in s.log && r.synced ==> r in left
    ensures exists h, r :: h in s.handled && h.writer == w && h.ops == OpsOf(s.requests[w]) && r in left && Holds(r, h)
  {
    hide FrontIsAwake, GroupIsFront, SequencesInOrder, MemoryIsHistory, LogIsAhead, SnapshotsAtBoundaries, NoDup;
    hide Holds;
    var i := DoneIsHandled(s, w);
    var h := s.handled[i];
    assert AnsweredAs(s, h);
    assert InLog(s.log, h, true);
    var r :| r in s.log && Holds(r, h) && r.synced;
    assert h in s.handled && r in left;
  }

  lemma DoneIsHandled(s: State, w: Id) returns (i: nat)
    requires FirstComeFirstServed(s) && OneLeader(s) && w in s.phases && s.phases[w].Done?
    ensures i < |s.handled| && s.handled[i].writer == w
  {
    hide NoDup;
    var k :| 0 <= k < |s.arrivals| && s.arrivals[k] == w;
    i := k;
    assert forall j :: 0 <= j < |s.queue| ==> s.queue[j] == s.arrivals[|s.handled| + j];
    assert forall j :: 0 <= j < |s.queue| ==> s.queue[j] in s.queue;
  }

  /** Behind a failed sync nothing more is logged or inserted, and nobody is told OK any more. */
  lemma StoppedForGood(s: State, step: Step)
    requires Inv(s) && s.stopped && Enabled(s, step)
    ensures var s' := After(s, step);
      s'.stopped && s'.log == s.log && s'.memory == s.memory && s.handled <= s'.handled &&
      forall i :: |s.handled| <= i < |s'.handled| ==> !s'.handled[i].ok
  {
    hide FirstComeFirstServed, FrontIsAwake, Answered, SequencesInOrder, MemoryIsHistory, LogIsAhead, OneLeader;
    hide SnapshotsAtBoundaries, GroupIsFront, GroupOf, Joined, Outcomes, KeptAsAsked, LeaderSyncs;
    if step.Finish? {
      var p := s.phases[step.w];
      var ids, rs := s.queue[..p.count], RequestsOf(s, s.queue)[..p.count];
      forall h | h in Outcomes(ids, rs, p.last + 1, s.generation, false) ensures !h.ok {
        OutcomesAnswer(ids, rs, p.last + 1, s.generation, false, h);
      }
    }
  }

  /** Every step of every thread keeps the invariant. */
  lemma StepKeepsInv(s: State, step: Step)
    requires Inv(s) && Enabled(s, step)
    ensures Inv(After(s, step))
  {
    hide FirstComeFirstServed, FrontIsAwake, GroupIsFront, SequencesInOrder, MemoryIsHistory, LogIsAhead;
    hide SnapshotsAtBoundaries, OneLeader, GroupOf, Pop, Outcomes, Joined, Answered, SyncInv;
    StepKeepsAnswers(s, step);
    StepKeepsSync(s, step);
    match step
    case Enqueue(w, r) => EnqueueKeepsQueue(s, w, r); EnqueueKeepsContent(s, w, r);
    case Check(w) => CheckKeepsQueue(s, w); CheckKeepsContent(s, w);
    case SwitchMemTable(w) => LeaderIsAlone(s, w); OtherFields(s, After(s, step)); QuietKeepsContent(s, After(s, step));
    case GiveUp(w) => PopOneKeepsContent(s, w, false);
    case NoBatch(w) => PopOneKeepsContent(s, w, true);
    case StartGroup(w, n) => LeaderIsAlone(s, w); LeaderKeepsQueue(s, w, After(s, step).phases[w]);
    StartKeepsContent(s, w, n);
    case AddRecord(w, outcome) =>
      ApplierIsAlone(s, w);
      LeaderKeepsQueue(s, w, After(s, step).phases[w]);
      OtherFields(s.(phases := After(s, step).phases), After(s, step));
      AddRecordKeepsContent(s, w, outcome);
    case InsertNext(w) =>
      ApplierIsAlone(s, w);
      LeaderKeepsQueue(s, w, After(s, step).phases[w]);
      OtherFields(s.(phases := After(s, step).phases), After(s, step));
      InsertKeepsContent(s, w);
    case Finish(w) => FinishKeepsInv(s, w);
    case TakeSnapshot => OtherFields(s, After(s, step)); SnapshotKeepsContent(s);
  }

  // ---- runs ------------------------------------------------------------------------------------------

  ghost predicate Run(states: seq<State>, steps: seq<Step>) {
    |states| == |steps| + 1 && states[0] == INIT &&
    forall i :: 0 <= i < |steps| ==> Next(states[i], steps[i], states[i + 1])
  }

  /** The invariant holds in every state of every interleaving. */
  lemma {:induction false} RunKeepsInv(states: seq<State>, steps: seq<Step>, i: nat)
    requires Run(states, steps) && i < |states|
    ensures Inv(states[i])
  {
    hide Inv;
    if i == 0 {
      InitHolds();
    } else {
      RunKeepsInv(states, steps, i - 1);
      assert Next(states[i - 1], steps[i - 1], states[i]);
      StepKeepsInv(states[i - 1], steps[i - 1]);
    }
  }

  lemma InitHolds()
    ensures Inv(INIT)
  {
  }

  lemma {:induction false} TotalGrows(h: seq<Handled>, j: nat, k: nat)
    requires j <= k <= |h|
    ensures TotalOps(h[..j]) <= TotalOps(h[..k])
  {
    if j < k {
      TotalGrows(h, j, k - 1);
      assert h[..k][..k - 1] == h[..k - 1];
    }
  }

  /** A snapshot sees a whole batch or nothing of it, whichever group the batch was committed in. */
  lemma SnapshotSeesWholeBatches(s: State, snapshot: nat, h: Handled)
    requires Inv(s) && snapshot in s.snapshots && h in s.handled
    ensures h.first + |h.ops| - 1 <= snapshot || snapshot < h.first
  {
    hide FirstComeFirstServed, OneLeader, GroupIsFront, MemoryIsHistory, LogIsAhead, Answered, FrontIsAwake, SyncInv;
    var k :| 0 <= k <= |s.handled| && snapshot == TotalOps(s.handled[..k]);
    var i :| 0 <= i < |s.handled| && s.handled[i] == h;
    if i < k {
      TotalGrows(s.handled, i + 1, k);
      assert s.handled[..i + 1][..i] == s.handled[..i];
    } else {
      TotalGrows(s.handled, k, i);
    }
  }

  /** What a reader at lastSequence, or at any older snapshot, sees is settled: later insertions are all newer. */
  lemma ReadsAreSettled(s: State, step: Step)
    requires Inv(s) && Enabled(s, step)
    ensures var s' := After(s, step);
      s.lastSequence <= s'.lastSequence && s.memory <= s'.memory &&
      forall i :: |s.memory| <= i < |s'.memory| ==> s'.memory[i].sequence > s.lastSequence
  {
    hide FirstComeFirstServed, FrontIsAwake, Answered, SequencesInOrder, MemoryIsHistory, LogIsAhead;
    hide SnapshotsAtBoundaries, OneLeader, GroupOf, Joined, Outcomes;
  }

  lemma {:induction false} InsertedIsBounded(h: seq<Handled>)
    requires Consecutive(h)
    ensures forall m :: m in Inserted(h) ==> m.sequence <= TotalOps(h)
    ensures Ascending(Inserted(h))
  {
    hide Ascending;
    if |h| > 0 {
      var n := |h| - 1;
      assert forall i :: 0 <= i < n ==> h[..n][..i] == h[..i];
      InsertedIsBounded(h[..n]);
      var more := if h[n].ok then InsertionsOf(h[n].generation, h[n].first, h[n].ops) else [];
      AscendingConcat(Inserted(h[..n]), more, TotalOps(h[..n]));
    } else {
      AscendingConcat(Inserted(h), [], 0);
      assert Inserted(h) + [] == Inserted(h);
    }
  }

  ghost predicate Ascending(m: seq<Insertion>) {
    forall i, j :: 0 <= i < j < |m| ==> m[i].sequence < m[j].sequence
  }

  lemma AscendingConcat(a: seq<Insertion>, b: seq<Insertion>, bound: nat)
    requires a == [] || (Ascending(a) && forall m :: m in a ==> m.sequence <= bound)
    requires forall i :: 0 <= i < |b| ==> b[i].sequence == bound + 1 + i
    ensures Ascending(a + b)
  {
  }

  /** No two insertions share a sequence number, and a later one is newer. */
  lemma SequencesIncrease(s: State, i: nat, j: nat)
    requires Inv(s) && i < j < |s.memory|
    ensures s.memory[i].sequence < s.memory[j].sequence
  {
    hide FirstComeFirstServed, FrontIsAwake, Answered, LogIsAhead, SnapshotsAtBoundaries, OneLeader, Joined, Inserted;
    InsertedIsBounded(s.handled);
    var done := Inserted(s.handled);
    assert i < |done| ==> s.memory[i] == done[i] && done[i] in done;
    assert j < |done| ==> s.memory[j] == done[j];
  }

  /** The front of the queue can always go on: no wake-up is lost and no group is impossible. */
  lemma FrontCanStep(s: State) returns (step: Step)
    requires Inv(s) && |s.queue| > 0
    ensures step.Check? || step.NoBatch? || step.StartGroup? || step.AddRecord? || step.InsertNext? || step.Finish? ||
      (step.GiveUp? && s.stopped)
    ensures Enabled(s, step) && step.w == s.queue[0]
  {
    hide FirstComeFirstServed, Answered, SequencesInOrder, MemoryIsHistory, LogIsAhead, SnapshotsAtBoundaries;
    hide Joined, GroupOf;
    var w := s.queue[0];
    assert w in s.queue;
    var p := s.phases[w];
    if p.Waiting? {
      step := Check(w);
    } else if p.MakingRoom? && s.stopped {
      step := GiveUp(w);
    } else if p.MakingRoom? {
      if s.requests[w].batch.None? {
        step := NoBatch(w);
      } else {
        var n := GroupExists(RequestsOf(s, s.queue));
        step := StartGroup(w, n);
      }
    } else if !p.logged {
      step := AddRecord(w, Added);
    } else if !p.failed && p.inserted < |p.ops| {
      step := InsertNext(w);
    } else {
      step := Finish(w);
    }
  }

  lemma GroupExists(rs: seq<Request>) returns (n: nat)
    requires |rs| > 0
    ensures GroupOf(rs, n)
  {
    hide TotalBytes;
    n := 1;
    while n < |rs| && Joins(rs, n)
      invariant 0 < n <= |rs| && forall i :: 0 < i < n ==> Joins(rs, i)
    {
      n := n + 1;
    }
  }
}
