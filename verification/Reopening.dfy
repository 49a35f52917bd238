/** From a crash to the next run: DBImpl::Recover writes the memtables it found in the logs to level 0, and DB::Open
  starts a new log and a new manifest. What comes out is a state a run can start from, so that run, crash and run
  compose. */
module Reopening {
  import opened Options
  import opened Coding
  import opened InternalKeys
  import opened ReadSpec
  import opened Versions
  import opened VersionEdits
  import opened ManifestReplay
  import opened ManifestRuns
  import opened ManifestFile
  import opened Install
  import opened Database
  import opened MapRefinement
  import opened RunRecovery
  import opened CrashConsistency
  import opened CrashRecovery
  import Comparator
  import Log
  import MemTables
  import LogRecovery = Recovery

  // ---- one more table in level 0 ---------------------------------------------------------------------

  /** All of these files go into level 0. */
  function Level0(files: seq<File>): Edit {
    Edit([], AdditionsOf(0, files))
  }

  /** The state with one more table in level 0, under a number that was taken for it; an empty table makes no file. */
  ghost function WithTable(st: State, t: seq<Entry>, number: nat, size: nat): State {
    if |t| == 0 then st.(nextFile := number + 1)
    else st.(nextFile := number + 1, version := Installed(st.version, Level0([TableOf(t, number, size)])))
  }

  /** No memtables and no snapshots: what a database has when it is being opened. */
  ghost predicate Bare(st: State) {
    Inv(st) && st.mem == [] && st.imm == None && st.snapshots == []
  }

  ghost predicate Writable(st: State, t: seq<Entry>) {
    Sorted(t) && Newer(Elements(t), Stored(st.version)) && NoneAfter(Elements(t), st.lastSequence)
  }

  lemma RaiseKeepsInv(st: State, next: nat)
    requires Inv(st) && st.nextFile <= next
    ensures Inv(st.(nextFile := next)) && All(st.(nextFile := next)) == All(st)
  {
    hide ValidVersion, Ordered, Stored, Sorted, Newer;
  }

  lemma SealedKeepsInv(st: State, t: seq<Entry>)
    requires Bare(st) && Writable(st, t)
    ensures Inv(st.(imm := Some(t))) && All(st.(imm := Some(t))) == All(st) + Elements(t)
  {
    hide ValidVersion, Ordered, Stored, NumbersBelow;
    assert Elements([]) == {};
  }

  /** Writing a table is flushing a memtable to level 0. */
  lemma TableKeepsInv(st: State, t: seq<Entry>, number: nat, size: nat)
    requires Bare(st) && Writable(st, t) && st.nextFile <= number
    ensures Bare(WithTable(st, t, number, size)) && All(WithTable(st, t, number, size)) == All(st) + Elements(t)
  {
    hide Inv, Writable, Elements, All, Installed, Stored;
    var st1 := st.(nextFile := number);
    RaiseKeepsInv(st, number);
    WritableThere(st, st1, t);
    SealedKeepsInv(st1, t);
    var sealed, st' := st1.(imm := Some(t)), WithTable(st, t, number, size);
    if |t| > 0 {
      assert AdditionsOf(0, [TableOf(t, number, size)]) == [(0, TableOf(t, number, size))];
    }
    assert FlushStep(sealed, 0, size, st');
    FlushKeepsInv(sealed, 0, size, st');
  }

  lemma WritableThere(st: State, st1: State, t: seq<Entry>)
    requires Writable(st, t) && st1.version == st.version && st1.lastSequence == st.lastSequence
    ensures Writable(st1, t)
  {
  }

  /** One edit that adds all the files is one edit after the other. */
  lemma OneEdit(v: Version, files: seq<File>, f: File)
    requires ValidVersion(v) && Ordered(v[0]) && ApartNumbers(files + [f]) && Numbers(files + [f]) !! Numbers(v[0])
    ensures Installed(v, Level0(files + [f])) == Installed(Installed(v, Level0(files)), Level0([f]))
  {
    hide Saved, Applied, Ordered, ApartNumbers, Numbers, LevelsValid, LevelsDisjoint, NumberIsAge, ShallowerIsNewer;
    hide UniqueNumbers;
    LevelsAreOrdered(v);
    PartsApart(files, f, Numbers(v[0]));
    var mid := Installed(v, Level0(files));
    forall l | 0 <= l < |v|
      ensures Saved(v[l], Applied(EMPTY, Level0(files + [f]), l)) == Saved(mid[l], Applied(EMPTY, Level0([f]), l))
    {
      LevelAdds(v[l], files, l);
      LevelAdds(v[l], files + [f], l);
      if l == 0 {
        FirstLevel(v[0], files, f);
      } else {
        LevelAdds(mid[l], [f], l);
      }
    }
  }

  lemma PartsApart(files: seq<File>, f: File, others: set<nat>)
    requires ApartNumbers(files + [f]) && Numbers(files + [f]) !! others
    ensures ApartNumbers(files) && ApartNumbers([f]) && Numbers(files) !! others && f.number !in others &&
      f.number !in Numbers(files)
  {
    var all := files + [f];
    assert all[|files|] == f;
    forall i | 0 <= i < |files| ensures files[i].number != f.number {
      assert all[i] == files[i];
    }
    forall i, j | 0 <= i < j < |files| ensures files[i].number != files[j].number {
      assert all[i] == files[i] && all[j] == files[j];
    }
    forall n | n in Numbers(files) ensures n in Numbers(all) {
      var g :| g in files && g.number == n;
      assert g in all;
    }
    assert f in all && f.number in Numbers(all);
  }

  /** What adding files to level 0 does to one level. */
  lemma LevelAdds(was: seq<File>, files: seq<File>, l: nat)
    requires Ordered(was) && ApartNumbers(files) && (l == 0 ==> Numbers(files) !! Numbers(was))
    ensures var now := Saved(was, Applied(EMPTY, Level0(files), l));
      Ordered(now) && (l > 0 ==> now == was) && (l == 0 ==> forall g :: g in now <==> g in was || g in files)
  {
    hide Saved, Applied, Ordered, ApartNumbers, AddedAt, DeletedAt, AddsOnce;
    EditAt(0, files, l);
    NothingDeleted(l);
    if l == 0 {
      assert forall g, a :: g in was && a in files ==> g.number in Numbers(was) && a.number in Numbers(files);
      InstalledLevel(was, Level0(files), l, {}, set a | a in files);
    } else {
      UntouchedLevel(was, Level0(files), l);
    }
  }

  lemma NothingDeleted(l: nat)
    ensures DeletedAt([], l) == {}
  {
  }

  lemma FirstLevel(was: seq<File>, files: seq<File>, f: File)
    requires Ordered(was) && ApartNumbers(files + [f]) && Numbers(files + [f]) !! Numbers(was)
    ensures var mid := Saved(was, Applied(EMPTY, Level0(files), 0));
      Saved(was, Applied(EMPTY, Level0(files + [f]), 0)) == Saved(mid, Applied(EMPTY, Level0([f]), 0))
  {
    hide Saved, Applied, Ordered, ApartNumbers;
    PartsApart(files, f, Numbers(was));
    var mid, all := Saved(was, Applied(EMPTY, Level0(files), 0)), Saved(was, Applied(EMPTY, Level0(files + [f]), 0));
    LevelAdds(was, files, 0);
    LevelAdds(was, files + [f], 0);
    forall g | g in mid ensures g.number != f.number {
      assert g in was ==> g.number in Numbers(was);
      assert g in files ==> g.number in Numbers(files);
    }
    assert Numbers([f]) == {f.number};
    LevelAdds(mid, [f], 0);
    OrderedIsUnique(all, Saved(mid, Applied(EMPTY, Level0([f]), 0)));
  }

  // ---- what the recovered memtables hold -----------------------------------------------------------------

  /** The names are in the order of the keys, as the comparator of the database sees them. */
  ghost predicate KeepsOrder(names: Naming) {
    forall u, v :: Named(names, u) && Named(names, v) && u < v ==> Comparator.Less(names.encode(u), names.encode(v))
  }

  function EntriesBack(names: Naming, texts: Texts, s: seq<MemTables.MemEntry>): (t: seq<Entry>)
    ensures |t| == |s| && forall i :: 0 <= i < |s| ==> t[i] == EntryBack(names, texts, s[i])
  {
    seq(|s|, i requires 0 <= i < |s| => EntryBack(names, texts, s[i]))
  }

  /** One entry of a memtable, from its bytes. */
  method ReadEntry(bytes: Bytes, names: Naming, texts: Texts, ghost x: MemTables.MemEntry) returns (e: Entry)
    requires MemTables.Storable(x) && bytes == MemTables.EntryBytes(x)
    ensures e == EntryBack(names, texts, x)
  {
    hide MemTables.EntryBytes, MemTables.InternalKeyOf, GetPrefixed, Comparator.Trailer, Comparator.UserPart;
    MemTables.KeyReads(x);
    MemTables.KeyParts(x);
    var key := GetLengthPrefixedSlice(bytes, 0);
    var internalKey := key.value.value;
    var value := GetLengthPrefixedSlice(bytes, key.value.next);
    var user, tag := Comparator.UserPart(internalKey), Comparator.Trailer(internalKey);
    assert tag == 256 * x.sequence + x.kind;
    e := if tag % 256 == MemTables.VALUE
         then Entry(IKey(names.decode(user), tag / 256, Value), texts.decode(value.value.value))
         else Entry(IKey(names.decode(user), tag / 256, Deletion), "");
  }

  /** BuildTable, as far as the entries go: the memtable from its first entry to its last. */
  method ReadTable(mem: MemTables.MemTable, names: Naming, texts: Texts) returns (t: seq<Entry>)
    requires mem.Valid()
    ensures t == EntriesBack(names, texts, mem.entries)
  {
    hide MemTables.EntryBytes, MemTables.Ascending, MemTables.Storable, EntryBack;
    t := [];
    for i := 0 to |mem.table|
      invariant |t| == i && forall k :: 0 <= k < i ==> t[k] == EntryBack(names, texts, mem.entries[k])
    {
      var e := ReadEntry(mem.table[i], names, texts, mem.entries[i]);
      t := t + [e];
    }
  }

  lemma BackIsBefore(names: Naming, texts: Texts, x: MemTables.MemEntry, y: MemTables.MemEntry)
    requires KeepsOrder(names) && Spelt(names, x) && Spelt(names, y) && MemTables.EntryLess(x, y)
    requires x.key == y.key && x.sequence == y.sequence ==> x.kind == y.kind
    ensures Before(EntryBack(names, texts, x).key, EntryBack(names, texts, y).key)
  {
    hide Comparator.Less;
    Comparator.LessIsTotal(x.key, y.key);
    var u, v := names.decode(x.key), names.decode(y.key);
    if v < u {
      assert Comparator.Less(y.key, x.key);
    }
  }

  lemma SameKind(names: Naming, texts: Texts, all: set<Entry>, x: MemTables.MemEntry, y: MemTables.MemEntry)
    requires Identified(all) && Spelt(names, x) && Spelt(names, y)
    requires EntryBack(names, texts, x) in all && EntryBack(names, texts, y) in all
    ensures x.key == y.key && x.sequence == y.sequence ==> x.kind == y.kind
  {
  }

  /** The tables come back sorted, each newer than those before it. */
  lemma BackIsSorted(names: Naming, texts: Texts, held: seq<seq<MemTables.MemEntry>>, t: nat)
    requires KeepsOrder(names) && AllSpelt(names, held) && t < |held| && MemTables.Ascending(held[t])
    requires Identified(FoundIn(names, texts, held))
    ensures Sorted(EntriesBack(names, texts, held[t]))
  {
    hide Spelt, MemTables.EntryLess, Before, EntryBack, FoundIn, Identified, KeepsOrder;
    var s := held[t];
    forall i, j | 0 <= i < j < |s|
      ensures Before(EntriesBack(names, texts, s)[i].key, EntriesBack(names, texts, s)[j].key)
    {
      assert s[i] in held[t] && s[j] in held[t];
      OneFound(names, texts, held, t, s[i]);
      OneFound(names, texts, held, t, s[j]);
      SameKind(names, texts, FoundIn(names, texts, held), s[i], s[j]);
      BackIsBefore(names, texts, s[i], s[j]);
    }
  }

  lemma BackElements(names: Naming, texts: Texts, held: seq<seq<MemTables.MemEntry>>, i: nat)
    requires i < |held|
    ensures FoundIn(names, texts, held[..i + 1]) ==
      FoundIn(names, texts, held[..i]) + Elements(EntriesBack(names, texts, held[i]))
    ensures FoundIn(names, texts, held[..0]) == {}
    ensures FoundIn(names, texts, held[..i + 1]) <= FoundIn(names, texts, held)
  {
    hide EntryBack;
    var part, t := held[..i + 1], EntriesBack(names, texts, held[i]);
    assert part == held[..i] + [held[i]] && held == part + held[i + 1..];
    FoundBoth(names, texts, held[..i], [held[i]]);
    FoundBoth(names, texts, part, held[i + 1..]);
    forall e | e in t ensures e in FoundIn(names, texts, [held[i]]) {
      var p :| 0 <= p < |t| && t[p] == e;
      assert e == EntryBack(names, texts, [held[i]][0][p]);
    }
    forall e | e in FoundIn(names, texts, [held[i]]) ensures e in t {
      var k, p :| 0 <= k < 1 && 0 <= p < |[held[i]][k]| && EntryBack(names, texts, [held[i]][k][p]) == e;
      assert t[p] == e;
    }
  }

  /** The next table is newer than those before it. */
  lemma BackIsNewer(names: Naming, texts: Texts, held: seq<seq<MemTables.MemEntry>>, i: nat)
    requires LogRecovery.Aged(held) && AllSpelt(names, held) && i < |held|
    ensures Newer(Elements(EntriesBack(names, texts, held[i])), FoundIn(names, texts, held[..i]))
  {
    hide EntryBack;
    var t := EntriesBack(names, texts, held[i]);
    forall x, y | x in t && y in FoundIn(names, texts, held[..i]) ensures x.key.sequence > y.key.sequence {
      var p :| 0 <= p < |t| && t[p] == x;
      var k, q :| 0 <= k < i && 0 <= q < |held[..i][k]| && EntryBack(names, texts, held[..i][k][q]) == y;
      OneFound(names, texts, held, i, held[i][p]);
      OneFound(names, texts, held, k, held[k][q]);
      assert held[k][q] in held[k] && held[i][p] in held[i];
    }
  }

  // ---- the state behind the crash ---------------------------------------------------------------------------

  /** The files that were recovered, with a last sequence number that covers them. */
  lemma FoundIsBare(st: State, found: set<Entry>, last: nat, s: nat, next: nat) returns (bare: State)
    requires Inv(st) && NumbersBelow(st.version, next) && NoneAfter(Stored(st.version), s)
    requires s <= last <= st.lastSequence && forall e :: e in found ==> s < e.key.sequence <= last
    ensures bare == State([], None, st.version, last, [], next) && Bare(bare)
    ensures Newer(found, Stored(st.version)) && NoneAfter(found, last) && All(bare) == Stored(st.version)
  {
    hide ValidVersion, Ordered, Stored, NumbersBelow;
    bare := State([], None, st.version, last, [], next);
    assert MemSet(bare) == {};
  }

  lemma WrittenIsIdentified(states: seq<State>, events: seq<Event>, n: nat, j: nat)
    requires Run(states, events) && Inv(states[0]) && states[0].mem == [] && states[0].imm == None
    requires j <= n <= |events| && FlushedPart(events, n) <= j
    ensures Identified(WrittenIn(states, events, FlushedPart(events, n), j)) && Inv(states[n])
    ensures NoneAfter(Stored(states[n].version), states[FlushedPart(events, n)].lastSequence)
    ensures states[FlushedPart(events, n)].lastSequence <= states[j].lastSequence
  {
    hide Inv, Next, WrittenIn, Stored, NoneAfter;
    RunIsLayered(states, events, n);
    LeftIsWritten(states, events, n, j);
    StateIsIdentified(states[n]);
    SequencesGrow(states, events, FlushedPart(events, n), j);
    PartIdentified(states[n], states[j].lastSequence);
  }

  lemma PartIdentified(st: State, s: nat)
    requires Identified(All(st))
    ensures Identified(Below(MemSet(st), s))
  {
    hide Stored, MemSet;
  }

  lemma JoinedIsWritable(st: State, t: seq<Entry>, before: set<Entry>, stored: set<Entry>, found: set<Entry>)
    requires Bare(st) && All(st) == before + stored && Sorted(t) && Elements(t) <= found
    requires Newer(Elements(t), before) && Newer(found, stored) && NoneAfter(found, st.lastSequence)
    ensures Writable(st, t)
  {
    hide ValidVersion, Ordered, NumbersBelow, Sorted, Stored;
    assert MemSet(st) == {};
  }

  // ---- the manifest of the new run ------------------------------------------------------------------------------

  ghost function NumbersIn(v: Version): (used: seq<set<nat>>)
    requires |v| == NUM_LEVELS
  {
    [Numbers(v[0]), Numbers(v[1]), Numbers(v[2]), Numbers(v[3]), Numbers(v[4]), Numbers(v[5]), Numbers(v[6])]
  }

  lemma VersionIsStocked(v: Version, next: nat)
    requires ValidVersion(v) && Ordered(v[0]) && NumbersBelow(v, next)
    ensures Stocked(v, NumbersIn(v)) && UsedFits(v, NumbersIn(v), next)
  {
    hide LevelsValid, LevelsDisjoint, NumberIsAge, ShallowerIsNewer, Ordered;
    LevelsAreOrdered(v);
    assert forall l :: 0 <= l < NUM_LEVELS ==> NumbersIn(v)[l] == Numbers(v[l]);
    forall l | 0 <= l < NUM_LEVELS ensures ApartNumbers(v[l]) {
      OrderedIsApart(v[l]);
    }
  }

  lemma OrderedIsApart(files: seq<File>)
    requires Ordered(files) && DistinctNumbers(files)
    ensures ApartNumbers(files)
  {
  }

  /** Numbers taken one after the other behind the version's. */
  ghost predicate NumberedFrom(files: seq<File>, from: nat, to: nat) {
    from <= to && ApartNumbers(files) && forall f :: f in files ==> from <= f.number < to
  }

  lemma FreshForAll(v: Version, files: seq<File>, from: nat, to: nat)
    requires |v| == NUM_LEVELS && NumbersBelow(v, from) && NumberedFrom(files, from, to)
    ensures forall l :: 0 <= l < NUM_LEVELS ==> Numbers(files) !! Numbers(v[l])
    ensures forall l :: 0 <= l < NUM_LEVELS ==> Numbers(files) !! NumbersIn(v)[l]
    ensures AddsFresh(Level0(files), NumbersIn(v))
    ensures UsedAfter(NumbersIn(v), Level0(files)) == NumbersIn(v)[0 := NumbersIn(v)[0] + Numbers(files)]
  {
    hide AddsFresh, UsedAfter, ApartNumbers;
    forall l, n | 0 <= l < NUM_LEVELS && n in Numbers(files) ensures n !in Numbers(v[l]) {
    }
    assert forall l :: 0 <= l < NUM_LEVELS ==> NumbersIn(v)[l] == Numbers(v[l]);
    AddsFreshAt(Level0(files), NumbersIn(v), 0, files);
  }

  lemma OneMoreNumber(files: seq<File>, from: nat, to: nat, f: File)
    requires NumberedFrom(files, from, to) && to <= f.number
    ensures NumberedFrom(files + [f], from, f.number + 1)
  {
  }

  lemma NumbersAfter(v: Version, files: seq<File>)
    requires ValidVersion(v) && Ordered(v[0]) && ApartNumbers(files) && Numbers(files) !! Numbers(v[0])
    ensures var v' := Installed(v, Level0(files));
      |v'| == NUM_LEVELS &&
      forall l :: 0 <= l < NUM_LEVELS ==> Numbers(v'[l]) <= Numbers(v[l]) + (if l == 0 then Numbers(files) else {})
  {
    hide LevelsValid, LevelsDisjoint, NumberIsAge, ShallowerIsNewer, UniqueNumbers, Ordered, ApartNumbers, Saved;
    hide Applied;
    LevelsAreOrdered(v);
    forall l | 0 <= l < NUM_LEVELS
      ensures Numbers(Installed(v, Level0(files))[l]) <= Numbers(v[l]) + (if l == 0 then Numbers(files) else {})
    {
      LevelAdds(v[l], files, l);
    }
  }

  lemma NothingInstalled(v: Version)
    requires ValidVersion(v) && Ordered(v[0])
    ensures Installed(v, Level0([])) == v
  {
    hide Installed, ValidVersion, Ordered;
    assert AdditionsOf(0, []) == [];
    EmptyEditInstalls(v);
  }

  /** The numbers each level was given fit the state behind the edit. */
  lemma NumbersFitAfter(v: Version, files: seq<File>, from: nat, st: State)
    requires ValidVersion(v) && Ordered(v[0]) && NumbersBelow(v, from) && NumberedFrom(files, from, st.nextFile)
    requires st.version == Installed(v, Level0(files))
    ensures UsedFits(st.version, UsedAfter(NumbersIn(v), Level0(files)), st.nextFile)
  {
    hide ValidVersion, Ordered, NumbersBelow, UsedFits, UsedAfter, Installed, NumbersIn, Numbers;
    VersionLength(v);
    VersionIsStocked(v, from);
    FreshForAll(v, files, from, st.nextFile);
    NumbersAfter(v, files);
    BoundedNumbers(files, from, st.nextFile);
    FitsAfterAdding(v, NumbersIn(v), from, 0, files, st.version, st.nextFile);
  }

  /** The manifest that the first LogAndApply starts opens the state it leaves. */
  lemma NewManifestOpens(v: Version, files: seq<File>, from: nat, manifest: seq<Record>, st: State)
    requires ValidVersion(v) && Ordered(v[0]) && NumbersBelow(v, from) && NumberedFrom(files, from, st.nextFile)
    requires st.version == Installed(v, Level0(files)) && |manifest| > 0 && FoundAgain(RecoverySpec(manifest), st)
    requires LeadsTo(manifest, st.version, UsedAfter(NumbersIn(v), Level0(files)))
    ensures Opens(manifest, st)
  {
    hide ValidVersion, Ordered, NumbersBelow, UsedFits, LeadsTo, UsedAfter, RecoverySpec, Installed, NumbersIn;
    VersionLength(v);
    NumbersInLength(v);
    NumbersFitAfter(v, files, from, st);
    assert Tracks(st, manifest, UsedAfter(NumbersIn(v), Level0(files)));
  }

  lemma NumbersInLength(v: Version)
    requires |v| == NUM_LEVELS
    ensures |NumbersIn(v)| == NUM_LEVELS
  {
  }

  lemma VersionLength(v: Version)
    requires ValidVersion(v)
    ensures |v| == NUM_LEVELS
  {
  }

  lemma BoundedNumbers(files: seq<File>, from: nat, to: nat)
    requires NumberedFrom(files, from, to)
    ensures from <= to && ApartNumbers(files) && forall n :: n in Numbers(files) ==> n < to
  {
  }

  // ---- opening ------------------------------------------------------------------------------------------------------

  function AndTable(files: seq<File>, t: seq<Entry>, number: nat, size: nat): seq<File> {
    if |t| == 0 then files else files + [TableOf(t, number, size)]
  }

  /** One recovered memtable more in level 0. */
  lemma NextTable(names: Naming, texts: Texts, held: seq<seq<MemTables.MemEntry>>, i: nat, st: State, v: Version,
                  files: seq<File>, from: nat, number: nat, size: nat)
    requires KeepsOrder(names) && LogRecovery.Aged(held) && AllSpelt(names, held) &&
      Identified(FoundIn(names, texts, held))
    requires i < |held| && MemTables.Ascending(held[i])
    requires Newer(FoundIn(names, texts, held), Stored(v)) && NoneAfter(FoundIn(names, texts, held), st.lastSequence)
    requires ValidVersion(v) && Ordered(v[0]) && NumbersBelow(v, from) && NumberedFrom(files, from, st.nextFile)
    requires Bare(st) && st.nextFile <= number && st.version == Installed(v, Level0(files))
    requires All(st) == FoundIn(names, texts, held[..i]) + Stored(v)
    ensures var t := EntriesBack(names, texts, held[i]);
      var st', files' := WithTable(st, t, number, size), AndTable(files, t, number, size);
      Bare(st') && All(st') == FoundIn(names, texts, held[..i + 1]) + Stored(v) &&
      NumberedFrom(files', from, st'.nextFile) && st'.version == Installed(v, Level0(files'))
  {
    hide Bare, All, Stored, FoundIn, KeepsOrder, LogRecovery.Aged, AllSpelt, Identified, MemTables.Ascending, Newer;
    hide NoneAfter;
    hide ValidVersion, Ordered, NumbersBelow, Installed, Elements, Level0, EntriesBack, Sorted, Writable, Numbers;
    hide NumberedFrom;
    var t := EntriesBack(names, texts, held[i]);
    BackIsSorted(names, texts, held, i);
    BackElements(names, texts, held, i);
    BackIsNewer(names, texts, held, i);
    PartOfFound(Elements(t), FoundIn(names, texts, held[..i]), FoundIn(names, texts, held[..i + 1]),
                FoundIn(names, texts, held));
    JoinedIsWritable(st, t, FoundIn(names, texts, held[..i]), Stored(v), FoundIn(names, texts, held));
    TableKeepsInv(st, t, number, size);
    if |t| > 0 {
      var f := TableOf(t, number, size);
      OneMoreNumber(files, from, st.nextFile, f);
      NumbersApart(v, files + [f], from, number + 1);
      OneEdit(v, files, f);
    } else {
      MoreNumbers(files, from, st.nextFile, number + 1);
    }
  }

  lemma PartOfFound(a: set<Entry>, before: set<Entry>, part: set<Entry>, found: set<Entry>)
    requires part == before + a && part <= found
    ensures a <= found
  {
  }

  lemma NumbersApart(v: Version, files: seq<File>, from: nat, to: nat)
    requires ValidVersion(v) && NumbersBelow(v, from) && NumberedFrom(files, from, to)
    ensures ApartNumbers(files) && Numbers(files) !! Numbers(v[0])
  {
    hide LevelsValid, LevelsDisjoint, NumberIsAge, ShallowerIsNewer, UniqueNumbers;
    FreshForAll(v, files, from, to);
  }

  lemma MoreNumbers(files: seq<File>, from: nat, to: nat, more: nat)
    requires NumberedFrom(files, from, to) && to <= more
    ensures NumberedFrom(files, from, more)
  {
  }

  lemma RaiseKeepsBare(st: State, next: nat)
    requires Bare(st) && st.nextFile <= next
    ensures Bare(st.(nextFile := next)) && All(st.(nextFile := next)) == All(st)
  {
    hide Inv, All;
    RaiseKeepsInv(st, next);
  }

  lemma OneTable(tables: seq<MemTables.MemTable>, held: seq<seq<MemTables.MemEntry>>, i: nat)
    requires LogRecovery.Tables(tables, held) && i < |tables|
    ensures |held| == |tables| && tables[i].Valid() && tables[i].entries == held[i] && MemTables.Ascending(held[i])
  {
    hide MemTables.Ascending;
  }

  /** What Open found, as a state before any table is written. */
  lemma BareBehindCrash(names: Naming, texts: Texts, states: seq<State>, events: seq<Event>, n: nat, j: nat,
                        v: Version, held: seq<seq<MemTables.MemEntry>>, last: nat, next: nat) returns (st: State)
    requires Run(states, events) && Inv(states[0]) && states[0].mem == [] && states[0].imm == None
    requires n <= |events| && FlushedPart(events, n) <= j <= n &&
      states[j].lastSequence <= last <= states[n].lastSequence
    requires v == states[n].version && NumbersBelow(v, next)
    requires FoundIn(names, texts, held) == WrittenIn(states, events, FlushedPart(events, n), j)
    ensures last <= MAX_SEQUENCE && st == State([], None, v, last, [], next) && Bare(st)
    ensures Newer(FoundIn(names, texts, held), Stored(v)) && NoneAfter(FoundIn(names, texts, held), last)
    ensures All(st) == FoundIn(names, texts, held[..0]) + Stored(v) && Identified(FoundIn(names, texts, held))
    ensures ValidVersion(v) && Ordered(v[0]) && st.version == Installed(v, Level0([])) && NumberedFrom([], next, next)
  {
    hide Inv, Next, WrittenIn, Stored, NoneAfter, Newer, Identified, NumbersBelow, All, Bare, Installed, Level0;
    hide ValidVersion, Ordered;
    var f := FlushedPart(events, n);
    WrittenIsIdentified(states, events, n, j);
    WrittenBetween(states, events, f, j);
    st := FoundIsBare(states[n], WrittenIn(states, events, f, j), last, states[f].lastSequence, next);
    InvVersion(states[n]);
    NothingInstalled(v);
    assert held[..0] == [];
    NothingFoundIn(names, texts);
    assert {} + Stored(v) == Stored(v);
  }

  lemma NothingFoundIn(names: Naming, texts: Texts)
    ensures FoundIn(names, texts, []) == {}
  {
  }

  lemma RaiseNumbers(v: Version, next: nat)
    requires NumbersBelow(v, next)
    ensures NumbersBelow(v, next + 1)
  {
  }

  lemma BareStarts(manifest: seq<Record>, st: State, spec: Spec)
    requires Bare(st) && Opens(manifest, st) && ReadsLike(All(st), st.lastSequence, spec.current)
    ensures Starts(manifest, st, spec)
  {
    hide Inv, Opens, ReadsLike, All;
  }

  lemma AllTables(tables: seq<MemTables.MemTable>, held: seq<seq<MemTables.MemEntry>>)
    requires LogRecovery.Tables(tables, held)
    ensures |held| == |tables|
  {
  }

  /** The recovered memtables in turn; behind those of the first log its number is taken. */
  method WriteTables(versions: VersionSet, tables: seq<MemTables.MemTable>, imms: nat, immNumber: nat, names: Naming,
                     texts: Texts, sizes: nat -> nat, ghost held: seq<seq<MemTables.MemEntry>>, ghost bare: State,
                     ghost from: nat)
      returns (files: seq<File>, ghost st: State)
    requires versions.Valid() && LogRecovery.Tables(tables, held) && imms <= |tables|
    requires bare == State([], None, versions.current, versions.lastSequence, [], from) &&
      versions.nextFileNumber == from
    requires Bare(bare) && NumbersBelow(versions.current, from) && ValidVersion(versions.current) &&
      Ordered(versions.current[0])
    requires KeepsOrder(names) && LogRecovery.Aged(held) && AllSpelt(names, held) &&
      Identified(FoundIn(names, texts, held))
    requires Newer(FoundIn(names, texts, held), Stored(versions.current)) &&
      NoneAfter(FoundIn(names, texts, held), bare.lastSequence)
    requires All(bare) == FoundIn(names, texts, held[..0]) + Stored(bare.version) &&
      bare.version == Installed(bare.version, Level0([]))
    modifies versions`nextFileNumber
    ensures versions.Valid() && immNumber < versions.nextFileNumber && NumberedFrom(files, from, st.nextFile)
    ensures Bare(st) && All(st) == FoundIn(names, texts, held) + Stored(versions.current)
    ensures st == bare.(version := Installed(versions.current, Level0(files)), nextFile := versions.nextFileNumber)
    ensures SizedBy(files, sizes)
  {
    hide SizedBy;
    hide FoundIn, LogRecovery.Tables, Stored, LogRecovery.Aged, AllSpelt, NumbersBelow, Bare, All, Newer, NoneAfter;
    hide Identified;
    hide Installed, Level0, ValidVersion, Ordered, KeepsOrder, NumberedFrom, Stocked, LeadsTo, EntriesBack, TableOf;
    hide MemTables.Ascending;
    ghost var v := versions.current;
    files, st := [], bare;
    AllTables(tables, held);
    NoNumbers(from, sizes);
    for i := 0 to |tables|
      invariant versions.Valid() && LogRecovery.Tables(tables, held) &&
        (i > imms ==> immNumber < versions.nextFileNumber)
      invariant Bare(st) && st == bare.(version := Installed(v, Level0(files)), nextFile := versions.nextFileNumber)
      invariant NumberedFrom(files, from, st.nextFile) && All(st) == FoundIn(names, texts, held[..i]) + Stored(v)
      invariant SizedBy(files, sizes)
    {
      if i == imms {
        versions.MarkFileNumberUsed(immNumber);
      }
      OneTable(tables, held, i);
      var number := versions.NewFileNumber();
      var t := ReadTable(tables[i], names, texts);
      NextTable(names, texts, held, i, st, v, files, from, number, sizes(i));
      st := WithTable(st, t, number, sizes(i));
      SizedMore(files, sizes, t, number, i);
      files := AndTable(files, t, number, sizes(i));
    }
    assert held[..|held|] == held;
    if imms == |tables| {
      versions.MarkFileNumberUsed(immNumber);
    }
    RaiseKeepsBare(st, versions.nextFileNumber);
    MoreNumbers(files, from, st.nextFile, versions.nextFileNumber);
    st := st.(nextFile := versions.nextFileNumber);
  }

  lemma NoNumbers(from: nat, sizes: nat -> nat)
    ensures NumberedFrom([], from, from) && SizedBy([], sizes)
  {
  }

  /** Every size is one that was given. */
  ghost predicate SizedBy(files: seq<File>, sizes: nat -> nat) {
    forall f :: f in files ==> exists i: nat :: f.size == sizes(i)
  }

  lemma SizedMore(files: seq<File>, sizes: nat -> nat, t: seq<Entry>, number: nat, i: nat)
    requires SizedBy(files, sizes)
    ensures SizedBy(AndTable(files, t, number, sizes(i)), sizes)
  {
  }

  /** A snapshot of the recovered files, and the edit that adds the recovered memtables. */
  ghost predicate NewManifest(manifest: seq<Record>, v: Version, files: seq<File>, logNumber: nat, next: nat,
                              last: nat) {
    |v| == NUM_LEVELS && |manifest| == 2 && manifest[0] == Record(Edit([], SnapshotFiles(v, NUM_LEVELS)), NONE) &&
    manifest[1] == Record(Level0(files), Counters(Some(logNumber), Some(0), Some(next), Some(last)))
  }

  /** DB::Open after a crash behind n steps. The files of the manifest and the memtables of the logs, written to level
    0, are a state that reads like the map behind some j of the steps, and the new manifest, a snapshot and one edit,
    opens it: so the next run starts as the first one did. The new log is newer than those that were recovered. */
  method Reopen(manifest: Bytes, immLog: Bytes, memLog: Bytes, sum: Log.Checksum, comparator: Bytes, names: Naming,
                texts: Texts, disk: Disk, full: nat -> bool, sizes: nat -> nat, immNumber: nat, memNumber: nat,
                ghost written: seq<Written>, ghost first: seq<Record>, ghost states: seq<State>,
                ghost events: seq<Event>, ghost spec: Spec, ghost n: nat)
      returns (versions: VersionSet, logNumber: nat, files: seq<File>, ghost from: nat, ghost st: State, ghost j: nat)
    requires Sound(names, texts, first, states, events, spec) && n <= |events| && KeepsOrder(names)
    requires ManifestOf(names, disk, comparator, written, first, states, events) && LogsBelow(RecordsOf(written))
    requires manifest <= Log.FileOf(sum, AllBytes(names, written))
    requires Log.WhollyKept(sum, AllBytes(names, written), |manifest|, |LoggedBefore(first, states, events, n)|)
    requires immLog <= Log.FileOf(sum, ImmLog(names, texts, states, events, n))
    requires memLog <= Log.FileOf(sum, MemLog(names, texts, states, events, n))
    requires immLog == Log.FileOf(sum, ImmLog(names, texts, states, events, n)) || memLog == []
    ensures fresh(versions) && versions.Valid() && versions.manifest.Some? && versions.logNumber == logNumber
    ensures st == State([], None, versions.current, versions.lastSequence, [], versions.nextFileNumber)
    ensures immNumber < logNumber && memNumber < logNumber < st.nextFile
    ensures FlushedPart(events, n) <= j <= n && Starts(versions.manifest.value, st, SpecRun(spec, events[..j]))
    ensures versions.prevLogNumber == 0 && UsedFits(versions.current, versions.used, versions.nextFileNumber)
    ensures NewManifest(versions.manifest.value, states[n].version, files, logNumber, st.nextFile, st.lastSequence)
    ensures All(st) == WrittenIn(states, events, FlushedPart(events, n), j) + Stored(states[n].version)
    ensures st.version == Installed(states[n].version, Level0(files)) && SizedBy(files, sizes)
    ensures NumbersBelow(states[n].version, from) && NumberedFrom(files, from, st.nextFile)
    ensures immLog != Log.FileOf(sum, ImmLog(names, texts, states, events, n)) ==>
      j <= SealedPart(events, n) &&
      Log.WhollyKept(sum, ImmLog(names, texts, states, events, n), |immLog|,
                     |BatchesOf(names, texts, states, events, FlushedPart(events, n), j)|)
    ensures immLog == Log.FileOf(sum, ImmLog(names, texts, states, events, n)) ==>
      SealedPart(events, n) <= j &&
      Log.WhollyKept(sum, MemLog(names, texts, states, events, n), |memLog|,
                     |BatchesOf(names, texts, states, events, SealedPart(events, n), j)|)
    ensures immLog == Log.FileOf(sum, ImmLog(names, texts, states, events, n)) ==>
      memLog == Log.FileOf(sum, MemLog(names, texts, states, events, n)) ==>
      j == n
  {
    hide Next, Inv, Opens, AllSpelled, SmallWrites, CrashSafe, ManifestOf, Log.FileOf, Log.WhollyKept, LoggedBefore;
    hide BatchesOf, WrittenIn;
    hide FoundIn, LogRecovery.Tables, ReadsLike, Stored, AllBytes, LogRecovery.Aged, AllSpelt, NumbersBelow;
    hide LogsBelow, Bare, All;
    hide Newer, NoneAfter, Identified, Installed, Level0, ValidVersion, Ordered, KeepsOrder, NumberedFrom, Stocked;
    hide LeadsTo;
    hide EntriesBack, TableOf, AddsFresh, UsedAfter, RecoverySpec, NumbersIn, MemTables.Ascending, UsedFits, ImmLog;
    hide MemLog, SpecRun, SizedBy, SnapshotFiles;
    var r, tables, imms, lastSequence;
    ghost var held;
    r, tables, imms, lastSequence, held, j := Open(manifest, immLog, memLog, sum, comparator, names, disk, full,
                                                   texts, written, first, states, events, spec, n);
    ghost var v := r.version;
    from := r.nextFile + 1;
    RaiseNumbers(v, r.nextFile);
    st := BareBehindCrash(names, texts, states, events, n, j, v, held, lastSequence, from);
    VersionLength(v);
    VersionIsStocked(v, from);
    versions := new VersionSet.Reopened(r, NumbersIn(v));
    versions.SetLastSequence(lastSequence);
    files, st := WriteTables(versions, tables, imms, immNumber, names, texts, sizes, held, st, from);
    versions.MarkFileNumberUsed(memNumber);
    logNumber := versions.NewFileNumber();
    RaiseKeepsBare(st, versions.nextFileNumber);
    MoreNumbers(files, from, st.nextFile, versions.nextFileNumber);
    st := st.(nextFile := versions.nextFileNumber);
    FreshForAll(v, files, from, versions.nextFileNumber);
    versions.LogAndApply(Level0(files), Some(logNumber), Some(0));
    NewManifestOpens(v, files, from, versions.manifest.value, st);
    NumbersFitAfter(v, files, from, st);
    BareStarts(versions.manifest.value, st, SpecRun(spec, events[..j]));
  }
}
