/** The memtable of db/memtable.cc at the level of its entries' bytes: what Add writes, the order KeyComparator gives,
    and what Get reads back.  The skip list that keeps the entries in order is the subject of SkipList. */
module MemTables {
  import opened Options
  import opened Coding
  import opened Comparator

  const DELETION: nat := 0
  const VALUE: nat := 1
  const MAX_SEQUENCE: nat := 0xFF_FFFF_FFFF_FFFF

  datatype MemEntry = MemEntry(sequence: nat, kind: nat, key: Bytes, value: Bytes)

  /** Found a value, found a deletion, or nothing for the key. */
  datatype Found = Value(value: Bytes) | Deleted | Missing

  // ---- entries ---------------------------------------------------------------------------------

  ghost predicate Storable(e: MemEntry) {
    e.sequence <= MAX_SEQUENCE && e.kind <= VALUE && |e.key| + 8 < WORD32 && |e.value| < WORD32
  }

  /** PackSequenceAndType. */
  function Tag(e: MemEntry): nat {
    256 * e.sequence + e.kind
  }

  function InternalKeyOf(e: MemEntry): Bytes {
    InternalKey(e.key, Tag(e))
  }

  function EntryBytes(e: MemEntry): Bytes {
    Prefixed(InternalKeyOf(e)) + Prefixed(e.value)
  }

  /** KeyComparator on two entries: user keys ascending, then sequence and kind descending. */
  ghost predicate EntryLess(a: MemEntry, b: MemEntry) {
    Less(a.key, b.key) || (a.key == b.key && Tag(a) > Tag(b))
  }

  lemma OrderIs(a: MemEntry, b: MemEntry)
    requires Storable(a) && Storable(b)
    ensures InternalLess(InternalKeyOf(a), InternalKeyOf(b)) <==> EntryLess(a, b)
  {
    hide Less, Fixed, Unfixed;
    InternalKeyParts(a.key, Tag(a));
    InternalKeyParts(b.key, Tag(b));
  }

  /** A length-prefixed string at the start of an entry. */
  lemma KeyReads(e: MemEntry)
    requires Storable(e)
    ensures var k := GetPrefixed(EntryBytes(e), 0);
      k == Some(Read(InternalKeyOf(e), |Prefixed(InternalKeyOf(e))|)) &&
      GetPrefixed(EntryBytes(e), k.value.next) == Some(Read(e.value, |EntryBytes(e)|))
  {
    hide Prefixed, GetPrefixed, InternalKeyOf;
    var bytes, key := EntryBytes(e), Prefixed(InternalKeyOf(e));
    KeyLength(e);
    assert bytes[0..|bytes|] == bytes;
    AtParts(bytes, 0, key, Prefixed(e.value));
    PrefixedRoundTrip(bytes, 0, InternalKeyOf(e));
    PrefixedRoundTrip(bytes, |key|, e.value);
  }

  lemma KeyLength(e: MemEntry)
    requires Storable(e)
    ensures |InternalKeyOf(e)| == |e.key| + 8 < WORD32 && Tag(e) < WORD64
  {
  }

  /** What is written for a lookup is read by KeyComparator as an entry's key. */
  lemma LookupReads(k: Bytes)
    requires |k| < WORD32
    ensures GetPrefixed(Prefixed(k), 0) == Some(Read(k, |Prefixed(k)|))
  {
    hide Prefixed, GetPrefixed;
    var bytes := Prefixed(k);
    assert bytes[0..|bytes|] == bytes;
    PrefixedRoundTrip(bytes, 0, k);
  }

  // ---- what a memtable answers ---------------------------------------------------------------------

  /** The newest entry of the key at or below the sequence number. */
  ghost predicate IsNewest(entries: seq<MemEntry>, key: Bytes, sequence: nat, e: MemEntry) {
    e in entries && e.key == key && e.sequence <= sequence &&
    forall x :: x in entries && x.key == key && x.sequence <= sequence ==> x.sequence <= e.sequence
  }

  ghost predicate NoneVisible(entries: seq<MemEntry>, key: Bytes, sequence: nat) {
    forall x :: x in entries && x.key == key ==> x.sequence > sequence
  }

  ghost predicate Ascending(entries: seq<MemEntry>) {
    forall i, j :: 0 <= i < j < |entries| ==> EntryLess(entries[i], entries[j])
  }

  /** LookupKey: the key with the sequence number and the largest kind, so that it sorts first among its equals. */
  function Lookup(key: Bytes, sequence: nat): MemEntry {
    MemEntry(sequence, VALUE, key, [])
  }

  /** The first entry at or after the lookup key is the newest visible one, if its user key is right. */
  lemma FirstIsNewest(entries: seq<MemEntry>, key: Bytes, sequence: nat, i: nat)
    requires Ascending(entries) && (forall e :: e in entries ==> Storable(e)) && i <= |entries|
    requires forall j :: 0 <= j < i ==> EntryLess(entries[j], Lookup(key, sequence))
    requires i < |entries| ==> !EntryLess(entries[i], Lookup(key, sequence))
    ensures if i < |entries| &&
      entries[i].key == key then IsNewest(entries, key, sequence, entries[i]) else NoneVisible(entries, key, sequence)
  {
    hide Less;
    forall j | 0 <= j < |entries| && entries[j].key == key
      ensures j < i ==> entries[j].sequence > sequence
      ensures j >= i ==> entries[i].key == key && entries[j].sequence <= entries[i].sequence
    {
      LessIsTotal(key, key);
      assert entries[j] in entries;
      if j >= i {
        assert entries[i] in entries;
        LessIsTotal(entries[i].key, key);
      }
    }
    forall x | x in entries && x.key == key ensures exists j :: 0 <= j < |entries| && entries[j] == x {
    }
  }

  class MemTable {
    /** The entries' bytes in the order of the skip list. */
    var table: seq<Bytes>
    ghost var entries: seq<MemEntry>

    ghost predicate Valid()
      reads this
    {
      |table| == |entries| && Ascending(entries) &&
      forall i :: 0 <= i < |entries| ==> Storable(entries[i]) && table[i] == EntryBytes(entries[i])
    }

    constructor ()
      ensures Valid() && entries == []
    {
      table, entries := [], [];
    }

    /** The first entry at or after the key, by KeyComparator. */
    method Seek(memkey: Bytes, ghost target: MemEntry) returns (i: nat)
      requires Valid() && Storable(target) && memkey == Prefixed(InternalKeyOf(target))
      ensures i <= |table| && (forall j :: 0 <= j < i ==> EntryLess(entries[j], target)) &&
        (i < |table| ==> !EntryLess(entries[i], target))
    {
      hide EntryBytes, InternalKeyOf, EntryLess, GetPrefixed, Prefixed, Ascending;
      KeyLength(target);
      LookupReads(InternalKeyOf(target));
      i := 0;
      while i < |table|
        invariant i <= |table| && forall j :: 0 <= j < i ==> EntryLess(entries[j], target)
      {
        KeyReads(entries[i]);
        OrderIs(entries[i], target);
        var a := GetLengthPrefixedSlice(table[i], 0);
        var b := GetLengthPrefixedSlice(memkey, 0);
        if !InternalLess(a.value.value, b.value.value) {
          return;
        }
        i := i + 1;
      }
    }

    /** An entry with a new sequence number for its key is added in its place. */
    method Add(sequence: nat, kind: nat, key: Bytes, value: Bytes)
      requires Valid() && Storable(MemEntry(sequence, kind, key, value))
      requires forall x :: x in entries && x.key == key ==> x.sequence != sequence
      modifies this
      ensures Valid()
      ensures exists i ::
        0 <= i <= |old(entries)| &&
        entries == old(entries)[..i] + [MemEntry(sequence, kind, key, value)] + old(entries)[i..]
    {
      hide EntryBytes, InternalKeyOf, EntryLess, Prefixed, Ascending, Fixed;
      ghost var e := MemEntry(sequence, kind, key, value);
      KeyLength(e);
      var packed := 256 * sequence + kind;
      KeyIs(e);
      var k := PutLengthPrefixedSlice(key + Fixed(packed, 8));
      var v := PutLengthPrefixedSlice(value);
      var buf := k + v;
      var i := Seek(k, e);
      InsertKeepsOrder(entries, e, i);
      table := table[..i] + [buf] + table[i..];
      entries := entries[..i] + [e] + entries[i..];
    }

    /** The newest entry of the key at or below the sequence number: its value, that it is deleted, or nothing. */
    method Get(key: Bytes, sequence: nat) returns (r: Found)
      requires Valid() && sequence <= MAX_SEQUENCE && |key| + 8 < WORD32
      ensures r.Missing? <==> NoneVisible(entries, key, sequence)
      ensures !r.Missing? ==>
        exists e :: IsNewest(entries, key, sequence, e) && r == if e.kind == VALUE then Value(e.value) else Deleted
    {
      hide EntryBytes, InternalKeyOf, EntryLess, Prefixed, Ascending, Fixed, IsNewest, NoneVisible;
      hide GetPrefixed, Trailer, UserPart;
      ghost var target := Lookup(key, sequence);
      KeyIs(target);
      KeyLength(target);
      var memkey := PutLengthPrefixedSlice(key + Fixed(256 * sequence + VALUE, 8));
      var i := Seek(memkey, target);
      FirstIsNewest(entries, key, sequence, i);
      VisibleOrNot(entries, key, sequence, if i < |table| then entries[i] else target);
      r := Missing;
      if i < |table| {
        KeyReads(entries[i]);
        KeyParts(entries[i]);
        var entry := GetLengthPrefixedSlice(table[i], 0);
        var internalKey := entry.value.value;
        if UserPart(internalKey) == key {
          var tag := Trailer(internalKey);
          if tag % 256 == VALUE {
            var v := GetLengthPrefixedSlice(table[i], entry.value.next);
            r := Value(v.value.value);
          } else {
            r := Deleted;
          }
        }
      }
    }
  }

  lemma KeyIs(e: MemEntry)
    ensures InternalKeyOf(e) == e.key + Fixed(Tag(e), 8) &&
      EntryBytes(e) == Prefixed(InternalKeyOf(e)) + Prefixed(e.value)
  {
  }

  lemma KeyParts(e: MemEntry)
    requires Storable(e)
    ensures |InternalKeyOf(e)| >= 8 && UserPart(InternalKeyOf(e)) == e.key && Trailer(InternalKeyOf(e)) == Tag(e) &&
      Tag(e) % 256 == e.kind
  {
    InternalKeyParts(e.key, Tag(e));
  }

  lemma VisibleOrNot(entries: seq<MemEntry>, key: Bytes, sequence: nat, e: MemEntry)
    ensures !(IsNewest(entries, key, sequence, e) && NoneVisible(entries, key, sequence))
  {
  }

  /** In front of the first entry that is not smaller is where a new one goes. */
  lemma InsertKeepsOrder(entries: seq<MemEntry>, e: MemEntry, i: nat)
    requires Ascending(entries) && i <= |entries| && Storable(e) && (forall x :: x in entries ==> Storable(x))
    requires forall x :: x in entries && x.key == e.key ==> x.sequence != e.sequence
    requires (forall j :: 0 <= j < i ==> EntryLess(entries[j], e)) && (i < |entries| ==> !EntryLess(entries[i], e))
    ensures Ascending(entries[..i] + [e] + entries[i..])
  {
    hide Less;
    forall j | i <= j < |entries| ensures EntryLess(e, entries[j]) {
      assert entries[i] in entries;
      EntryOrder(e, entries[i]);
      if j > i {
        EntryLessIsTransitive(e, entries[i], entries[j]);
      }
    }
  }

  lemma EntryOrder(a: MemEntry, b: MemEntry)
    requires Storable(a) && Storable(b) && (a.key == b.key ==> a.sequence != b.sequence)
    ensures EntryLess(a, b) || EntryLess(b, a)
  {
    LessIsTotal(a.key, b.key);
  }

  lemma EntryLessIsTransitive(a: MemEntry, b: MemEntry, c: MemEntry)
    requires EntryLess(a, b) && EntryLess(b, c)
    ensures EntryLess(a, c)
  {
    hide Less;
    if Less(a.key, b.key) && Less(b.key, c.key) {
      LessIsTransitive(a.key, b.key, c.key);
    }
  }
}
