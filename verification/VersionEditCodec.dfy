/** Version edits as bytes: db/version_edit.cc.  Internal keys are the byte strings they are stored as. */
module VersionEditCodec {
  import opened Options
  import opened Coding

  const NUM_LEVELS: nat := 7

  const COMPARATOR: nat := 1
  const LOG_NUMBER: nat := 2
  const NEXT_FILE_NUMBER: nat := 3
  const LAST_SEQUENCE: nat := 4
  const COMPACT_POINTER: nat := 5
  const DELETED_FILE: nat := 6
  const NEW_FILE: nat := 7
  const PREV_LOG_NUMBER: nat := 9

  datatype FileMeta = FileMeta(number: nat, size: nat, smallest: Bytes, largest: Bytes)

  /** The contents of a VersionEdit.  deleted is a std::set, listed in its order. */
  datatype EditRecord = EditRecord(comparator: Option<Bytes>, logNumber: Option<nat>, prevLogNumber: Option<nat>,
                                   nextFileNumber: Option<nat>,
                                   lastSequence: Option<nat>, compactPointers: seq<(nat, Bytes)>,
                                     deleted: seq<(nat, nat)>,
                                   added: seq<(nat, FileMeta)>)

  /** One tagged field. */
  datatype Item =
    | Comparator(name: Bytes)
    | Number(tag: nat, number: nat)
    | CompactPointer(level: nat, key: Bytes)
    | DeletedFile(level: nat, number: nat)
    | NewFile(level: nat, meta: FileMeta)

  predicate IsNumberTag(tag: nat) {
    tag == LOG_NUMBER || tag == PREV_LOG_NUMBER || tag == NEXT_FILE_NUMBER || tag == LAST_SEQUENCE
  }

  function ItemBytes(item: Item): (r: Bytes)
    ensures |r| > 0
  {
    match item
    case Comparator(name) => Varint(COMPARATOR) + Prefixed(name)
    case Number(tag, number) => Varint(tag) + Varint(number)
    case CompactPointer(level, key) => Varint(COMPACT_POINTER) + Varint(level) + Prefixed(key)
    case DeletedFile(level, number) => Varint(DELETED_FILE) + Varint(level) + Varint(number)
    case NewFile(level, m) =>
      Varint(NEW_FILE) + Varint(level) + Varint(m.number) + Varint(m.size) + Prefixed(m.smallest) + Prefixed(m.largest)
  }

  /** What the fields of a VersionEdit can hold. */
  predicate Storable(item: Item) {
    match item
    case Comparator(name) => |name| < WORD32
    case Number(tag, number) => IsNumberTag(tag) && number < WORD64
    case CompactPointer(level, key) => level < NUM_LEVELS && 0 < |key| < WORD32
    case DeletedFile(level, number) => level < NUM_LEVELS && number < WORD64
    case NewFile(level, m) =>
      level < NUM_LEVELS && m.number < WORD64 && m.size < WORD64 && 0 < |m.smallest| < WORD32 &&
      0 < |m.largest| < WORD32
  }

  function ItemsBytes(items: seq<Item>): Bytes {
    if |items| == 0 then [] else ItemBytes(items[0]) + ItemsBytes(items[1..])
  }

  // ---- from the edit to its items and back ------------------------------------------------------

  predicate Before(a: (nat, nat), b: (nat, nat)) {
    a.0 < b.0 || (a.0 == b.0 && a.1 < b.1)
  }

  /** std::set::insert. */
  function Insert(s: seq<(nat, nat)>, x: (nat, nat)): seq<(nat, nat)> {
    if |s| == 0 || Before(x, s[0]) then [x] + s else if x == s[0] then s else [s[0]] + Insert(s[1..], x)
  }

  function With(e: EditRecord, item: Item): EditRecord {
    match item
    case Comparator(name) => e.(comparator := Some(name))
    case Number(tag, n) =>
      if tag == LOG_NUMBER then e.(logNumber := Some(n))
      else if tag == PREV_LOG_NUMBER then e.(prevLogNumber := Some(n))
      else if tag == NEXT_FILE_NUMBER then e.(nextFileNumber := Some(n))
      else e.(lastSequence := Some(n))
    case CompactPointer(level, key) => e.(compactPointers := e.compactPointers + [(level, key)])
    case DeletedFile(level, n) => e.(deleted := Insert(e.deleted, (level, n)))
    case NewFile(level, m) => e.(added := e.added + [(level, m)])
  }

  function WithAll(e: EditRecord, items: seq<Item>): EditRecord
    decreases |items|
  {
    if |items| == 0 then e else WithAll(With(e, items[0]), items[1..])
  }

  function NumberItem(tag: nat, n: Option<nat>): seq<Item> {
    if n.Some? then [Number(tag, n.value)] else []
  }

  function Pointers(s: seq<(nat, Bytes)>): (r: seq<Item>)
    ensures |r| == |s|
  {
    seq(|s|, i requires 0 <= i < |s| => CompactPointer(s[i].0, s[i].1))
  }

  function Deletions(s: seq<(nat, nat)>): (r: seq<Item>)
    ensures |r| == |s|
  {
    seq(|s|, i requires 0 <= i < |s| => DeletedFile(s[i].0, s[i].1))
  }

  function Additions(s: seq<(nat, FileMeta)>): (r: seq<Item>)
    ensures |r| == |s|
  {
    seq(|s|, i requires 0 <= i < |s| => NewFile(s[i].0, s[i].1))
  }

  /** The fields in the order EncodeTo writes them. */
  function ItemsOf(e: EditRecord): seq<Item> {
    (if e.comparator.Some? then [Comparator(e.comparator.value)] else []) + NumberItem(LOG_NUMBER, e.logNumber) +
    NumberItem(PREV_LOG_NUMBER, e.prevLogNumber) + NumberItem(NEXT_FILE_NUMBER, e.nextFileNumber) +
      NumberItem(LAST_SEQUENCE, e.lastSequence) +
    Pointers(e.compactPointers) + Deletions(e.deleted) + Additions(e.added)
  }

  const CLEARED := EditRecord(None, None, None, None, None, [], [], [])

  ghost predicate Listed(s: seq<(nat, nat)>) {
    forall i, j :: 0 <= i < j < |s| ==> Before(s[i], s[j])
  }

  lemma {:induction false} InsertLast(s: seq<(nat, nat)>, x: (nat, nat))
    requires forall i :: 0 <= i < |s| ==> Before(s[i], x)
    ensures Insert(s, x) == s + [x]
  {
    if |s| > 0 {
      assert Before(s[0], x);
      InsertLast(s[1..], x);
      assert s == [s[0]] + s[1..];
    } else {
      assert s + [x] == [x];
    }
  }

  lemma {:induction false} WithConcat(e: EditRecord, a: seq<Item>, b: seq<Item>)
    ensures WithAll(e, a + b) == WithAll(WithAll(e, a), b)
    decreases |a|
  {
    if |a| == 0 {
      assert a + b == b;
    } else {
      assert (a + b)[1..] == a[1..] + b;
      WithConcat(With(e, a[0]), a[1..], b);
    }
  }

  lemma {:induction false} WithPointers(e: EditRecord, s: seq<(nat, Bytes)>)
    ensures WithAll(e, Pointers(s)) == e.(compactPointers := e.compactPointers + s)
    decreases |s|
  {
    if |s| == 0 {
      assert e.compactPointers + s == e.compactPointers;
    } else {
      assert Pointers(s)[1..] == Pointers(s[1..]);
      WithPointers(e.(compactPointers := e.compactPointers + [s[0]]), s[1..]);
      assert e.compactPointers + [s[0]] + s[1..] == e.compactPointers + s;
    }
  }

  lemma {:induction false} WithDeletions(e: EditRecord, s: seq<(nat, nat)>)
    requires Listed(e.deleted + s)
    ensures WithAll(e, Deletions(s)) == e.(deleted := e.deleted + s)
    decreases |s|
  {
    if |s| == 0 {
      assert e.deleted + s == e.deleted;
    } else {
      assert Deletions(s)[1..] == Deletions(s[1..]);
      forall i | 0 <= i < |e.deleted| ensures Before(e.deleted[i], s[0]) {
        assert (e.deleted + s)[i] == e.deleted[i] && (e.deleted + s)[|e.deleted|] == s[0];
      }
      InsertLast(e.deleted, s[0]);
      assert e.deleted + [s[0]] + s[1..] == e.deleted + s;
      WithDeletions(e.(deleted := e.deleted + [s[0]]), s[1..]);
    }
  }

  lemma {:induction false} WithAdditions(e: EditRecord, s: seq<(nat, FileMeta)>)
    ensures WithAll(e, Additions(s)) == e.(added := e.added + s)
    decreases |s|
  {
    if |s| == 0 {
      assert e.added + s == e.added;
    } else {
      assert Additions(s)[1..] == Additions(s[1..]);
      WithAdditions(e.(added := e.added + [s[0]]), s[1..]);
      assert e.added + [s[0]] + s[1..] == e.added + s;
    }
  }

  /** Taking the items in again, into a cleared edit, gives the edit. */
  lemma ItemsRebuild(e: EditRecord)
    requires Listed(e.deleted)
    ensures WithAll(CLEARED, ItemsOf(e)) == e
  {
    hide Pointers, Deletions, Additions, Insert;
    var a := if e.comparator.Some? then [Comparator(e.comparator.value)] else [];
    var b, c := NumberItem(LOG_NUMBER, e.logNumber), NumberItem(PREV_LOG_NUMBER, e.prevLogNumber);
    var d, f := NumberItem(NEXT_FILE_NUMBER, e.nextFileNumber), NumberItem(LAST_SEQUENCE, e.lastSequence);
    var heads := a + b + c + d + f;
    WithConcat(CLEARED, heads + Pointers(e.compactPointers) + Deletions(e.deleted), Additions(e.added));
    WithConcat(CLEARED, heads + Pointers(e.compactPointers), Deletions(e.deleted));
    WithConcat(CLEARED, heads, Pointers(e.compactPointers));
    HeadsRebuild(e, a, b, c, d, f);
    var e1 := CLEARED.(comparator := e.comparator, logNumber := e.logNumber, prevLogNumber := e.prevLogNumber,
                       nextFileNumber := e.nextFileNumber, lastSequence := e.lastSequence);
    WithPointers(e1, e.compactPointers);
    assert [] + e.deleted == e.deleted && [] + e.compactPointers == e.compactPointers && [] + e.added == e.added;
    WithDeletions(e1.(compactPointers := e.compactPointers), e.deleted);
    WithAdditions(e1.(compactPointers := e.compactPointers, deleted := e.deleted), e.added);
  }

  lemma HeadsRebuild(e: EditRecord, a: seq<Item>, b: seq<Item>, c: seq<Item>, d: seq<Item>, f: seq<Item>)
    requires a == if e.comparator.Some? then [Comparator(e.comparator.value)] else []
    requires b == NumberItem(LOG_NUMBER, e.logNumber) && c == NumberItem(PREV_LOG_NUMBER, e.prevLogNumber)
    requires d == NumberItem(NEXT_FILE_NUMBER, e.nextFileNumber) && f == NumberItem(LAST_SEQUENCE, e.lastSequence)
    ensures WithAll(CLEARED, a + b + c + d + f) ==
      CLEARED.(comparator := e.comparator, logNumber := e.logNumber, prevLogNumber := e.prevLogNumber,
               nextFileNumber := e.nextFileNumber, lastSequence := e.lastSequence)
  {
    WithConcat(CLEARED, a + b + c + d, f);
    WithConcat(CLEARED, a + b + c, d);
    WithConcat(CLEARED, a + b, c);
    WithConcat(CLEARED, a, b);
    WithOne(CLEARED, a);
    var e1 := CLEARED.(comparator := e.comparator);
    WithOne(e1, b);
    WithOne(e1.(logNumber := e.logNumber), c);
    WithOne(e1.(logNumber := e.logNumber, prevLogNumber := e.prevLogNumber), d);
    WithOne(e1.(logNumber := e.logNumber, prevLogNumber := e.prevLogNumber, nextFileNumber := e.nextFileNumber), f);
  }

  lemma WithOne(e: EditRecord, items: seq<Item>)
    requires |items| <= 1
    ensures WithAll(e, items) == if |items| == 1 then With(e, items[0]) else e
  {
    if |items| == 1 {
      assert items[1..] == [];
    }
  }

  // ---- reading items -------------------------------------------------------------------------------

  /** GetLevel. */
  function ReadLevel(data: Bytes, p: nat): (r: Option<Read<nat>>)
    requires p <= |data|
    ensures r.Some? ==> p <= r.value.next <= |data|
  {
    match GetVarint(data, p, |data|, false)
    case None => None
    case Some(Read(v, q)) => if v < NUM_LEVELS then Some(Read(v, q)) else None
  }

  /** GetInternalKey: the empty string is no key. */
  function ReadKey(data: Bytes, p: nat): (r: Option<Read<Bytes>>)
    requires p <= |data|
    ensures r.Some? ==> p <= r.value.next <= |data|
  {
    match GetPrefixed(data, p)
    case None => None
    case Some(Read(k, q)) => if |k| > 0 then Some(Read(k, q)) else None
  }

  /** What follows a tag. */
  function ReadItem(tag: nat, data: Bytes, p: nat): (r: Option<Read<Item>>)
    requires p <= |data|
    ensures r.Some? ==> p <= r.value.next <= |data|
  {
    if tag == COMPARATOR then
      match GetPrefixed(data, p)
      case None => None
      case Some(Read(name, q)) => Some(Read(Comparator(name), q))
    else if IsNumberTag(tag) then
      match GetVarint(data, p, |data|, true)
      case None => None
      case Some(Read(n, q)) => Some(Read(Number(tag, n), q))
    else if tag == COMPACT_POINTER || tag == DELETED_FILE || tag == NEW_FILE then
      match ReadLevel(data, p)
      case None => None
      case Some(Read(level, q)) => ReadLevelItem(tag, level, data, q)
    else None
  }

  function ReadLevelItem(tag: nat, level: nat, data: Bytes, q: nat): (r: Option<Read<Item>>)
    requires q <= |data|
    ensures r.Some? ==> q <= r.value.next <= |data|
  {
    if tag == COMPACT_POINTER then
      match ReadKey(data, q)
      case None => None
      case Some(Read(key, r)) => Some(Read(CompactPointer(level, key), r))
    else
      match GetVarint(data, q, |data|, true)
      case None => None
      case Some(Read(n, r)) => if tag == DELETED_FILE then Some(Read(DeletedFile(level, n), r))
        else ReadNewFile(level, n, data, r)
  }

  function ReadNewFile(level: nat, number: nat, data: Bytes, p: nat): (r: Option<Read<Item>>)
    requires p <= |data|
    ensures r.Some? ==> p <= r.value.next <= |data|
  {
    match GetVarint(data, p, |data|, true)
    case None => None
    case Some(Read(size, q)) =>
      match ReadKey(data, q)
      case None => None
      case Some(Read(smallest, r)) =>
        match ReadKey(data, r)
        case None => None
        case Some(Read(largest, s)) => Some(Read(NewFile(level, FileMeta(number, size, smallest, largest)), s))
  }

  /** Reads items to the end; anything else is corruption. */
  function Decode(data: Bytes, p: nat, e: EditRecord): Option<EditRecord>
    requires p <= |data|
    decreases |data| - p
  {
    match GetVarint(data, p, |data|, false)
    case None => if p == |data| then Some(e) else None
    case Some(Read(tag, q)) =>
      match ReadItem(tag, data, q)
      case None => None
      case Some(Read(item, r)) => Decode(data, r, With(e, item))
  }

  /** The tag of an item, and the item behind it. */
  function TagOf(item: Item): nat {
    match item
    case Comparator(_) => COMPARATOR
    case Number(tag, _) => tag
    case CompactPointer(_, _) => COMPACT_POINTER
    case DeletedFile(_, _) => DELETED_FILE
    case NewFile(_, _) => NEW_FILE
  }

  function Body(item: Item): Bytes {
    match item
    case Comparator(name) => Prefixed(name)
    case Number(_, number) => Varint(number)
    case CompactPointer(level, key) => Varint(level) + Prefixed(key)
    case DeletedFile(level, number) => Varint(level) + Varint(number)
    case NewFile(level, m) =>
      Varint(level) + (Varint(m.number) + (Varint(m.size) + (Prefixed(m.smallest) + Prefixed(m.largest))))
  }

  lemma ItemIs(item: Item)
    ensures ItemBytes(item) == Varint(TagOf(item)) + Body(item)
  {
    hide Varint, Prefixed;
    match item
    case Comparator(_) =>
    case Number(_, _) =>
    case CompactPointer(level, key) =>
      assert ItemBytes(item) == Varint(COMPACT_POINTER) + (Varint(level) + Prefixed(key));
    case DeletedFile(level, number) =>
      assert ItemBytes(item) == Varint(DELETED_FILE) + (Varint(level) + Varint(number));
    case NewFile(level, m) =>
      assert ItemBytes(item) ==
        Varint(NEW_FILE) +
          (Varint(level) + (Varint(m.number) + (Varint(m.size) + (Prefixed(m.smallest) + Prefixed(m.largest)))));
  }

  lemma KeyReads(data: Bytes, p: nat, key: Bytes)
    requires 0 < |key| < WORD32 && At(data, p, Prefixed(key))
    ensures p <= |data| && ReadKey(data, p) == Some(Read(key, p + |Prefixed(key)|))
  {
    PrefixedRoundTrip(data, p, key);
  }

  lemma LevelReads(data: Bytes, p: nat, level: nat)
    requires level < NUM_LEVELS && At(data, p, Varint(level))
    ensures p <= |data| && ReadLevel(data, p) == Some(Read(level, p + |Varint(level)|))
  {
    hide GetVarint, Varint;
    VarintRoundTrip(data, p, |data|, level, false);
  }

  lemma NewFileReads(data: Bytes, p: nat, level: nat, m: FileMeta)
    requires Storable(NewFile(level, m)) && At(data, p, Varint(m.size) + (Prefixed(m.smallest) + Prefixed(m.largest)))
    ensures p <= |data| && ReadNewFile(level, m.number, data, p) ==
      Some(Read(NewFile(level, m), p + |Varint(m.size) + (Prefixed(m.smallest) + Prefixed(m.largest))|))
  {
    hide Varint, Prefixed, GetVarint, At, ReadKey;
    var q := p + |Varint(m.size)|;
    AtParts(data, p, Varint(m.size), Prefixed(m.smallest) + Prefixed(m.largest));
    AtParts(data, q, Prefixed(m.smallest), Prefixed(m.largest));
    Within(data, p, Varint(m.size));
    VarintRoundTrip(data, p, |data|, m.size, true);
    KeyReads(data, q, m.smallest);
    KeyReads(data, q + |Prefixed(m.smallest)|, m.largest);
  }

  lemma Within(data: Bytes, p: nat, bytes: Bytes)
    requires At(data, p, bytes)
    ensures p + |bytes| <= |data|
  {
  }

  lemma BodyReads(data: Bytes, p: nat, item: Item)
    requires Storable(item) && At(data, p, Body(item))
    ensures p <= |data| && ReadItem(TagOf(item), data, p) == Some(Read(item, p + |Body(item)|))
  {
    hide Varint, Prefixed, GetVarint, At, ReadKey, ReadLevel, ReadNewFile;
    Within(data, p, Body(item));
    match item
    case Comparator(name) => PrefixedRoundTrip(data, p, name);
    case Number(_, number) => VarintRoundTrip(data, p, |data|, number, true);
    case CompactPointer(level, key) =>
      AtParts(data, p, Varint(level), Prefixed(key));
      LevelReads(data, p, level);
      KeyReads(data, p + |Varint(level)|, key);
    case DeletedFile(level, number) =>
      AtParts(data, p, Varint(level), Varint(number));
      LevelReads(data, p, level);
      VarintRoundTrip(data, p + |Varint(level)|, |data|, number, true);
    case NewFile(level, m) =>
      var rest := Varint(m.size) + (Prefixed(m.smallest) + Prefixed(m.largest));
      AtParts(data, p, Varint(level), Varint(m.number) + rest);
      AtParts(data, p + |Varint(level)|, Varint(m.number), rest);
      LevelReads(data, p, level);
      Within(data, p + |Varint(level)|, Varint(m.number));
      VarintRoundTrip(data, p + |Varint(level)|, |data|, m.number, true);
      NewFileReads(data, p + |Varint(level)| + |Varint(m.number)|, level, m);
  }

  /** A string of items decodes as those items, one after the other. */
  lemma {:induction false} ItemsDecode(data: Bytes, p: nat, items: seq<Item>, e: EditRecord)
    requires AllStorable(items) && p + |ItemsBytes(items)| == |data| && At(data, p, ItemsBytes(items))
    ensures Decode(data, p, e) == Some(WithAll(e, items))
    decreases |items|
  {
    hide Varint, GetVarint, At, ReadItem, Body, With, ItemBytes;
    if |items| == 0 {
      NothingToRead(data);
    } else {
      var item := items[0];
      ItemIs(item);
      AtParts(data, p, ItemBytes(item), ItemsBytes(items[1..]));
      AtParts(data, p, Varint(TagOf(item)), Body(item));
      TagIsSmall(item);
      VarintRoundTrip(data, p, |data|, TagOf(item), false);
      BodyReads(data, p + |Varint(TagOf(item))|, item);
      ItemsDecode(data, p + |ItemBytes(item)|, items[1..], With(e, item));
    }
  }

  lemma NothingToRead(data: Bytes)
    ensures GetVarint(data, |data|, |data|, false) == None
  {
  }

  lemma TagIsSmall(item: Item)
    requires Storable(item)
    ensures TagOf(item) < WORD32
  {
  }

  /** What a VersionEdit can hold: 64-bit numbers, levels below 7, keys that are not empty. */
  ghost predicate CanStore(e: EditRecord) {
    (e.comparator.Some? ==> Storable(Comparator(e.comparator.value))) &&
    Fits(e.logNumber) && Fits(e.prevLogNumber) && Fits(e.nextFileNumber) && Fits(e.lastSequence) &&
    (forall i :: 0 <= i < |e.compactPointers| ==>
     Storable(CompactPointer(e.compactPointers[i].0, e.compactPointers[i].1))) &&
    (forall i :: 0 <= i < |e.deleted| ==> Storable(DeletedFile(e.deleted[i].0, e.deleted[i].1))) &&
    forall i :: 0 <= i < |e.added| ==> Storable(NewFile(e.added[i].0, e.added[i].1))
  }

  predicate Fits(n: Option<nat>) {
    n.Some? ==> n.value < WORD64
  }

  ghost predicate AllStorable(items: seq<Item>) {
    forall i :: 0 <= i < |items| ==> Storable(items[i])
  }

  lemma StorableConcat(a: seq<Item>, b: seq<Item>)
    requires AllStorable(a) && AllStorable(b)
    ensures AllStorable(a + b)
  {
    hide Storable;
  }

  lemma ItemsAreStorable(e: EditRecord)
    requires CanStore(e)
    ensures AllStorable(ItemsOf(e))
  {
    hide AllStorable;
    var a := if e.comparator.Some? then [Comparator(e.comparator.value)] else [];
    var b, c := NumberItem(LOG_NUMBER, e.logNumber), NumberItem(PREV_LOG_NUMBER, e.prevLogNumber);
    var d, f := NumberItem(NEXT_FILE_NUMBER, e.nextFileNumber), NumberItem(LAST_SEQUENCE, e.lastSequence);
    PartsAreStorable(e);
    StorableConcat(a, b);
    StorableConcat(a + b, c);
    StorableConcat(a + b + c, d);
    StorableConcat(a + b + c + d, f);
    StorableConcat(a + b + c + d + f, Pointers(e.compactPointers));
    StorableConcat(a + b + c + d + f + Pointers(e.compactPointers), Deletions(e.deleted));
    StorableConcat(a + b + c + d + f + Pointers(e.compactPointers) + Deletions(e.deleted), Additions(e.added));
  }

  lemma PartsAreStorable(e: EditRecord)
    requires CanStore(e)
    ensures AllStorable(if e.comparator.Some? then [Comparator(e.comparator.value)] else [])
    ensures AllStorable(NumberItem(LOG_NUMBER, e.logNumber)) &&
      AllStorable(NumberItem(PREV_LOG_NUMBER, e.prevLogNumber))
    ensures AllStorable(NumberItem(NEXT_FILE_NUMBER, e.nextFileNumber)) &&
      AllStorable(NumberItem(LAST_SEQUENCE, e.lastSequence))
    ensures AllStorable(Pointers(e.compactPointers)) && AllStorable(Deletions(e.deleted)) &&
      AllStorable(Additions(e.added))
  {
  }

  /** An edit that is written and read again, into a cleared edit, is the same edit. */
  lemma EditRoundTrip(e: EditRecord)
    requires CanStore(e) && Listed(e.deleted)
    ensures Decode(ItemsBytes(ItemsOf(e)), 0, CLEARED) == Some(e)
  {
    hide ItemsOf, ItemBytes, Storable;
    var data := ItemsBytes(ItemsOf(e));
    assert data[0..|data|] == data;
    ItemsAreStorable(e);
    ItemsDecode(data, 0, ItemsOf(e), CLEARED);
    ItemsRebuild(e);
  }

  // ---- the class -----------------------------------------------------------------------------------

  lemma {:induction false} BytesConcat(a: seq<Item>, b: seq<Item>)
    ensures ItemsBytes(a + b) == ItemsBytes(a) + ItemsBytes(b)
  {
    hide ItemBytes;
    if |a| == 0 {
      assert a + b == b;
    } else {
      assert (a + b)[1..] == a[1..] + b;
      BytesConcat(a[1..], b);
    }
  }

  lemma BytesOne(item: Item)
    ensures ItemsBytes([item]) == ItemBytes(item)
  {
    hide ItemBytes;
    assert [item][1..] == [];
  }

  class VersionEdit {
    var comparator: Option<Bytes>
    var logNumber: Option<nat>
    var prevLogNumber: Option<nat>
    var nextFileNumber: Option<nat>
    var lastSequence: Option<nat>
    var compactPointers: seq<(nat, Bytes)>
    var deleted: seq<(nat, nat)>
    var added: seq<(nat, FileMeta)>

    constructor ()
      ensures AsRecord() == CLEARED
    {
      comparator, logNumber, prevLogNumber, nextFileNumber, lastSequence := None, None, None, None, None;
      compactPointers, deleted, added := [], [], [];
    }

    function AsRecord(): EditRecord
      reads this
    {
      EditRecord(comparator, logNumber, prevLogNumber, nextFileNumber, lastSequence, compactPointers, deleted, added)
    }

    /** Clear forgets everything but the compaction pointers. */
    method Clear()
      modifies this
      ensures AsRecord() == CLEARED.(compactPointers := old(compactPointers))
    {
      comparator, logNumber, prevLogNumber, nextFileNumber, lastSequence := None, None, None, None, None;
      deleted, added := [], [];
    }

    /** Reads fields until the input is used up.  Compaction pointers of an earlier use stay in front. */
    method DecodeFrom(src: Bytes) returns (ok: bool)
      modifies this
      ensures var r := Decode(src, 0, CLEARED.(compactPointers := old(compactPointers)));
        (ok <==> r.Some?) && (ok ==> r == Some(AsRecord()))
    {
      hide Decode, GetVarint, ReadItem, With, Insert;
      Clear();
      var p := 0;
      ghost var start := AsRecord();
      var tag := GetVarintPtr(src, p, |src|, false);
      while tag.Some?
        invariant 0 <= p <= |src| && tag == GetVarint(src, p, |src|, false)
        invariant Decode(src, 0, start) == Decode(src, p, AsRecord())
        decreases |src| - p
      {
        DecodeStep(src, p, AsRecord());
        var q := TakeItem(tag.value.value, src, tag.value.next);
        if q.None? {
          return false;
        }
        p := q.value;
        tag := GetVarintPtr(src, p, |src|, false);
      }
      DecodeEnd(src, p, AsRecord());
      ok := p == |src|;
    }

    /** One case of the switch: stores the field, or finds that it cannot be read. */
    method TakeItem(tag: nat, src: Bytes, p: nat) returns (next: Option<nat>)
      requires p <= |src|
      modifies this
      ensures var r := ReadItem(tag, src, p);
        (r.None? ==> next == None) &&
        (r.Some? ==> next == Some(r.value.next) && AsRecord() == With(old(AsRecord()), r.value.value))
    {
      hide GetVarint, GetPrefixed, ReadKey, ReadLevel, Insert;
      next := None;
      if tag == COMPARATOR {
        var str := GetLengthPrefixedSlice(src, p);
        if str.Some? {
          comparator, next := Some(str.value.value), Some(str.value.next);
        }
      } else if tag == LOG_NUMBER || tag == PREV_LOG_NUMBER || tag == NEXT_FILE_NUMBER || tag == LAST_SEQUENCE {
        var n := GetVarintPtr(src, p, |src|, true);
        if n.Some? {
          next := Some(n.value.next);
          if tag == LOG_NUMBER {
            logNumber := Some(n.value.value);
          } else if tag == PREV_LOG_NUMBER {
            prevLogNumber := Some(n.value.value);
          } else if tag == NEXT_FILE_NUMBER {
            nextFileNumber := Some(n.value.value);
          } else {
            lastSequence := Some(n.value.value);
          }
        }
      } else if tag == COMPACT_POINTER || tag == DELETED_FILE || tag == NEW_FILE {
        var level := GetLevel(src, p);
        if level.Some? {
          next := TakeLevelItem(tag, level.value.value, src, level.value.next);
        }
      }
    }

    method TakeLevelItem(tag: nat, level: nat, src: Bytes, p: nat) returns (next: Option<nat>)
      requires p <= |src|
      modifies this
      ensures var r := ReadLevelItem(tag, level, src, p);
        (r.None? ==> next == None) &&
        (r.Some? ==> next == Some(r.value.next) && AsRecord() == With(old(AsRecord()), r.value.value))
    {
      hide GetVarint, GetPrefixed, ReadKey, Insert;
      next := None;
      if tag == COMPACT_POINTER {
        var key := GetInternalKey(src, p);
        if key.Some? {
          compactPointers, next := compactPointers + [(level, key.value.value)], Some(key.value.next);
        }
        return;
      }
      var number := GetVarintPtr(src, p, |src|, true);
      if number.None? {
        return;
      }
      if tag == DELETED_FILE {
        deleted, next := Insert(deleted, (level, number.value.value)), Some(number.value.next);
        return;
      }
      var size := GetVarintPtr(src, number.value.next, |src|, true);
      if size.None? {
        return;
      }
      var smallest := GetInternalKey(src, size.value.next);
      if smallest.None? {
        return;
      }
      var largest := GetInternalKey(src, smallest.value.next);
      if largest.Some? {
        added := added +
          [(level, FileMeta(number.value.value, size.value.value, smallest.value.value, largest.value.value))];
        next := Some(largest.value.next);
      }
    }

    method PutNumber(dst: Bytes, tag: nat, n: Option<nat>) returns (r: Bytes)
      requires tag < WORD32
      ensures r == dst + ItemsBytes(NumberItem(tag, n))
    {
      r := dst;
      if n.Some? {
        BytesOne(Number(tag, n.value));
        var t := EncodeVarint32(tag);
        var v := EncodeVarint64(n.value);
        r := r + (t + v);
      } else {
        assert dst + [] == dst;
      }
    }

    method EncodeTo() returns (dst: Bytes)
      requires CanStore(AsRecord())
      ensures dst == ItemsBytes(ItemsOf(AsRecord()))
    {
      hide ItemBytes, ItemsBytes, Pointers, Deletions, Additions, NumberItem, Storable;
      var e := AsRecord();
      var names: seq<Item> := if comparator.Some? then [Comparator(comparator.value)] else [];
      dst := EncodeName();
      dst := PutNumber(dst, LOG_NUMBER, logNumber);
      dst := PutNumber(dst, PREV_LOG_NUMBER, prevLogNumber);
      dst := PutNumber(dst, NEXT_FILE_NUMBER, nextFileNumber);
      dst := PutNumber(dst, LAST_SEQUENCE, lastSequence);
      var pointers := EncodePointers();
      var deletions := EncodeDeletions();
      var additions := EncodeAdditions();
      dst := dst + pointers + deletions + additions;
      var b, c := NumberItem(LOG_NUMBER, logNumber), NumberItem(PREV_LOG_NUMBER, prevLogNumber);
      var d, f := NumberItem(NEXT_FILE_NUMBER, nextFileNumber), NumberItem(LAST_SEQUENCE, lastSequence);
      var heads := names + b + c + d + f;
      BytesConcat(heads + Pointers(compactPointers) + Deletions(deleted), Additions(added));
      BytesConcat(heads + Pointers(compactPointers), Deletions(deleted));
      BytesConcat(heads, Pointers(compactPointers));
      BytesConcat(names + b + c + d, f);
      BytesConcat(names + b + c, d);
      BytesConcat(names + b, c);
      BytesConcat(names, b);
    }

    method EncodeName() returns (dst: Bytes)
      requires CanStore(AsRecord())
      ensures dst == ItemsBytes(if comparator.Some? then [Comparator(comparator.value)] else [])
    {
      hide Pointers, Deletions, Additions, NumberItem;
      dst := [];
      if comparator.Some? {
        BytesOne(Comparator(comparator.value));
        var t := EncodeVarint32(COMPARATOR);
        var s := PutLengthPrefixedSlice(comparator.value);
        dst := t + s;
      }
    }

    method EncodePointers() returns (dst: Bytes)
      requires forall i :: 0 <= i < |compactPointers| ==>
        Storable(CompactPointer(compactPointers[i].0, compactPointers[i].1))
      ensures dst == ItemsBytes(Pointers(compactPointers))
    {
      hide ItemsBytes, Varint;
      dst := [];
      BytesNone();
      for i := 0 to |compactPointers|
        invariant dst == ItemsBytes(Pointers(compactPointers)[..i])
      {
        var item := CompactPointer(compactPointers[i].0, compactPointers[i].1);
        assert Pointers(compactPointers)[..i + 1] == Pointers(compactPointers)[..i] + [item];
        BytesConcat(Pointers(compactPointers)[..i], [item]);
        BytesOne(item);
        var t := EncodeVarint32(COMPACT_POINTER);
        var l := EncodeVarint32(compactPointers[i].0);
        var k := PutLengthPrefixedSlice(compactPointers[i].1);
        dst := dst + (t + l + k);
      }
      assert Pointers(compactPointers)[..|compactPointers|] == Pointers(compactPointers);
    }

    method EncodeDeletions() returns (dst: Bytes)
      requires forall i :: 0 <= i < |deleted| ==> Storable(DeletedFile(deleted[i].0, deleted[i].1))
      ensures dst == ItemsBytes(Deletions(deleted))
    {
      hide ItemsBytes, Varint;
      dst := [];
      BytesNone();
      for i := 0 to |deleted|
        invariant dst == ItemsBytes(Deletions(deleted)[..i])
      {
        var item := DeletedFile(deleted[i].0, deleted[i].1);
        assert Deletions(deleted)[..i + 1] == Deletions(deleted)[..i] + [item];
        BytesConcat(Deletions(deleted)[..i], [item]);
        BytesOne(item);
        var t := EncodeVarint32(DELETED_FILE);
        var l := EncodeVarint32(deleted[i].0);
        var n := EncodeVarint64(deleted[i].1);
        dst := dst + (t + l + n);
      }
      assert Deletions(deleted)[..|deleted|] == Deletions(deleted);
    }

    method EncodeAdditions() returns (dst: Bytes)
      requires forall i :: 0 <= i < |added| ==> Storable(NewFile(added[i].0, added[i].1))
      ensures dst == ItemsBytes(Additions(added))
    {
      hide ItemsBytes, Varint;
      dst := [];
      BytesNone();
      for i := 0 to |added|
        invariant dst == ItemsBytes(Additions(added)[..i])
      {
        var m := added[i].1;
        var item := NewFile(added[i].0, m);
        assert Additions(added)[..i + 1] == Additions(added)[..i] + [item];
        BytesConcat(Additions(added)[..i], [item]);
        BytesOne(item);
        var t := EncodeVarint32(NEW_FILE);
        var l := EncodeVarint32(added[i].0);
        var n := EncodeVarint64(m.number);
        var s := EncodeVarint64(m.size);
        var a := PutLengthPrefixedSlice(m.smallest);
        var b := PutLengthPrefixedSlice(m.largest);
        dst := dst + (t + l + n + s + a + b);
      }
      assert Additions(added)[..|added|] == Additions(added);
    }
  }

  method GetLevel(data: Bytes, p: nat) returns (r: Option<Read<nat>>)
    requires p <= |data|
    ensures r == ReadLevel(data, p)
  {
    hide GetVarint;
    r := GetVarintPtr(data, p, |data|, false);
    if r.Some? && r.value.value >= NUM_LEVELS {
      r := None;
    }
  }

  method GetInternalKey(data: Bytes, p: nat) returns (r: Option<Read<Bytes>>)
    requires p <= |data|
    ensures r == ReadKey(data, p)
  {
    hide GetPrefixed;
    r := GetLengthPrefixedSlice(data, p);
    if r.Some? && |r.value.value| == 0 {
      r := None;
    }
  }

  lemma DecodeStep(data: Bytes, p: nat, e: EditRecord)
    requires p <= |data| && GetVarint(data, p, |data|, false).Some?
    ensures var tag := GetVarint(data, p, |data|, false).value; var r := ReadItem(tag.value, data, tag.next);
      Decode(data, p, e) == if r.None? then None else Decode(data, r.value.next, With(e, r.value.value))
  {
  }

  lemma DecodeEnd(data: Bytes, p: nat, e: EditRecord)
    requires p <= |data| && GetVarint(data, p, |data|, false).None?
    ensures Decode(data, p, e) == if p == |data| then Some(e) else None
  {
  }

  lemma BytesNone()
    ensures ItemsBytes([]) == []
  {
  }
}
