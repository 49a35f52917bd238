/** Table files: table/table_builder.cc, table/table.cc and the block handles of table/format.cc.
  Data blocks, an index block of shortened separators, and optionally a filter block. */
module Tables {
  import opened Options
  import opened Coding
  import opened Comparator
  import opened Block
  import FilterBlock
  import Bloom

  const TRAILER: nat := 5

  type Word4 = w: Bytes | |w| == 4 witness [0, 0, 0, 0]
  type Checksum = Bytes -> Word4

  // ---- handles ---------------------------------------------------------------------------

  datatype Handle = Handle(offset: nat, size: nat)

  /** Both numbers are 64 bits wide. */
  function HandleBytes(h: Handle): Bytes {
    Varint(h.offset % WORD64) + Varint(h.size % WORD64)
  }

  /** BlockHandle::DecodeFrom; whatever follows is left alone. */
  function DecodeHandle(data: Bytes, p: nat): Option<Read<Handle>>
    requires p <= |data|
  {
    match GetVarint(data, p, |data|, true)
    case None => None
    case Some(Read(offset, q)) =>
      match GetVarint(data, q, |data|, true)
      case None => None
      case Some(Read(size, r)) => Some(Read(Handle(offset, size), r))
  }

  lemma HandleRoundTrip(data: Bytes, p: nat, h: Handle)
    requires h.offset < WORD64 && h.size < WORD64 && At(data, p, HandleBytes(h))
    ensures DecodeHandle(data, p) == Some(Read(h, p + |HandleBytes(h)|))
  {
    hide Varint, GetVarint;
    AtParts(data, p, Varint(h.offset), Varint(h.size));
    VarintRoundTrip(data, p, |data|, h.offset, true);
    VarintRoundTrip(data, p + |Varint(h.offset)|, |data|, h.size, true);
  }

  // ---- the footer -----------------------------------------------------------------------

  const MAGIC: nat := 0xdb47_7524_8b80_fb57
  const FOOTER: nat := 48

  function FooterBytes(metaindex: Handle, index: Handle): (r: Bytes)
    ensures |r| >= FOOTER
  {
    var handles := HandleBytes(metaindex) + HandleBytes(index);
    (if |handles| >= 40 then handles else handles + seq(40 - |handles|, i => 0)) + Fixed(MAGIC, 8)
  }

  /** Footer::DecodeFrom. */
  function DecodeFooter(footer: Bytes): Option<(Handle, Handle)>
    requires |footer| == FOOTER
  {
    if Unfixed(footer[40..]) != MAGIC then None else
    match DecodeHandle(footer, 0)
    case None => None
    case Some(Read(metaindex, p)) =>
      if p > |footer| then None else
      match DecodeHandle(footer, p)
      case None => None
      case Some(Read(index, _)) => Some((metaindex, index))
  }

  lemma HandleIsShort(h: Handle)
    ensures |HandleBytes(h)| <= 20
  {
    VarintFits(h.offset % WORD64);
    VarintFits(h.size % WORD64);
  }

  lemma FooterRoundTrip(metaindex: Handle, index: Handle)
    requires metaindex.offset < WORD64 && metaindex.size < WORD64 && index.offset < WORD64 && index.size < WORD64
    ensures |FooterBytes(metaindex, index)| == FOOTER
    ensures DecodeFooter(FooterBytes(metaindex, index)) == Some((metaindex, index))
  {
    hide HandleBytes, DecodeHandle, Fixed, Unfixed;
    HandleIsShort(metaindex);
    HandleIsShort(index);
    var a, b, footer := HandleBytes(metaindex), HandleBytes(index), FooterBytes(metaindex, index);
    var padding := seq(40 - |a + b|, i => 0);
    assert footer == a + (b + (padding + Fixed(MAGIC, 8)));
    assert footer[0..|a|] == a && footer[|a|..|a| + |b|] == b;
    HandleRoundTrip(footer, 0, metaindex);
    HandleRoundTrip(footer, |a|, index);
    assert footer[40..] == Fixed(MAGIC, 8);
    MagicRoundTrip();
  }

  lemma MagicRoundTrip()
    ensures Unfixed(Fixed(MAGIC, 8)) == MAGIC
  {
    Widths();
    FixedRoundTrip(MAGIC, 8);
  }

  // ---- what a table holds --------------------------------------------------------------------

  /** A block in the file. */
  datatype Stored = Stored(handle: Handle, plan: Plan)

  ghost predicate BlockStored(file: Bytes, b: Stored) {
    b.handle.offset + b.handle.size + TRAILER <= |file| &&
    Holds(file[b.handle.offset..b.handle.offset + b.handle.size], b.plan) && file[b.handle.offset + b.handle.size] == 0
  }

  function Joined(blocks: seq<Stored>): seq<Pair> {
    if |blocks| == 0 then [] else Joined(blocks[..|blocks| - 1]) + blocks[|blocks| - 1].plan.pairs
  }

  ghost predicate Ascending(pairs: seq<Pair>) {
    (forall p :: p in pairs ==> |p.key| >= 8) &&
    forall i, j :: 0 <= i < j < |pairs| ==> InternalLess(pairs[i].key, pairs[j].key)
  }

  /** A separator lies below a later key, and if it was shortened its user key is already smaller. */
  ghost predicate Below(separator: Bytes, last: Bytes, key: Bytes) {
    |key| >= 8 && |separator| >= 8 && InternalLess(separator, key) &&
    (separator != last ==> Less(UserPart(separator), UserPart(key)))
  }

  function LastKey(b: Stored): Bytes
    requires |b.plan.pairs| > 0
  {
    b.plan.pairs[|b.plan.pairs| - 1].key
  }

  /** The index entry of block i, given the blocks and pairs behind it. */
  ghost predicate IndexEntry(blocks: seq<Stored>, data: seq<Pair>, i: nat, entry: Pair) {
    i < |blocks| && |blocks[i].plan.pairs| > 0 && entry.value == HandleBytes(blocks[i].handle) &&
    Separates(LastKey(blocks[i]), entry.key) &&
    (forall j, p :: i < j < |blocks| && p in blocks[j].plan.pairs ==> Below(entry.key, LastKey(blocks[i]), p.key)) &&
    forall p :: p in data ==> Below(entry.key, LastKey(blocks[i]), p.key)
  }

  /** A key can be found in the filter its block's offset leads to. */
  predicate InGroup(groups: seq<seq<Bytes>>, pending: seq<Bytes>, index: nat, user: Bytes) {
    if index < |groups| then user in groups[index] else index == |groups| && user in pending
  }

  /** What the fields of a table builder amount to. */
  datatype View = View(file: Bytes, blocks: seq<Stored>, data: seq<Pair>, index: seq<Pair>)

  function Entries(v: View): seq<Pair> {
    Joined(v.blocks) + v.data
  }

  ghost predicate BlocksStored(v: View) {
    (forall i :: 0 <= i < |v.blocks| ==> |v.blocks[i].plan.pairs| > 0) &&
    (|v.file| < WORD32 ==> forall i :: 0 <= i < |v.blocks| ==> BlockStored(v.file, v.blocks[i]))
  }

  ghost predicate Indexed(v: View) {
    |v.index| <= |v.blocks| && forall i :: 0 <= i < |v.index| ==> IndexEntry(v.blocks, v.data, i, v.index[i])
  }

  /** The filter has, or will have, the user key of every pair under the offset of its block. */
  ghost predicate Filtered(length: nat, blocks: seq<Stored>, data: seq<Pair>, groups: seq<seq<Bytes>>,
                           pending: seq<Bytes>) {
    |groups| == length / FilterBlock.BASE &&
    (forall i, p :: 0 <= i < |blocks| && p in blocks[i].plan.pairs && |p.key| >= 8 ==>
       InGroup(groups, pending, blocks[i].handle.offset / FilterBlock.BASE, UserPart(p.key))) &&
    forall p :: p in data && |p.key| >= 8 ==> UserPart(p.key) in pending
  }

  /** pending says that the last block still waits for its index entry. */
  ghost predicate Good(v: View, pending: bool) {
    Ascending(Entries(v)) && BlocksStored(v) && Indexed(v) &&
    |v.index| + (if pending then 1 else 0) == |v.blocks| && (pending ==> v.data == [])
  }

  // ---- the pairs ----------------------------------------------------------------------------------

  lemma {:induction false} JoinedMembers(blocks: seq<Stored>)
    ensures forall p :: p in Joined(blocks) <==> exists i :: 0 <= i < |blocks| && p in blocks[i].plan.pairs
  {
    if |blocks| > 0 {
      var n := |blocks| - 1;
      JoinedMembers(blocks[..n]);
      forall p, i | 0 <= i < |blocks| && p in blocks[i].plan.pairs ensures p in Joined(blocks) {
        assert i < n ==> blocks[..n][i] == blocks[i];
      }
      forall p | p in Joined(blocks[..n]) ensures exists i :: 0 <= i < |blocks| && p in blocks[i].plan.pairs {
        var i :| 0 <= i < n && p in blocks[..n][i].plan.pairs;
        assert blocks[i] == blocks[..n][i];
      }
    }
  }

  lemma JoinedMore(blocks: seq<Stored>, b: Stored)
    ensures Joined(blocks + [b]) == Joined(blocks) + b.plan.pairs
  {
    assert (blocks + [b])[..|blocks|] == blocks;
  }

  lemma AscendingMore(pairs: seq<Pair>, p: Pair)
    requires Ascending(pairs) && |p.key| >= 8 && (|pairs| > 0 ==> InternalLess(pairs[|pairs| - 1].key, p.key))
    ensures Ascending(pairs + [p])
  {
    hide InternalLess;
    forall i | 0 <= i < |pairs| ensures InternalLess(pairs[i].key, p.key) {
      assert pairs[i] in pairs && pairs[|pairs| - 1] in pairs;
      if i < |pairs| - 1 {
        InternalLessIsTransitive(pairs[i].key, pairs[|pairs| - 1].key, p.key);
      }
    }
  }

  lemma BelowStays(separator: Bytes, last: Bytes, x: Bytes, e: Bytes)
    requires Below(separator, last, x) && |e| >= 8 && InternalLess(x, e)
    ensures Below(separator, last, e)
  {
    InternalLessIsTransitive(separator, x, e);
    if separator != last && Less(UserPart(x), UserPart(e)) {
      LessIsTransitive(UserPart(separator), UserPart(x), UserPart(e));
    }
  }

  // ---- the steps of building -----------------------------------------------------------------------

  lemma LastBefore(v: View, e: Pair, i: nat)
    requires Good(v, false) && i < |v.index| && |e.key| >= 8 && Ascending(Entries(v) + [e])
    requires v.data == [] && i == |v.blocks| - 1 ==> Below(v.index[i].key, LastKey(v.blocks[i]), e.key)
    ensures Below(v.index[i].key, LastKey(v.blocks[i]), e.key)
  {
    hide InternalLess, Below, BlockStored, Separates, HandleBytes;
    assert IndexEntry(v.blocks, v.data, i, v.index[i]);
    if |v.data| > 0 {
      LaterIsLess(Entries(v), e, v.data[0]);
      BelowStays(v.index[i].key, LastKey(v.blocks[i]), v.data[0].key, e.key);
    } else if i < |v.blocks| - 1 {
      var x := v.blocks[i + 1].plan.pairs[0];
      JoinedMembers(v.blocks);
      LaterIsLess(Entries(v), e, x);
      BelowStays(v.index[i].key, LastKey(v.blocks[i]), x.key, e.key);
    }
  }

  lemma LaterIsLess(pairs: seq<Pair>, e: Pair, x: Pair)
    requires Ascending(pairs + [e]) && x in pairs
    ensures InternalLess(x.key, e.key)
  {
    hide InternalLess;
    var i :| 0 <= i < |pairs| && pairs[i] == x;
    assert (pairs + [e])[i] == x && (pairs + [e])[|pairs|] == e;
  }

  lemma AddKeeps(v: View, e: Pair)
    requires Good(v, false) && |e.key| >= 8 && Ascending(Entries(v) + [e])
    requires v.data == [] && |v.blocks| > 0 ==>
      Below(v.index[|v.blocks| - 1].key, LastKey(v.blocks[|v.blocks| - 1]), e.key)
    ensures Good(v.(data := v.data + [e]), false)
  {
    hide Ascending, Below, BlockStored, Separates, HandleBytes;
    var v' := v.(data := v.data + [e]);
    assert Entries(v') == Entries(v) + [e];
    forall i | 0 <= i < |v.index| ensures IndexEntry(v'.blocks, v'.data, i, v'.index[i]) {
      assert IndexEntry(v.blocks, v.data, i, v.index[i]);
      LastBefore(v, e, i);
    }
  }

  lemma IndexKeeps(v: View, separator: Bytes)
    requires Good(v, true) && Separates(LastKey(v.blocks[|v.blocks| - 1]), separator)
    ensures Good(v.(index := v.index + [Pair(separator, HandleBytes(v.blocks[|v.blocks| - 1].handle))]), false)
    ensures Entries(v.(index := v.index + [Pair(separator, HandleBytes(v.blocks[|v.blocks| - 1].handle))])) ==
      Entries(v)
  {
    hide Ascending, Below, BlockStored, Separates, HandleBytes;
    var v' := v.(index := v.index + [Pair(separator, HandleBytes(v.blocks[|v.blocks| - 1].handle))]);
    assert Entries(v') == Entries(v);
    forall i | 0 <= i < |v'.index| ensures IndexEntry(v'.blocks, v'.data, i, v'.index[i]) {
      assert i < |v.index| ==> IndexEntry(v.blocks, v.data, i, v.index[i]);
    }
  }

  lemma StoredStays(file: Bytes, more: Bytes, b: Stored)
    requires BlockStored(file, b)
    ensures BlockStored(file + more, b)
  {
    hide Holds;
    assert (file + more)[b.handle.offset..b.handle.offset + b.handle.size] ==
      file[b.handle.offset..b.handle.offset + b.handle.size];
  }

  lemma GrowKeeps(v: View, more: Bytes, pending: bool)
    requires Good(v, pending)
    ensures Good(v.(file := v.file + more), pending)
  {
    hide Ascending, BlockStored, IndexEntry;
    var v' := v.(file := v.file + more);
    assert Entries(v') == Entries(v);
    if |v'.file| < WORD32 {
      forall i | 0 <= i < |v.blocks| ensures BlockStored(v'.file, v.blocks[i]) {
        StoredStays(v.file, more, v.blocks[i]);
      }
    }
  }

  function RawBlock(contents: Bytes, crc: Word4): Bytes {
    contents + [0] + crc
  }

  lemma RawBlockStored(file: Bytes, contents: Bytes, crc: Word4, plan: Plan)
    requires |contents| < WORD32 ==> Holds(contents, plan)
    ensures |file + RawBlock(contents, crc)| < WORD32 ==>
      BlockStored(file + RawBlock(contents, crc), Stored(Handle(|file|, |contents|), plan))
  {
    hide Holds;
    var file' := file + RawBlock(contents, crc);
    assert file'[|file|..|file| + |contents|] == contents && file'[|file| + |contents|] == 0;
  }

  lemma FlushKeeps(v: View, contents: Bytes, plan: Plan, crc: Word4)
    requires Good(v, false) && |v.data| > 0 && plan.pairs == v.data && (|contents| < WORD32 ==> Holds(contents, plan))
    ensures Good(v.(file := v.file + RawBlock(contents, crc),
                    blocks := v.blocks + [Stored(Handle(|v.file|, |contents|), plan)], data := []), true)
  {
    hide Ascending, BlockStored, Below, Separates, HandleBytes, Holds;
    var b := Stored(Handle(|v.file|, |contents|), plan);
    var v' := v.(file := v.file + RawBlock(contents, crc), blocks := v.blocks + [b], data := []);
    JoinedMore(v.blocks, b);
    assert Entries(v') == Entries(v);
    RawBlockStored(v.file, contents, crc, plan);
    if |v'.file| < WORD32 {
      forall i | 0 <= i < |v'.blocks| ensures BlockStored(v'.file, v'.blocks[i]) {
        if i < |v.blocks| {
          StoredStays(v.file, RawBlock(contents, crc), v.blocks[i]);
        }
      }
    }
    forall i | 0 <= i < |v.index| ensures IndexEntry(v'.blocks, v'.data, i, v'.index[i]) {
      assert IndexEntry(v.blocks, v.data, i, v.index[i]);
    }
  }

  // ---- the filter of every block ----------------------------------------------------------------------

  lemma FilterAddKeeps(length: nat, blocks: seq<Stored>, data: seq<Pair>, groups: seq<seq<Bytes>>,
                       pending: seq<Bytes>, e: Pair)
    requires Filtered(length, blocks, data, groups, pending) && |e.key| >= 8
    ensures Filtered(length, blocks, data + [e], groups, pending + [UserPart(e.key)])
  {
    hide Less;
    assert UserPart(e.key) in pending + [UserPart(e.key)];
  }

  /** After a flush, StartBlock moves the keys into their filter once the offsets have passed it. */
  lemma FilterFlushKeeps(length: nat, blocks: seq<Stored>, data: seq<Pair>, groups: seq<seq<Bytes>>,
                         pending: seq<Bytes>, b: Stored, length': nat, groups': seq<seq<Bytes>>, pending': seq<Bytes>)
    requires Filtered(length, blocks, data, groups, pending)
    requires b.plan.pairs == data && b.handle.offset == length <= length' && |groups'| == length' / FilterBlock.BASE
    requires |groups'| == |groups| ==> groups' == groups && pending' == pending
    requires |groups'| > |groups| ==> groups'[..|groups| + 1] == groups + [pending]
    ensures Filtered(length', blocks + [b], [], groups', pending')
  {
    forall index, user | InGroup(groups, pending, index, user) ensures InGroup(groups', pending', index, user) {
      GroupMoves(groups, pending, groups', pending', index, user);
    }
    var blocks' := blocks + [b];
    forall i, p | 0 <= i < |blocks'| && p in blocks'[i].plan.pairs && |p.key| >= 8
      ensures InGroup(groups', pending', blocks'[i].handle.offset / FilterBlock.BASE, UserPart(p.key))
    {
      assert InGroup(groups, pending, blocks'[i].handle.offset / FilterBlock.BASE, UserPart(p.key));
    }
  }

  lemma GroupMoves(groups: seq<seq<Bytes>>, pending: seq<Bytes>, groups': seq<seq<Bytes>>, pending': seq<Bytes>,
                   index: nat, user: Bytes)
    requires InGroup(groups, pending, index, user) && |groups'| >= |groups|
    requires |groups'| == |groups| ==> groups' == groups && pending' == pending
    requires |groups'| > |groups| ==> groups'[..|groups| + 1] == groups + [pending]
    ensures InGroup(groups', pending', index, user)
  {
    if |groups'| > |groups| {
      var front := groups'[..|groups| + 1];
      assert groups'[index] == front[index];
    }
  }

  // ---- the builder ----------------------------------------------------------------------------------

  class TableBuilder {
    const blockSize: nat
    const sum: Checksum
    const dataBlock: BlockBuilder
    const indexBlock: BlockBuilder
    const filter: FilterBlock.FilterBlockBuilder?
    var file: Bytes
    var lastKey: Bytes
    var numEntries: nat
    var pendingIndexEntry: bool
    var pendingHandle: Handle
    ghost var blocks: seq<Stored>

    ghost function AsView(): View
      reads this, dataBlock, indexBlock
    {
      View(file, blocks, dataBlock.plan.pairs, indexBlock.plan.pairs)
    }

    /** The parts, without what ties them to the last key. */
    ghost predicate Parts()
      reads this, dataBlock, indexBlock, filter
    {
      dataBlock != indexBlock && dataBlock.Valid() && !dataBlock.finished && indexBlock.Valid() &&
      !indexBlock.finished &&
      (filter != null ==>
       filter.Valid() && Filtered(|file|, blocks, dataBlock.plan.pairs, filter.groups, filter.pending)) &&
       Good(AsView(), pendingIndexEntry)
    }

    ghost predicate Valid()
      reads this, dataBlock, indexBlock, filter
    {
      Parts() && LastIs(Entries(AsView()), lastKey) && |lastKey| < WORD32 &&
      (if pendingIndexEntry then pendingHandle == blocks[|blocks| - 1].handle else dataBlock.plan.pairs == [] ==>
       blocks == [])
    }

    /** The filter may be absent.  Keys reach it through the internal filter policy, which takes off the trailer. */
    constructor (blockSize: nat, interval: nat, sum: Checksum, filter: FilterBlock.FilterBlockBuilder?)
      requires interval >= 1 && (filter != null ==> filter.Valid() && filter.groups == [] && filter.pending == [])
      ensures Valid() && fresh(dataBlock) && fresh(indexBlock) && this.filter == filter && Entries(AsView()) == [] &&
        this.sum == sum
      ensures file == [] && blocks == []
    {
      this.blockSize, this.sum, this.filter := blockSize, sum, filter;
      dataBlock := new BlockBuilder(interval);
      indexBlock := new BlockBuilder(1);
      file, lastKey, numEntries, pendingIndexEntry, pendingHandle, blocks := [], [], 0, false, Handle(0, 0), [];
    }

    /** Keys come in strictly increasing order. */
    method Add(key: Bytes, value: Bytes)
      requires Valid() && 8 <= |key| < WORD32 && |value| < WORD32
      requires Follows(Entries(AsView()), key)
      modifies this, dataBlock, indexBlock, filter
      ensures Valid() && Entries(AsView()) == old(Entries(AsView())) + [Pair(key, value)]
      ensures (blocks == old(blocks) && dataBlock.CurrentSizeEstimate() < blockSize) ||
        (dataBlock.plan.pairs == [] && exists b :: blocks == old(blocks) + [b] && b.handle.size >= blockSize)
    {
      hide Building, FilterBlock.Flattened, FilterBlock.FiltersAre, CommonPrefix, Holds, Sound, Good;
      hide Filtered, Below, InternalLess, LastIs, Separates, Entries, Follows;
      EmitIndexEntry(key);
      AddPair(key, value);
      if dataBlock.CurrentSizeEstimate() >= blockSize {
        Flush();
      }
    }

    method AddPair(key: Bytes, value: Bytes)
      requires Parts() && !pendingIndexEntry && 8 <= |key| < WORD32 && |value| < WORD32
      requires Follows(Entries(AsView()), key) && SeparatorBelow(AsView(), key)
      modifies this, dataBlock, filter
      ensures Valid() && !pendingIndexEntry && Entries(AsView()) == old(Entries(AsView())) + [Pair(key, value)] &&
        file == old(file) && blocks == old(blocks) && |dataBlock.plan.pairs| > 0
    {
      hide Building, FilterBlock.Flattened, FilterBlock.FiltersAre, CommonPrefix, Holds, Sound, Good;
      hide Filtered, Below, InternalLess, LastIs, Separates, Entries, Follows, SeparatorBelow, HandleBytes;
      ghost var v := AsView();
      AddedKeeps(v, Pair(key, value));
      if filter != null {
        FilterAddKeeps(|file|, blocks, v.data, filter.groups, filter.pending, Pair(key, value));
        filter.AddKey(key[..|key| - 8]);
      }
      lastKey := key;
      numEntries := numEntries + 1;
      dataBlock.Add(key, value);
    }

    /** Writes the data block out; its index entry has to wait for the next key. */
    method Flush()
      requires Valid()
      modifies this, dataBlock, filter
      ensures Valid() && dataBlock.plan.pairs == [] && Entries(AsView()) == old(Entries(AsView())) &&
        lastKey == old(lastKey)
      ensures |old(dataBlock.plan.pairs)| == 0 ==> unchanged(this)
      ensures |old(dataBlock.plan.pairs)| > 0 ==>
        blocks == old(blocks) +
          [Stored(Handle(|old(file)|, old(dataBlock.CurrentSizeEstimate())), old(dataBlock.plan))]
    {
      hide Building, FilterBlock.Flattened, FilterBlock.FiltersAre, CommonPrefix, Holds, Sound, Good;
      hide Filtered, LastIs, Entries, HandleBytes;
      dataBlock.EmptyIs();
      if dataBlock.Empty() {
        return;
      }
      ghost var v := AsView();
      NotPending(v, pendingIndexEntry);
      var raw := dataBlock.Finish();
      ghost var b := Stored(Handle(|file|, |raw|), dataBlock.plan);
      var crc := sum(raw + [0]);
      FlushKeeps(v, raw, dataBlock.plan, crc);
      FlushedEntries(v, b, v.file + RawBlock(raw, crc));
      pendingHandle := Handle(|file|, |raw|);
      file := file + RawBlock(raw, crc);
      blocks := blocks + [b];
      dataBlock.Reset();
      pendingIndexEntry := true;
      if filter != null {
        ghost var groups, pending := filter.groups, filter.pending;
        OffsetsAdvance(|v.file|, v.blocks, v.data, groups, pending, |file|);
        filter.StartBlock(|file|);
        FilterFlushKeeps(|v.file|, v.blocks, v.data, groups, pending, b, |file|, filter.groups, filter.pending);
      }
    }

    /** The index entry of the last block, once the next key is known. */
    method EmitIndexEntry(key: Bytes)
      requires Valid() && 8 <= |key| < WORD32 && Follows(Entries(AsView()), key)
      modifies this, indexBlock
      ensures Parts() && !pendingIndexEntry && Entries(AsView()) == old(Entries(AsView())) &&
        SeparatorBelow(AsView(), key)
      ensures file == old(file) && dataBlock.plan == old(dataBlock.plan) && blocks == old(blocks)
    {
      hide Building, FilterBlock.Flattened, FilterBlock.FiltersAre, CommonPrefix, Holds, Sound, Good;
      hide Filtered, Below, InternalLess, LastIs, Separates, Entries, Follows, SeparatorBelow, HandleBytes;
      if pendingIndexEntry {
        LastOfAll(AsView(), lastKey, key);
        var separator := InternalShortestSeparator(lastKey, key);
        IndexKeeps(AsView(), separator);
        IndexedBelow(AsView(), separator, key);
        lastKey := separator;
        var handleEncoding := EncodeHandle(pendingHandle);
        indexBlock.Add(lastKey, handleEncoding);
        pendingIndexEntry := false;
      } else {
        NothingPending(AsView(), key);
      }
    }

    method WriteRawBlock(contents: Bytes) returns (h: Handle)
      modifies this`file
      ensures file == old(file) + RawBlock(contents, sum(contents + [0])) && h == Handle(|old(file)|, |contents|)
    {
      h := Handle(|file|, |contents|);
      var crc := sum(contents + [0]);
      file := file + contents;
      file := file + ([0] + crc);
    }

    /** The filter block, if there is a filter. */
    method FinishFilter(policy: Policy) returns (h: Option<Handle>, ghost groups: seq<seq<Bytes>>)
      requires Parts() && dataBlock.plan.pairs == []
      requires filter != null ==>
        filter.hash == policy.hash && filter.bitsPerKey == policy.bitsPerKey && filter.k == policy.k
      modifies this`file, filter
      ensures old(file) <= file && (h.Some? <==> filter != null)
      ensures h.Some? ==> Covered(blocks, groups) && (|file| < WORD32 ==> FilterStored(file, policy, h.value, groups))
    {
      hide Building, FilterBlock.Flattened, FilterBlock.FiltersAre, FilterBlock.Holds, Good, Filtered;
      hide Covered, FilterStored;
      h, groups := None, [];
      if filter != null {
        CoveredAtEnd(|file|, blocks, filter.groups, filter.pending);
        var contents := filter.Finish();
        groups := filter.groups;
        FilterIsStored(file, policy, contents, sum(contents + [0]), groups);
        var handle := WriteRawBlock(contents);
        h := Some(handle);
      }
    }

    /** The metaindex block: where the filter is, if there is one. */
    method FinishMeta(policy: Policy, h: Option<Handle>) returns (ghost meta: Stored, handle: Handle)
      requires |policy.metaKey| < WORD32 && dataBlock.interval >= 1
      modifies this`file
      ensures old(file) <= file && handle == meta.handle && meta.plan.pairs == MetaPairs(policy, h)
      ensures |file| < WORD32 ==> BlockStored(file, meta)
    {
      hide Building, Holds, BlockStored, HandleBytes;
      var block := new BlockBuilder(dataBlock.interval);
      if h.Some? {
        HandleIsShort(h.value);
        var encoding := EncodeHandle(h.value);
        block.Add(policy.metaKey, encoding);
      }
      var raw := block.Finish();
      RawBlockStored(file, raw, sum(raw + [0]), block.plan);
      handle := WriteRawBlock(raw);
      meta := Stored(handle, block.plan);
    }

    /** Everything behind the data blocks: filter, metaindex, index, footer. */
    method Finish(policy: Policy) returns (ghost layout: Layout)
      requires Valid() && |policy.metaKey| < WORD32
      requires filter != null ==>
        filter.hash == policy.hash && filter.bitsPerKey == policy.bitsPerKey && filter.k == policy.k
      modifies this, dataBlock, indexBlock, filter
      ensures |file| < WORD32 ==> TableFile(file, policy, old(Entries(AsView())), layout)
      ensures layout.filter.Some? <==> filter != null
    {
      hide Building, FilterBlock.Flattened, FilterBlock.FiltersAre, FilterBlock.Holds, CommonPrefix, Holds;
      hide Sound, Good, Filtered, Entries, Covered, FilterStored, BlockStored, HandleBytes, FooterBytes;
      hide MetaPairs;
      Flush();
      ghost var v, f0 := AsView(), file;
      AllFlushed(v);
      var h, groups := FinishFilter(policy);
      ghost var f1 := file;
      dataBlock.HasInterval();
      var meta, metaindex := FinishMeta(policy, h);
      ghost var f2 := file;
      GoodLater(v, f2, pendingIndexEntry);
      EntriesLater(v, f2);
      assert AsView() == v.(file := f2);
      FinishPending();
      ghost var index := indexBlock.plan.pairs;
      var raw := indexBlock.Finish();
      RawBlockStored(file, raw, sum(raw + [0]), indexBlock.plan);
      var indexHandle := WriteRawBlock(raw);
      ghost var f3 := file;
      file := file + FooterBytes(metaindex, indexHandle);
      layout := Layout(blocks, Stored(indexHandle, indexBlock.plan), meta, h, groups);
      if |file| < WORD32 {
        LaterFiles(policy, f1, f2, f3, file, View(f2, blocks, [], index), layout);
      }
    }

    /** The index entry that still waits gets a short successor of the last key. */
    method FinishPending()
      requires indexBlock.Valid() && !indexBlock.finished && dataBlock != indexBlock && dataBlock.plan.pairs == []
      requires Good(AsView(), pendingIndexEntry) && LastIs(Entries(AsView()), lastKey) && |lastKey| < WORD32
      requires pendingIndexEntry && |blocks| > 0 ==> pendingHandle == blocks[|blocks| - 1].handle
      modifies this, indexBlock
      ensures file == old(file) && blocks == old(blocks) && Good(AsView(), false) &&
        Entries(AsView()) == old(Entries(AsView()))
      ensures indexBlock.Valid() && !indexBlock.finished
    {
      hide Building, FilterBlock.Flattened, FilterBlock.FiltersAre, CommonPrefix, Holds, Sound, Good;
      hide Filtered, LastIs, Entries, HandleBytes, Separates;
      if pendingIndexEntry {
        LastOfBlocks(AsView(), lastKey);
        var successor := InternalShortSuccessor(lastKey);
        IndexKeeps(AsView(), successor);
        lastKey := successor;
        var handleEncoding := EncodeHandle(pendingHandle);
        indexBlock.Add(lastKey, handleEncoding);
        pendingIndexEntry := false;
      }
    }
  }

  /** While an index entry is pending, the last key is the last of the last block. */
  lemma LastOfBlocks(v: View, lastKey: Bytes)
    requires Good(v, true) && LastIs(Entries(v), lastKey)
    ensures |v.blocks| > 0 && |v.blocks[|v.blocks| - 1].plan.pairs| > 0 && lastKey == LastKey(v.blocks[|v.blocks| - 1])
    ensures |lastKey| >= 8 && |v.index| + 1 == |v.blocks| && |HandleBytes(v.blocks[|v.blocks| - 1].handle)| <= 20
  {
    hide InternalLess, IndexEntry, HandleBytes;
    var n := |v.blocks| - 1;
    assert v.blocks == v.blocks[..n] + [v.blocks[n]];
    JoinedMore(v.blocks[..n], v.blocks[n]);
    HandleIsShort(v.blocks[n].handle);
    var all := Entries(v);
    assert all[|all| - 1] in all && all[|all| - 1].key == LastKey(v.blocks[n]);
  }

  lemma LastOfAll(v: View, lastKey: Bytes, key: Bytes)
    requires Good(v, true) && LastIs(Entries(v), lastKey) && Follows(Entries(v), key)
    ensures |v.blocks| > 0 && |v.blocks[|v.blocks| - 1].plan.pairs| > 0 && lastKey == LastKey(v.blocks[|v.blocks| - 1])
    ensures |lastKey| >= 8 && InternalLess(lastKey, key) && |v.index| + 1 == |v.blocks|
    ensures |HandleBytes(v.blocks[|v.blocks| - 1].handle)| <= 20
  {
    hide Good, HandleBytes, InternalLess, Entries, Joined;
    LastOfBlocks(v, lastKey);
    SomeEntries(v);
  }

  lemma SomeEntries(v: View)
    requires |v.blocks| > 0 && |v.blocks[|v.blocks| - 1].plan.pairs| > 0
    ensures |Entries(v)| > 0
  {
    var n := |v.blocks| - 1;
    assert v.blocks == v.blocks[..n] + [v.blocks[n]];
    JoinedMore(v.blocks[..n], v.blocks[n]);
  }

  lemma IndexedBelow(v: View, separator: Bytes, key: Bytes)
    requires |v.blocks| > 0 && |v.blocks[|v.blocks| - 1].plan.pairs| > 0 && |v.index| + 1 == |v.blocks| && |key| >= 8
    requires var last := LastKey(v.blocks[|v.blocks| - 1]);
      Separates(last, separator) && InternalLess(separator, key) &&
      (separator != last ==> Less(UserPart(separator), UserPart(key)))
    ensures SeparatorBelow(v.(index := v.index + [Pair(separator, HandleBytes(v.blocks[|v.blocks| - 1].handle))]), key)
  {
  }

  lemma NothingPending(v: View, key: Bytes)
    requires v.data == [] ==> v.blocks == []
    ensures SeparatorBelow(v, key)
  {
  }

  // ---- the finished file ----------------------------------------------------------------------------

  /** Where everything is in a table file. */
  datatype Layout = Layout(blocks: seq<Stored>, index: Stored, meta: Stored, filter: Option<Handle>,
                           groups: seq<seq<Bytes>>)

  datatype Policy = Policy(hash: Bloom.Hash, bitsPerKey: nat, k: nat, metaKey: Bytes)

  ghost predicate FilterStored(file: Bytes, policy: Policy, h: Handle, groups: seq<seq<Bytes>>) {
    h.offset + h.size + TRAILER <= |file| && file[h.offset + h.size] == 0 &&
    FilterBlock.Holds(policy.hash, policy.bitsPerKey, policy.k, file[h.offset..h.offset + h.size], groups)
  }

  /** No pair is missing from the filter for its block's offset. */
  ghost predicate Covered(blocks: seq<Stored>, groups: seq<seq<Bytes>>) {
    forall i, p :: 0 <= i < |blocks| && p in blocks[i].plan.pairs && |p.key| >= 8 ==>
      blocks[i].handle.offset / FilterBlock.BASE < |groups| ==>
      UserPart(p.key) in groups[blocks[i].handle.offset / FilterBlock.BASE]
  }

  function MetaPairs(policy: Policy, filter: Option<Handle>): seq<Pair> {
    if filter.Some? then [Pair(policy.metaKey, HandleBytes(filter.value))] else []
  }

  ghost predicate TableFile(file: Bytes, policy: Policy, entries: seq<Pair>, l: Layout) {
    Good(View(file, l.blocks, [], l.index.plan.pairs), false) && Joined(l.blocks) == entries &&
    BlockStored(file, l.index) && BlockStored(file, l.meta) && l.meta.plan.pairs == MetaPairs(policy, l.filter) &&
    (l.filter.Some? ==> FilterStored(file, policy, l.filter.value, l.groups) && Covered(l.blocks, l.groups)) &&
    FOOTER <= |file| < WORD32 && file[|file| - FOOTER..] == FooterBytes(l.meta.handle, l.index.handle)
  }

  lemma CoveredAtEnd(length: nat, blocks: seq<Stored>, groups: seq<seq<Bytes>>, pending: seq<Bytes>)
    requires Filtered(length, blocks, [], groups, pending)
    ensures Covered(blocks, groups + if |pending| == 0 then [] else [pending])
  {
    hide Less;
    var all := groups + if |pending| == 0 then [] else [pending];
    forall i, p | 0 <= i < |blocks| && p in blocks[i].plan.pairs && |p.key| >= 8 &&
      blocks[i].handle.offset / FilterBlock.BASE < |all|
      ensures UserPart(p.key) in all[blocks[i].handle.offset / FilterBlock.BASE]
    {
      assert InGroup(groups, pending, blocks[i].handle.offset / FilterBlock.BASE, UserPart(p.key));
    }
  }

  lemma FilterIsStored(file: Bytes, policy: Policy, contents: Bytes, crc: Word4, groups: seq<seq<Bytes>>)
    requires |contents| < WORD32 ==> FilterBlock.Holds(policy.hash, policy.bitsPerKey, policy.k, contents, groups)
    ensures |contents| < WORD32 ==>
      FilterStored(file + RawBlock(contents, crc), policy, Handle(|file|, |contents|), groups)
  {
    hide FilterBlock.Holds;
    var file' := file + RawBlock(contents, crc);
    assert file'[|file|..|file| + |contents|] == contents && file'[|file| + |contents|] == 0;
  }

  lemma FilterStays(file: Bytes, more: Bytes, policy: Policy, h: Handle, groups: seq<seq<Bytes>>)
    requires FilterStored(file, policy, h, groups)
    ensures FilterStored(file + more, policy, h, groups)
  {
    hide FilterBlock.Holds;
    assert (file + more)[h.offset..h.offset + h.size] == file[h.offset..h.offset + h.size];
  }

  lemma GoodLater(v: View, file': Bytes, pending: bool)
    requires Good(v, pending) && v.file <= file'
    ensures Good(v.(file := file'), pending)
  {
    hide Good;
    assert file' == v.file + file'[|v.file|..];
    GrowKeeps(v, file'[|v.file|..], pending);
  }

  lemma EntriesLater(v: View, file': Bytes)
    ensures Entries(v.(file := file')) == Entries(v)
  {
  }

  lemma AllFlushed(v: View)
    ensures v.data == [] ==> Entries(v) == Joined(v.blocks)
  {
  }

  lemma LaterFiles(policy: Policy, f1: Bytes, f2: Bytes, f3: Bytes, file: Bytes, v: View, l: Layout)
    requires f1 <= f2 <= f3 && file == f3 + FooterBytes(l.meta.handle, l.index.handle) && |file| < WORD32
    requires v == View(f2, l.blocks, [], l.index.plan.pairs) && Good(v, false)
    requires l.filter.Some? ==> FilterStored(f1, policy, l.filter.value, l.groups) && Covered(l.blocks, l.groups)
    requires BlockStored(f2, l.meta) && BlockStored(f3, l.index) && l.meta.plan.pairs == MetaPairs(policy, l.filter)
    ensures TableFile(file, policy, Joined(l.blocks), l)
  {
    hide Good, BlockStored, FilterStored, Covered, FooterBytes, MetaPairs;
    GoodLater(v, file, false);
    StoredStays(f2, file[|f2|..], l.meta);
    assert f2 + file[|f2|..] == file;
    StoredStays(f3, file[|f3|..], l.index);
    assert f3 + file[|f3|..] == file;
    if l.filter.Some? {
      FilterStays(f1, file[|f1|..], policy, l.filter.value, l.groups);
      assert f1 + file[|f1|..] == file;
    }
    InRange(f2, l.meta);
    InRange(f3, l.index);
    FooterAtEnd(f3, l.meta.handle, l.index.handle);
  }

  lemma InRange(file: Bytes, b: Stored)
    requires BlockStored(file, b)
    ensures b.handle.offset + b.handle.size + TRAILER <= |file|
  {
  }

  lemma FooterAtEnd(f3: Bytes, metaindex: Handle, index: Handle)
    requires metaindex.offset < WORD64 && metaindex.size < WORD64 && index.offset < WORD64 && index.size < WORD64
    ensures var file := f3 + FooterBytes(metaindex, index);
      |file| >= FOOTER && file[|file| - FOOTER..] == FooterBytes(metaindex, index)
  {
    hide FooterBytes;
    FooterRoundTrip(metaindex, index);
  }

  lemma AddedKeeps(v: View, e: Pair)
    requires Good(v, false) && |e.key| >= 8 && Follows(Entries(v), e.key) && SeparatorBelow(v, e.key)
    ensures Good(v.(data := v.data + [e]), false) && Entries(v.(data := v.data + [e])) == Entries(v) + [e]
    ensures LastIs(Entries(v) + [e], e.key)
  {
    hide InternalLess, Below, BlockStored, IndexEntry;
    AscendingMore(Entries(v), e);
    AddKeeps(v, e);
  }

  lemma NotPending(v: View, pending: bool)
    requires Good(v, pending) && |v.data| > 0
    ensures !pending
  {
  }

  lemma FlushedEntries(v: View, b: Stored, file': Bytes)
    requires b.plan.pairs == v.data
    ensures Entries(v.(file := file', blocks := v.blocks + [b], data := [])) == Entries(v)
  {
    JoinedMore(v.blocks, b);
  }

  lemma OffsetsAdvance(length: nat, blocks: seq<Stored>, data: seq<Pair>, groups: seq<seq<Bytes>>,
                       pending: seq<Bytes>, length': nat)
    requires Filtered(length, blocks, data, groups, pending) && length <= length'
    ensures |groups| <= length' / FilterBlock.BASE
  {
  }

  method EncodeHandle(h: Handle) returns (r: Bytes)
    ensures r == HandleBytes(h)
  {
    var a := EncodeVarint64(h.offset % WORD64);
    var b := EncodeVarint64(h.size % WORD64);
    r := a + b;
  }

  ghost predicate LastIs(pairs: seq<Pair>, key: Bytes) {
    |pairs| > 0 ==> key == pairs[|pairs| - 1].key
  }

  ghost predicate Follows(pairs: seq<Pair>, key: Bytes) {
    |pairs| > 0 ==> InternalLess(pairs[|pairs| - 1].key, key)
  }

  /** The separator behind the last block lies below the key. */
  ghost predicate SeparatorBelow(v: View, key: Bytes) {
    v.data == [] && |v.blocks| > 0 ==>
      |v.index| == |v.blocks| && |v.blocks[|v.blocks| - 1].plan.pairs| > 0 &&
      Below(v.index[|v.blocks| - 1].key, LastKey(v.blocks[|v.blocks| - 1]), key)
  }
}
