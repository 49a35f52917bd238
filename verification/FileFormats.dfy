/** The files of leveldb byte by byte, with the numbers their readers and writers agree on written out: log files, write
  batches, version edits, memtable entries, blocks, filter blocks and the footer of a table. */
module FileFormats {
  import opened Options
  import opened Coding
  import Log
  import Batches = WriteBatches
  import LogRecovery = Recovery
  import Codec = VersionEditCodec
  import MemTables
  import Comparator
  import Blocks = Block
  import Bloom
  import FilterBlock
  import Tables
  import Crc32c

  /** Numbers below 128 are one byte. */
  lemma SmallVarint(n: nat)
    requires n < 128
    ensures Varint(n) == [n]
  {
  }

  /** Four bytes, least significant first. */
  lemma FourBytes(n: nat)
    requires n < 256
    ensures Fixed(n, 4) == [n, 0, 0, 0] && Fixed(n, 8) == [n, 0, 0, 0, 0, 0, 0, 0]
  {
    ZeroBytes();
    assert Fixed(n, 4) == [n % 256] + Fixed(n / 256, 3) && Fixed(n, 8) == [n % 256] + Fixed(n / 256, 7);
  }

  lemma ZeroBytes()
    ensures Fixed(0, 3) == [0, 0, 0] && Fixed(0, 4) == [0, 0, 0, 0] && Fixed(0, 7) == [0, 0, 0, 0, 0, 0, 0]
  {
    assert Fixed(0, 1) == [0] && Fixed(0, 2) == [0] + Fixed(0, 1) && Fixed(0, 3) == [0] + Fixed(0, 2);
    assert Fixed(0, 4) == [0] + Fixed(0, 3) && Fixed(0, 5) == [0] + Fixed(0, 4) && Fixed(0, 6) == [0] + Fixed(0, 5);
    assert Fixed(0, 7) == [0] + Fixed(0, 6);
  }

  // ---- log files -----------------------------------------------------------------------------

  /** A record that fits the rest of its block: checksum of type and payload, length, type 1, payload. */
  lemma WholeRecord(sum: Log.Checksum, p: nat, data: Bytes)
    requires p % 32768 + 7 + |data| <= 32768
    ensures Log.Emitted(sum, p, data, true) == sum([1] + data) + [|data| % 256, |data| / 256, 1] + data
  {
    assert data[..|data|] == data;
    assert Log.Zeros(0) == [];
    assert [] + Log.Physical(sum, 1, data) == Log.Physical(sum, 1, data);
  }

  /** A record of two blocks: type 2 fills the first, type 4 ends in the second. */
  lemma RecordOfTwoBlocks(sum: Log.Checksum, data: Bytes)
    requires 32761 < |data| <= 65522
    ensures var a, b := data[..32761], data[32761..];
      Log.Emitted(sum, 0, data, true) ==
        sum([2] + a) + [249, 127, 2] + a + (sum([4] + b) + [|b| % 256, |b| / 256, 4] + b)
  {
    var a, b := data[..32761], data[32761..];
    FirstOfBlock(sum, 0, data, true);
    LastOfRecord(sum, 32768, b);
  }

  /** A record of three blocks has type 3 in between. */
  lemma RecordOfThreeBlocks(sum: Log.Checksum, data: Bytes)
    requires 65522 < |data| <= 98283
    ensures var a, b, c := data[..32761], data[32761..65522], data[65522..];
      Log.Emitted(sum, 0, data, true) ==
        sum([2] + a) + [249, 127, 2] + a + (sum([3] + b) + [249, 127, 3] + b +
          (sum([4] + c) + [|c| % 256, |c| / 256, 4] + c))
  {
    var rest := data[32761..];
    FirstOfBlock(sum, 0, data, true);
    FirstOfBlock(sum, 32768, rest, false);
    assert rest[..32761] == data[32761..65522] && rest[32761..] == data[65522..];
    LastOfRecord(sum, 65536, data[65522..]);
  }

  lemma FirstOfBlock(sum: Log.Checksum, p: nat, data: Bytes, begin: bool)
    requires p % 32768 == 0 && |data| > 32761
    ensures var a, t := data[..32761], if begin then 2 else 3;
      Log.Emitted(sum, p, data, begin) ==
        sum([t] + a) + [249, 127, t] + a + Log.Emitted(sum, p + 32768, data[32761..], false)
  {
    assert Log.Zeros(0) == [];
    assert Log.FragmentLength(p, |data|) == 32761;
  }

  lemma LastOfRecord(sum: Log.Checksum, p: nat, data: Bytes)
    requires p % 32768 == 0 && 0 < |data| <= 32761
    ensures Log.Emitted(sum, p, data, false) == sum([4] + data) + [|data| % 256, |data| / 256, 4] + data
  {
    assert data[..|data|] == data;
    assert Log.Zeros(0) == [];
    assert Log.FragmentLength(p, |data|) == |data|;
  }

  /** Six bytes or fewer at the end of a block stay zero. */
  lemma TrailerIsZero(sum: Log.Checksum, p: nat, data: Bytes)
    requires 32768 - 7 < p % 32768 && |data| <= 32761
    ensures Log.Emitted(sum, p, data, true) ==
      seq(32768 - p % 32768, i => 0) + (sum([1] + data) + [|data| % 256, |data| / 256, 1] + data)
  {
    assert data[..|data|] == data;
    var q := Log.RoundUp(p);
    assert q == p + (32768 - p % 32768) && q % 32768 == 0;
    assert Log.Room(q) == 32761;
    assert Log.Zeros(32768 - p % 32768) == seq(32768 - p % 32768, i => 0);
  }

  // ---- write batches ------------------------------------------------------------------------------

  /** A put has tag 1, a deletion tag 0. */
  lemma BatchRecord(key: Bytes, value: Bytes)
    ensures Batches.RecordBytes(Batches.Put(key, value)) == [1] + (Varint(|key|) + key) + (Varint(|value|) + value)
    ensures Batches.RecordBytes(Batches.Delete(key)) == [0] + (Varint(|key|) + key)
  {
    hide Varint;
  }

  /** Eight bytes of sequence number, four bytes of count, the records. */
  lemma SmallBatch(sequence: nat, k: Byte, v: Byte, d: Byte)
    requires sequence < 256
    ensures LogRecovery.Rep(LogRecovery.Batch(sequence, [Batches.Put([k], [v]), Batches.Delete([d])])) ==
      [sequence, 0, 0, 0, 0, 0, 0, 0] + [2, 0, 0, 0] + [1, 1, k, 1, v] + [0, 1, d]
  {
    hide Fixed, Varint;
    var put, delete := Batches.Put([k], [v]), Batches.Delete([d]);
    FourBytes(sequence);
    FourBytes(2);
    BatchRecord([k], [v]);
    BatchRecord([d], []);
    SmallVarint(1);
    assert [put, delete][..1] == [put] && [put][..0] == [];
    assert Batches.RecordsBytes([put]) == Batches.RecordBytes(put);
  }

  // ---- version edits -------------------------------------------------------------------------------

  /** The tags of the fields of a version edit, each one byte. */
  lemma EditTags(name: Bytes, n: nat, level: nat, m: Codec.FileMeta)
    ensures Codec.ItemBytes(Codec.Comparator(name)) == [1] + Prefixed(name)
    ensures Codec.ItemBytes(Codec.CompactPointer(level, name)) == [5] + Varint(level) + Prefixed(name)
    ensures Codec.ItemBytes(Codec.DeletedFile(level, n)) == [6] + Varint(level) + Varint(n)
    ensures Codec.ItemBytes(Codec.NewFile(level, m)) ==
      [7] + Varint(level) + Varint(m.number) + Varint(m.size) + Prefixed(m.smallest) + Prefixed(m.largest)
  {
    hide Prefixed;
  }

  /** The four numbers, in the order in which they are written: log 2, log before it 9, next file 3, last sequence 4. */
  lemma EditNumbers(log: nat, prev: nat, next: nat, last: nat)
    requires log < 128 && prev < 128 && next < 128 && last < 128
    ensures Codec.ItemsBytes(Codec.ItemsOf(
              Codec.EditRecord(None, Some(log), Some(prev), Some(next), Some(last), [], [], []))) ==
      [2, log, 9, prev, 3, next, 4, last]
  {
    var items := [Codec.Number(2, log), Codec.Number(9, prev), Codec.Number(3, next), Codec.Number(4, last)];
    var e := Codec.EditRecord(None, Some(log), Some(prev), Some(next), Some(last), [], [], []);
    assert Codec.ItemsOf(e) == items;
    assert items[1..] == [items[1], items[2], items[3]] && items[1..][1..] == [items[2], items[3]];
    assert items[1..][1..][1..] == [items[3]] && [items[3]][1..] == [];
    assert Codec.ItemsBytes([items[3]]) == [4, last];
    assert Codec.ItemsBytes([items[2], items[3]]) == [3, next, 4, last];
    assert Codec.ItemsBytes([items[1], items[2], items[3]]) == [9, prev, 3, next, 4, last];
  }

  // ---- memtables ------------------------------------------------------------------------------------

  /** Length of the internal key, user key, the type in the lowest byte and the sequence number above it, value. */
  lemma MemTableEntry(e: MemTables.MemEntry)
    requires MemTables.Storable(e)
    ensures MemTables.EntryBytes(e) ==
      Varint(|e.key| + 8) + (e.key + ([e.kind] + Fixed(e.sequence, 7))) + (Varint(|e.value|) + e.value)
  {
    hide Varint;
    assert (256 * e.sequence + e.kind) % 256 == e.kind && (256 * e.sequence + e.kind) / 256 == e.sequence;
    assert Fixed(256 * e.sequence + e.kind, 8) == [e.kind] + Fixed(e.sequence, 7);
  }

  // ---- blocks ----------------------------------------------------------------------------------------

  /** A block of two keys that share their first byte, with one restart point. */
  lemma SmallBlock(a: Byte, b: Byte, c: Byte, x: Byte, y: Byte, data: Bytes)
    requires Blocks.Holds(data, Blocks.Plan([Blocks.Pair([a, b], [x]), Blocks.Pair([a, c], [y])], [0, 1], [0, 6, 11],
                                            [0]))
    ensures data == [0, 2, 1, a, b, x] + [1, 1, 1, c, y] + [0, 0, 0, 0] + [1, 0, 0, 0]
  {
    hide Varint, Fixed;
    SmallVarint(0);
    SmallVarint(1);
    SmallVarint(2);
    FourBytes(0);
    FourBytes(1);
    var plan := Blocks.Plan([Blocks.Pair([a, b], [x]), Blocks.Pair([a, c], [y])], [0, 1], [0, 6, 11], [0]);
    assert Blocks.Encoded(0, plan.pairs[0]) == [0, 2, 1, a, b, x];
    assert Blocks.Encoded(1, plan.pairs[1]) == [1, 1, 1, c, y];
    assert Blocks.SharesPrefix(plan, 0) && Blocks.SharesPrefix(plan, 1);
    assert Blocks.End(plan) == 11 && Blocks.RestartOffset(plan, 0) == 0;
    assert At(data, Blocks.End(plan) + 4 * 0, Fixed(Blocks.RestartOffset(plan, 0), 4));
    assert At(data, 0, [0, 2, 1, a, b, x]) && At(data, 6, [1, 1, 1, c, y]);
    assert At(data, 11, [0, 0, 0, 0]) && At(data, 15, [1, 0, 0, 0]) && |data| == 19;
    assert data == data[0..6] + data[6..11] + data[11..15] + data[15..19];
  }

  /** The end of a filter block: where the offsets of the filters start, and the base, for one filter every 2048
    bytes. */
  lemma FilterBlockEnd(hash: Bloom.Hash, bitsPerKey: nat, k: nat, contents: Bytes, groups: seq<seq<Bytes>>)
    requires FilterBlock.Holds(hash, bitsPerKey, k, contents, groups)
    ensures |contents| >= 5 + 4 * |groups| && contents[|contents| - 1] == 11
    ensures contents[|contents| - 5..|contents| - 1] == Fixed(|contents| - 5 - 4 * |groups|, 4)
  {
    hide FilterBlock.FilterAt, Fixed;
    var bytes, offsets :| FilterBlock.Layout(hash, bitsPerKey, k, contents, groups, bytes, offsets);
  }

  // ---- tables -------------------------------------------------------------------------------------------

  /** The footer: two handles in 40 bytes, and the magic number. */
  lemma Footer(metaindex: Tables.Handle, index: Tables.Handle)
    ensures var bytes := Tables.FooterBytes(metaindex, index);
      |bytes| == 48 && bytes[40..] == [0x57, 0xfb, 0x80, 0x8b, 0x24, 0x75, 0x47, 0xdb] &&
      Tables.HandleBytes(metaindex) + Tables.HandleBytes(index) <= bytes
  {
    hide Tables.HandleBytes, Fixed;
    Tables.HandleIsShort(metaindex);
    Tables.HandleIsShort(index);
    MagicBytes();
  }

  lemma MagicBytes()
    ensures Fixed(0xdb47_7524_8b80_fb57, 8) == [0x57, 0xfb, 0x80, 0x8b, 0x24, 0x75, 0x47, 0xdb]
  {
    assert Fixed(0xdb, 1) == [0xdb] + Fixed(0, 0) && Fixed(0xdb47, 2) == [0x47] + Fixed(0xdb, 1);
    assert Fixed(0xdb_4775, 3) == [0x75] + Fixed(0xdb47, 2) && Fixed(0xdb47_7524, 4) == [0x24] + Fixed(0xdb_4775, 3);
    assert Fixed(0xdb_4775_248b, 5) == [0x8b] + Fixed(0xdb47_7524, 4);
    assert Fixed(0xdb47_7524_8b80, 6) == [0x80] + Fixed(0xdb_4775_248b, 5);
    assert Fixed(0xdb_4775_248b_80fb, 7) == [0xfb] + Fixed(0xdb47_7524_8b80, 6);
  }

  // ---- checksums -------------------------------------------------------------------------------------------

  /** The entries of the byte table for one bit each, from which linearity gives the others. */
  lemma ByteTable()
    ensures Crc32c.Shift(0x01, 8) == 0xf26b_8303 && Crc32c.Shift(0x02, 8) == 0xe13b_70f7
    ensures Crc32c.Shift(0x04, 8) == 0xc79a_971f && Crc32c.Shift(0x08, 8) == 0x8ad9_58cf
    ensures Crc32c.Shift(0x10, 8) == 0x105e_c76f && Crc32c.Shift(0x20, 8) == 0x20bd_8ede
    ensures Crc32c.Shift(0x40, 8) == 0x417b_1dbc && Crc32c.Shift(0x80, 8) == 0x82f6_3b78
  {
  }

  lemma MaskOfZero()
    ensures Crc32c.Mask(0) == 0xa282_ead8 && Crc32c.Mask(0x8000) == 0xa282_ead9 && Crc32c.Mask(1) == 0xa284_ead8
  {
  }
}
