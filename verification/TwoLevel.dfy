/** The two-level iterator of table/two_level_iterator.cc: an index iterator, and one data iterator at a time for the
    block the index points at.  It is a cursor on all blocks one after the other, empty blocks or not. */
module TwoLevel {
  import opened InternalKeys
  import opened Versions
  import opened Merger

  /** A key at or after everything in the block, and how to find the block. */
  datatype IndexEntry = IndexEntry(key: IKey, handle: nat)

  /** block_function_: the entries of the block with that handle; a block that cannot be read counts as empty. */
  type BlockFunction = nat -> seq<Entry>

  // ---- all blocks one after the other --------------------------------------------------------

  function Concat(index: seq<IndexEntry>, blocks: BlockFunction): seq<Entry> {
    if |index| == 0 then [] else Concat(index[..|index| - 1], blocks) + blocks(index[|index| - 1].handle)
  }

  /** Where block i starts. */
  function StartOf(index: seq<IndexEntry>, blocks: BlockFunction, i: nat): nat
    requires i <= |index|
  {
    |Concat(index[..i], blocks)|
  }

  lemma LastBlock(index: seq<IndexEntry>, blocks: BlockFunction)
    requires |index| > 0
    ensures Concat(index, blocks) == Concat(index[..|index| - 1], blocks) + blocks(index[|index| - 1].handle)
  {
  }

  lemma {:induction false} BlockIsThere(index: seq<IndexEntry>, blocks: BlockFunction, i: nat)
    requires i < |index|
    ensures var view, start, block := Concat(index, blocks), StartOf(index, blocks, i), blocks(index[i].handle);
      StartOf(index, blocks, i + 1) == start + |block| <= |view| && view[start..start + |block|] == block
    decreases |index|
  {
    hide Concat;
    var n := |index| - 1;
    LastBlock(index, blocks);
    if i < n {
      BlockIsThere(index[..n], blocks, i);
      assert index[..n][..i] == index[..i] && index[..n][..i + 1] == index[..i + 1];
      var start, end := StartOf(index, blocks, i), StartOf(index, blocks, i + 1);
      assert Concat(index, blocks)[start..end] == Concat(index[..n], blocks)[start..end];
    } else {
      assert index[..i + 1] == index;
    }
  }

  lemma Ends(index: seq<IndexEntry>, blocks: BlockFunction)
    ensures StartOf(index, blocks, 0) == 0 && StartOf(index, blocks, |index|) == |Concat(index, blocks)|
  {
    assert index[..0] == [] && index[..|index|] == index;
  }

  lemma EntryIsThere(index: seq<IndexEntry>, blocks: BlockFunction, i: nat, j: nat)
    requires i < |index| && j < |blocks(index[i].handle)|
    ensures StartOf(index, blocks, i) + j < |Concat(index, blocks)| &&
      Concat(index, blocks)[StartOf(index, blocks, i) + j] == blocks(index[i].handle)[j]
  {
    BlockIsThere(index, blocks, i);
    var start, block := StartOf(index, blocks, i), blocks(index[i].handle);
    assert Concat(index, blocks)[start..start + |block|][j] == Concat(index, blocks)[start + j];
  }

  /** Every entry in front of block n is in one of the blocks in front of it. */
  lemma {:induction false} BlockOf(index: seq<IndexEntry>, blocks: BlockFunction, at: nat) returns (i: nat, j: nat)
    requires at < |Concat(index, blocks)|
    ensures i < |index| && j < |blocks(index[i].handle)| && at == StartOf(index, blocks, i) + j &&
      Concat(index, blocks)[at] == blocks(index[i].handle)[j]
    decreases |index|
  {
    var n := |index| - 1;
    var before := Concat(index[..n], blocks);
    if at < |before| {
      i, j := BlockOf(index[..n], blocks, at);
      assert index[..n][..i] == index[..i];
    } else {
      i, j := n, at - |before|;
    }
  }

  lemma {:induction false} StartsGrow(index: seq<IndexEntry>, blocks: BlockFunction, i: nat, k: nat)
    requires i <= k <= |index|
    ensures StartOf(index, blocks, i) <= StartOf(index, blocks, k)
    decreases k - i
  {
    if i < k {
      BlockIsThere(index, blocks, k - 1);
      StartsGrow(index, blocks, i, k - 1);
    }
  }

  /** The index keys ascend, and each one separates its block from what follows. */
  ghost predicate Separated(index: seq<IndexEntry>, blocks: BlockFunction) {
    (forall i, k :: 0 <= i < k < |index| ==> Less(index[i].key, index[k].key)) &&
    (forall i, e :: 0 <= i < |index| && e in blocks(index[i].handle) ==> !Less(index[i].key, e.key)) &&
    (forall i, k, e :: 0 <= i < k < |index| && e in blocks(index[k].handle) ==> Less(index[i].key, e.key))
  }

  /** Where the first entry at or after the target is, if the index names block i for it. */
  function FirstFrom(index: seq<IndexEntry>, blocks: BlockFunction, i: nat, target: IKey): nat
    requires i <= |index|
  {
    StartOf(index, blocks, i) + if i < |index| then Seek(blocks(index[i].handle), target) else 0
  }

  /** The index names block i for the target. */
  ghost predicate Names(index: seq<IndexEntry>, i: nat, target: IKey) {
    i <= |index| && (forall k :: 0 <= k < i ==> Less(index[k].key, target)) &&
    (i < |index| ==> !Less(index[i].key, target))
  }

  /** Seeking in the block the index names, and on from its end, finds the first entry of all at or after the target. */
  lemma SeekInBlock(index: seq<IndexEntry>, blocks: BlockFunction, i: nat, target: IKey)
    requires Separated(index, blocks) && Names(index, i, target)
    ensures Seek(Concat(index, blocks), target) == FirstFrom(index, blocks, i, target)
  {
    hide Separated, Concat, StartOf, Seek, Less;
    var view, n := Concat(index, blocks), FirstFrom(index, blocks, i, target);
    FirstIsInside(index, blocks, i, target);
    forall at | 0 <= at < |view|
      ensures (at < n ==> Less(view[at].key, target)) && (at == n ==> !Less(view[at].key, target))
    {
      SideOfTarget(index, blocks, i, target, at);
    }
    SeekIsFirst(view, target, n);
  }

  lemma SeekIsFirst(entries: seq<Entry>, target: IKey, n: nat)
    requires n <= |entries| && (forall at :: 0 <= at < n ==> Less(entries[at].key, target)) &&
      (n < |entries| ==> !Less(entries[n].key, target))
    ensures Seek(entries, target) == n
  {
    hide Less;
  }

  lemma FirstIsInside(index: seq<IndexEntry>, blocks: BlockFunction, i: nat, target: IKey)
    requires Names(index, i, target)
    ensures FirstFrom(index, blocks, i, target) <= |Concat(index, blocks)|
  {
    hide Concat, Seek, Less;
    Ends(index, blocks);
    if i < |index| {
      BlockIsThere(index, blocks, i);
    }
  }

  lemma SideOfTarget(index: seq<IndexEntry>, blocks: BlockFunction, i: nat, target: IKey, at: nat)
    requires Separated(index, blocks) && Names(index, i, target) && at < |Concat(index, blocks)|
    ensures at < FirstFrom(index, blocks, i, target) ==> Less(Concat(index, blocks)[at].key, target)
    ensures at == FirstFrom(index, blocks, i, target) ==> !Less(Concat(index, blocks)[at].key, target)
  {
    hide Separated, Concat, StartOf, Less;
    var k, j := BlockOf(index, blocks, at);
    BesideTarget(index, blocks, i, target, k, j);
    BlockIsThere(index, blocks, k);
    if k < i {
      StartsGrow(index, blocks, k + 1, i);
    } else if k > i {
      BlockIsThere(index, blocks, i);
      StartsGrow(index, blocks, i + 1, k);
    }
  }

  lemma BesideTarget(index: seq<IndexEntry>, blocks: BlockFunction, i: nat, target: IKey, k: nat, j: nat)
    requires Separated(index, blocks) && Names(index, i, target) && k < |index| && j < |blocks(index[k].handle)|
    ensures k < i ==> Less(blocks(index[k].handle)[j].key, target)
    ensures k > i ==> !Less(blocks(index[k].handle)[j].key, target)
  {
    var e := blocks(index[k].handle)[j];
    assert e in blocks(index[k].handle);
  }

  // ---- the index iterator -----------------------------------------------------------------------

  /** A cursor on the index, as Version::LevelFileNumIterator is one on the files of a level. */
  class IndexIterator {
    const index: seq<IndexEntry>
    var pos: nat

    constructor (index: seq<IndexEntry>)
      ensures this.index == index && pos == |index|
    {
      this.index, pos := index, |index|;
    }

    predicate Valid()
      reads this
    {
      pos < |index|
    }

    method SeekToFirst()
      modifies this
      ensures pos == 0
    {
      pos := 0;
    }

    method SeekToLast()
      modifies this
      ensures pos == if |index| == 0 then 0 else |index| - 1
    {
      pos := if |index| == 0 then 0 else |index| - 1;
    }

    /** The binary search of FindFile. */
    method Seek(target: IKey)
      requires forall i, k :: 0 <= i < k < |index| ==> Less(index[i].key, index[k].key)
      modifies this
      ensures pos <= |index| && (forall k :: 0 <= k < pos ==> Less(index[k].key, target)) &&
        (pos < |index| ==> !Less(index[pos].key, target))
    {
      var left, right := 0, |index|;
      while left < right
        modifies {}
        invariant 0 <= left <= right <= |index|
        invariant forall k :: 0 <= k < left ==> Less(index[k].key, target)
        invariant right < |index| ==> !Less(index[right].key, target)
      {
        var mid := (left + right) / 2;
        if Less(index[mid].key, target) {
          left := mid + 1;
        } else {
          right := mid;
        }
      }
      pos := right;
    }

    method Next()
      requires Valid()
      modifies this
      ensures pos == old(pos) + 1
    {
      pos := pos + 1;
    }

    method Prev()
      requires Valid()
      modifies this
      ensures pos == if old(pos) == 0 then |index| else old(pos) - 1
    {
      pos := if pos == 0 then |index| else pos - 1;
    }
  }

  // ---- the two-level iterator ---------------------------------------------------------------------

  class TwoLevelIterator {
    const blocks: BlockFunction
    const indexIter: IndexIterator
    var dataIter: RunIterator?
    var dataBlockHandle: nat
    /** Where in the concatenation the iterator stands; at its end when it is not valid. */
    ghost var at: nat

    ghost function View(): seq<Entry> {
      Concat(indexIter.index, blocks)
    }

    ghost function Start(i: nat): nat
      requires i <= |indexIter.index|
    {
      StartOf(indexIter.index, blocks, i)
    }

    /** The data iterator, if there is one, reads the block its handle stands for. */
    ghost predicate Core()
      reads this, indexIter, dataIter
    {
      indexIter.pos <= |indexIter.index| &&
      (dataIter != null ==> dataIter.run == blocks(dataBlockHandle) && dataIter.pos <= |dataIter.run|)
    }

    /** The data iterator reads the block the index points at. */
    ghost predicate InStep()
      reads this, indexIter, dataIter
    {
      Core() && (indexIter.Valid() <==> dataIter != null) &&
      (dataIter != null ==> dataBlockHandle == indexIter.index[indexIter.pos].handle)
    }

    ghost predicate Valid()
      reads this, indexIter, dataIter
    {
      Core() &&
      if dataIter == null then at == |View()|
      else InStep() && dataIter.Valid() && at == Start(indexIter.pos) + dataIter.pos
    }

    predicate IsValid()
      reads this, dataIter
    {
      dataIter != null && dataIter.Valid()
    }

    constructor (index: seq<IndexEntry>, blocks: BlockFunction)
      ensures Valid() && !IsValid() && this.blocks == blocks && indexIter.index == index && fresh(indexIter)
    {
      this.blocks := blocks;
      indexIter := new IndexIterator(index);
      dataIter, dataBlockHandle := null, 0;
      at := |Concat(index, blocks)|;
    }

    method Current() returns (e: Entry)
      requires Valid() && IsValid()
      ensures at < |View()| && e == View()[at]
    {
      e := dataIter.Entry();
      EntryIsThere(indexIter.index, blocks, indexIter.pos, dataIter.pos);
    }

    /** Opens the block the index points at, unless it is open already. */
    method InitDataBlock()
      requires Core()
      modifies this`dataIter, this`dataBlockHandle
      ensures InStep() && (dataIter == old(dataIter) || dataIter == null || fresh(dataIter))
    {
      if !indexIter.Valid() {
        dataIter := null;
      } else {
        var handle := indexIter.index[indexIter.pos].handle;
        if dataIter != null && handle == dataBlockHandle {
        } else {
          var iter := new RunIterator(blocks(handle));
          dataBlockHandle := handle;
          dataIter := iter;
        }
      }
    }

    /** Where the two cursors together stand, going forward: behind the last entry of a block is the start of the
      next. */
    ghost function Ahead(): nat
      requires InStep()
      reads this, indexIter, dataIter
    {
      if dataIter == null then |View()| else Start(indexIter.pos) + dataIter.pos
    }

    method SkipEmptyDataBlocksForward()
      requires InStep() && at == Ahead()
      modifies this, indexIter, dataIter
      ensures Valid() && at == old(at) && (dataIter == old(dataIter) || dataIter == null || fresh(dataIter))
    {
      while dataIter == null || !dataIter.Valid()
        invariant InStep() && at == Ahead() == old(at) &&
          (dataIter == old(dataIter) || dataIter == null || fresh(dataIter))
        decreases |indexIter.index| - indexIter.pos
      {
        if !indexIter.Valid() {
          dataIter := null;
          return;
        }
        BlockIsThere(indexIter.index, blocks, indexIter.pos);
        Ends(indexIter.index, blocks);
        indexIter.Next();
        InitDataBlock();
        if dataIter != null {
          dataIter.SeekToFirst();
        }
      }
    }

    /** Just in front of block i. */
    ghost function BackFrom(i: nat): nat
      requires i <= |indexIter.index|
    {
      if Start(i) == 0 then |View()| else Start(i) - 1
    }

    /** Going backward: a block without a current entry is passed. */
    ghost predicate Behind()
      reads this, indexIter, dataIter
    {
      InStep() &&
      at == if dataIter == null then |View()| else if dataIter.Valid() then Start(indexIter.pos) + dataIter.pos
        else BackFrom(indexIter.pos)
    }

    method SkipEmptyDataBlocksBackward()
      requires Behind()
      modifies this, indexIter, dataIter
      ensures Valid() && at == old(at) && (dataIter == old(dataIter) || dataIter == null || fresh(dataIter))
    {
      while dataIter == null || !dataIter.Valid()
        invariant Behind() && at == old(at) && (dataIter == old(dataIter) || dataIter == null || fresh(dataIter))
        decreases if indexIter.Valid() then indexIter.pos + 1 else 0
      {
        if !indexIter.Valid() {
          dataIter := null;
          return;
        }
        Ends(indexIter.index, blocks);
        if indexIter.pos > 0 {
          BlockIsThere(indexIter.index, blocks, indexIter.pos - 1);
        }
        indexIter.Prev();
        InitDataBlock();
        if dataIter != null {
          dataIter.SeekToLast();
        }
      }
    }

    method SeekToFirst()
      requires Valid()
      modifies this, indexIter, dataIter
      ensures Valid() && at == 0 && (dataIter == old(dataIter) || dataIter == null || fresh(dataIter))
    {
      indexIter.SeekToFirst();
      InitDataBlock();
      if dataIter != null {
        dataIter.SeekToFirst();
      }
      Ends(indexIter.index, blocks);
      at := 0;
      SkipEmptyDataBlocksForward();
    }

    method SeekToLast()
      requires Valid()
      modifies this, indexIter, dataIter
      ensures Valid() && (at == if |View()| == 0 then 0 else |View()| - 1) &&
        (dataIter == old(dataIter) || dataIter == null || fresh(dataIter))
    {
      indexIter.SeekToLast();
      InitDataBlock();
      if dataIter != null {
        dataIter.SeekToLast();
        BlockIsThere(indexIter.index, blocks, indexIter.pos);
      }
      Ends(indexIter.index, blocks);
      at := if |View()| == 0 then 0 else |View()| - 1;
      SkipEmptyDataBlocksBackward();
    }

    /** The first entry of all blocks at or after the target. */
    method Seek(target: IKey)
      requires Valid() && Separated(indexIter.index, blocks)
      modifies this, indexIter, dataIter
      ensures Valid() && at == Versions.Seek(View(), target) &&
        (dataIter == old(dataIter) || dataIter == null || fresh(dataIter))
    {
      indexIter.Seek(target);
      InitDataBlock();
      SeekInBlock(indexIter.index, blocks, indexIter.pos, target);
      if dataIter != null {
        dataIter.Seek(target);
      }
      Ends(indexIter.index, blocks);
      at := Versions.Seek(View(), target);
      SkipEmptyDataBlocksForward();
    }

    method Next()
      requires Valid() && IsValid()
      modifies this, indexIter, dataIter
      ensures Valid() && at == old(at) + 1 && (dataIter == old(dataIter) || dataIter == null || fresh(dataIter))
    {
      dataIter.Next();
      at := at + 1;
      SkipEmptyDataBlocksForward();
    }

    method Prev()
      requires Valid() && IsValid()
      modifies this, indexIter, dataIter
      ensures Valid() && (at == if old(at) == 0 then |View()| else old(at) - 1) &&
        (dataIter == old(dataIter) || dataIter == null || fresh(dataIter))
    {
      dataIter.Prev();
      at := if at == 0 then |View()| else at - 1;
      SkipEmptyDataBlocksBackward();
    }
  }

  // ---- the files of a level ---------------------------------------------------------------------------

  /** What LevelFileNumIterator shows of a file: its largest key, and its number to open it by. */
  function IndexOf(files: seq<File>): (index: seq<IndexEntry>)
    ensures |index| == |files|
  {
    seq(|files|, i requires 0 <= i < |files| => IndexEntry(files[i].largest, files[i].number))
  }

  /** Opening a table by its number gives its entries. */
  ghost predicate Opens(files: seq<File>, blocks: BlockFunction) {
    forall f :: f in files ==> blocks(f.number) == f.entries
  }

  lemma LevelIsSeparated(files: seq<File>, blocks: BlockFunction)
    requires ValidFiles(files) && Disjoint(files) && Opens(files, blocks)
    ensures Separated(IndexOf(files), blocks)
  {
    hide ValidFile;
    var index := IndexOf(files);
    forall i, k | 0 <= i < k < |index| ensures Less(index[i].key, index[k].key) {
      FileIsBelow(files, i, k, files[k].largest);
    }
    forall i, e | 0 <= i < |index| && e in blocks(index[i].handle) ensures !Less(index[i].key, e.key) {
      assert files[i] in files;
      Bounds(files[i], e);
    }
    forall i, k, e | 0 <= i < k < |index| && e in blocks(index[k].handle) ensures Less(index[i].key, e.key) {
      assert files[k] in files;
      Bounds(files[k], e);
      FileIsBelow(files, i, k, e.key);
    }
  }

  /** A key at or after the start of a later file is behind the end of an earlier one. */
  lemma FileIsBelow(files: seq<File>, i: nat, k: nat, key: IKey)
    requires ValidFiles(files) && Disjoint(files) && i < k < |files|
    requires key == files[k].smallest || Before(files[k].smallest, key) || key == files[k].largest
    ensures Less(files[i].largest, key)
  {
    assert files[k] in files && files[k].entries[|files[k].entries| - 1] in files[k].entries;
    Bounds(files[k], files[k].entries[|files[k].entries| - 1]);
  }

  /** The entries of the files, one file after the other. */
  function RunOf(files: seq<File>): seq<Entry> {
    if |files| == 0 then [] else RunOf(files[..|files| - 1]) + files[|files| - 1].entries
  }

  /** That is what the iterator over a level goes through. */
  lemma {:induction false} ConcatIsRun(files: seq<File>, blocks: BlockFunction)
    requires Opens(files, blocks)
    ensures Concat(IndexOf(files), blocks) == RunOf(files)
  {
    if |files| > 0 {
      var n := |files| - 1;
      ConcatIsRun(files[..n], blocks);
      assert IndexOf(files)[..n] == IndexOf(files[..n]);
      assert files[n] in files;
    }
  }

  /** Files that do not overlap are one sorted run with exactly their entries. */
  lemma {:induction false} LevelIsOneRun(files: seq<File>)
    requires ValidFiles(files) && Disjoint(files)
    ensures Sorted(RunOf(files)) && Elements(RunOf(files)) == FileEntries(files)
  {
    hide Sorted, Elements, FileEntries, Before;
    var n := |files| - 1;
    if n >= 0 {
      LevelIsOneRun(files[..n]);
      assert files[n] in files;
      LastFileIsBehind(files);
      OneRunMore(files, RunOf(files[..n]));
    } else {
      NoFiles(files);
    }
  }

  lemma NoFiles(files: seq<File>)
    requires |files| == 0
    ensures Sorted([]) && Elements([]) == FileEntries(files)
  {
  }

  lemma LastFileIsBehind(files: seq<File>)
    requires ValidFiles(files) && Disjoint(files) && |files| > 0
    ensures forall x, y :: x in FileEntries(files[..|files| - 1]) && y in files[|files| - 1].entries ==>
      Before(x.key, y.key)
  {
    hide ValidFile;
    var n := |files| - 1;
    forall x, y | x in FileEntries(files[..n]) && y in files[n].entries ensures Before(x.key, y.key) {
      var f :| f in files[..n] && x in f.entries;
      var i :| 0 <= i < n && files[i] == f;
      assert files[n] in files;
      Bounds(f, x);
      Bounds(files[n], y);
    }
  }

  lemma OneRunMore(files: seq<File>, run: seq<Entry>)
    requires |files| > 0 && ValidFile(files[|files| - 1]) && Sorted(run) &&
      Elements(run) == FileEntries(files[..|files| - 1])
    requires forall x, y :: x in FileEntries(files[..|files| - 1]) && y in files[|files| - 1].entries ==>
      Before(x.key, y.key)
    ensures Sorted(run + files[|files| - 1].entries) && Elements(run + files[|files| - 1].entries) == FileEntries(files)
  {
    hide FileEntries, Before;
    var last := files[|files| - 1];
    MoreFileEntries(files);
    assert forall i :: 0 <= i < |run| ==> run[i] in Elements(run);
  }

  lemma MoreFileEntries(files: seq<File>)
    requires |files| > 0
    ensures FileEntries(files) == FileEntries(files[..|files| - 1]) + Elements(files[|files| - 1].entries)
  {
    assert files == files[..|files| - 1] + [files[|files| - 1]];
  }

  /** Version::NewConcatenatingIterator. */
  method NewConcatenatingIterator(files: seq<File>, blocks: BlockFunction) returns (iter: TwoLevelIterator)
    requires ValidFiles(files) && Disjoint(files) && Opens(files, blocks)
    ensures fresh(iter) && iter.Valid() && !iter.IsValid() && fresh(iter.indexIter) &&
      Separated(iter.indexIter.index, iter.blocks)
    ensures iter.View() == RunOf(files) && Sorted(iter.View()) && Elements(iter.View()) == FileEntries(files)
  {
    LevelIsSeparated(files, blocks);
    ConcatIsRun(files, blocks);
    LevelIsOneRun(files);
    iter := new TwoLevelIterator(IndexOf(files), blocks);
  }
}
