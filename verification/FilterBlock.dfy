/** The filter block of a table: one Bloom filter for every 2 KB of data-block offsets: table/filter_block.cc. */
module FilterBlock {
  import opened Coding
  import opened Bloom

  const BASE_LG: Byte := 11
  const BASE: nat := 2048

  /** Where piece i of a string ends, given where the pieces start. */
  function EndOf(starts: seq<nat>, i: nat, length: nat): nat
    requires i < |starts|
  {
    if i + 1 < |starts| then starts[i + 1] else length
  }

  /** Filter i lies in the bytes between its offset and the next one.  No keys, no bytes. */
  ghost predicate FilterAt(hash: Hash, bitsPerKey: nat, k: nat, bytes: Bytes, offsets: seq<nat>, group: seq<Bytes>,
                           i: nat)
    requires i < |offsets|
  {
    offsets[i] <= EndOf(offsets, i, |bytes|) <= |bytes| &&
    if |group| == 0 then offsets[i] == EndOf(offsets, i, |bytes|)
    else IsFilter(hash, group, bitsPerKey, k, bytes[offsets[i]..EndOf(offsets, i, |bytes|)])
  }

  ghost predicate FiltersAre(hash: Hash, bitsPerKey: nat, k: nat, bytes: Bytes, offsets: seq<nat>,
                             groups: seq<seq<Bytes>>) {
    |offsets| == |groups| &&
    forall i :: 0 <= i < |groups| ==> FilterAt(hash, bitsPerKey, k, bytes, offsets, groups[i], i)
  }

  ghost predicate Flattened(keys: Bytes, start: seq<nat>, pending: seq<Bytes>) {
    |start| == |pending| &&
    forall i :: 0 <= i < |pending| ==>
      start[i] <= EndOf(start, i, |keys|) <= |keys| && keys[start[i]..EndOf(start, i, |keys|)] == pending[i]
  }

  lemma SameCount(keys: Bytes, start: seq<nat>, pending: seq<Bytes>)
    requires Flattened(keys, start, pending)
    ensures |start| == |pending|
  {
  }

  lemma KeyBetween(keys: Bytes, start: seq<nat>, pending: seq<Bytes>, i: nat)
    requires Flattened(keys, start, pending) && i < |start| == |pending|
    ensures var ends := start + [|keys|]; ends[i] <= ends[i + 1] <= |keys| && keys[ends[i]..ends[i + 1]] == pending[i]
  {
    assert (start + [|keys|])[i + 1] == EndOf(start, i, |keys|);
  }

  lemma FlattenedMore(keys: Bytes, start: seq<nat>, pending: seq<Bytes>, key: Bytes)
    requires Flattened(keys, start, pending)
    ensures Flattened(keys + key, start + [|keys|], pending + [key])
  {
    var keys', start', pending' := keys + key, start + [|keys|], pending + [key];
    forall i | 0 <= i < |pending'|
      ensures start'[i] <= EndOf(start', i, |keys'|) <= |keys'| &&
        keys'[start'[i]..EndOf(start', i, |keys'|)] == pending'[i]
    {
      if i < |pending| {
        assert keys'[start[i]..EndOf(start, i, |keys|)] == keys[start[i]..EndOf(start, i, |keys|)];
      }
    }
  }

  /** The next filter starts where the bytes end. */
  lemma OneMoreFilter(hash: Hash, bitsPerKey: nat, k: nat, bytes: Bytes, offsets: seq<nat>, groups: seq<seq<Bytes>>,
                      more: Bytes, group: seq<Bytes>)
    requires FiltersAre(hash, bitsPerKey, k, bytes, offsets, groups)
    requires if |group| == 0 then more == [] else IsFilter(hash, group, bitsPerKey, k, more)
    ensures FiltersAre(hash, bitsPerKey, k, bytes + more, offsets + [|bytes|], groups + [group])
  {
    hide IsFilter;
    var bytes', offsets', groups' := bytes + more, offsets + [|bytes|], groups + [group];
    forall i | 0 <= i < |groups'| ensures FilterAt(hash, bitsPerKey, k, bytes', offsets', groups'[i], i) {
      if i < |groups| {
        assert FilterAt(hash, bitsPerKey, k, bytes, offsets, groups[i], i);
        assert EndOf(offsets', i, |bytes'|) == EndOf(offsets, i, |bytes|);
        assert bytes'[offsets[i]..EndOf(offsets, i, |bytes|)] == bytes[offsets[i]..EndOf(offsets, i, |bytes|)];
      } else {
        assert bytes'[|bytes|..|bytes'|] == more;
      }
    }
  }

  /** A finished filter block: the filters, their offsets, where the offsets start, the base. */
  ghost predicate Holds(hash: Hash, bitsPerKey: nat, k: nat, contents: Bytes, groups: seq<seq<Bytes>>) {
    exists bytes: Bytes, offsets: seq<nat> :: Layout(hash, bitsPerKey, k, contents, groups, bytes, offsets)
  }

  ghost predicate Layout(hash: Hash, bitsPerKey: nat, k: nat, contents: Bytes, groups: seq<seq<Bytes>>, bytes: Bytes,
                         offsets: seq<nat>) {
    FiltersAre(hash, bitsPerKey, k, bytes, offsets, groups) && |contents| < WORD32 &&
    |contents| == |bytes| + 4 * |offsets| + 5 && contents[..|bytes|] == bytes &&
    Words(contents, |bytes|, offsets, |offsets|) &&
    At(contents, |bytes| + 4 * |offsets|, Fixed(|bytes|, 4)) && contents[|contents| - 1] == BASE_LG
  }

  class FilterBlockBuilder {
    const hash: Hash
    const bitsPerKey: nat
    const k: nat
    var keys: Bytes
    var start: seq<nat>
    var result: Bytes
    var filterOffsets: seq<nat>
    ghost var groups: seq<seq<Bytes>>
    ghost var pending: seq<Bytes>

    ghost predicate Valid()
      reads this
    {
      1 <= k <= 30 && Flattened(keys, start, pending) && FiltersAre(hash, bitsPerKey, k, result, filterOffsets, groups)
    }

    constructor (hash: Hash, bitsPerKey: nat, k: nat)
      requires 1 <= k <= 30
      ensures Valid() && groups == [] && pending == [] && this.hash == hash && this.bitsPerKey == bitsPerKey &&
        this.k == k
    {
      this.hash, this.bitsPerKey, this.k := hash, bitsPerKey, k;
      keys, start, result, filterOffsets, groups, pending := [], [], [], [], [], [];
    }

    /** The keys so far belong to the filters of earlier offsets. */
    method StartBlock(blockOffset: nat)
      requires Valid() && |groups| <= blockOffset / BASE
      modifies this
      ensures Valid() && |groups| == blockOffset / BASE
      ensures |groups| == |old(groups)| ==> groups == old(groups) && pending == old(pending)
      ensures |groups| > |old(groups)| ==>
        pending == [] && groups[..|old(groups)| + 1] == old(groups) + [old(pending)] &&
                                           forall i :: |old(groups)| < i < |groups| ==> groups[i] == []
    {
      hide Flattened, FiltersAre;
      var filterIndex := blockOffset / BASE;
      Sizes();
      while filterIndex > |filterOffsets|
        invariant Valid() && |groups| == |filterOffsets| <= filterIndex && |groups| >= |old(groups)|
        invariant |groups| == |old(groups)| ==> groups == old(groups) && pending == old(pending)
        invariant |groups| > |old(groups)| ==>
          pending == [] && groups[..|old(groups)| + 1] == old(groups) + [old(pending)]
        invariant forall i :: |old(groups)| < i < |groups| ==> groups[i] == []
      {
        ghost var before := groups;
        GenerateFilter();
        Sizes();
        if |before| == |old(groups)| {
          assert groups[..|before| + 1] == groups;
        } else {
          assert groups[..|old(groups)| + 1] == before[..|old(groups)| + 1];
        }
      }
    }

    lemma Sizes()
      requires Valid()
      ensures |filterOffsets| == |groups| && |start| == |pending|
    {
    }

    method AddKey(key: Bytes)
      requires Valid()
      modifies this
      ensures Valid() && pending == old(pending) + [key] && groups == old(groups)
    {
      hide Flattened, FiltersAre;
      FlattenedMore(keys, start, pending, key);
      start := start + [|keys|];
      keys := keys + key;
      pending := pending + [key];
    }

    /** Cuts the flattened keys apart. */
    method PendingKeys() returns (tmpKeys: seq<Bytes>)
      requires Valid()
      ensures tmpKeys == pending
    {
      hide FiltersAre, Flattened, EndOf;
      SameCount(keys, start, pending);
      var ends := start + [|keys|];
      tmpKeys := [];
      for i := 0 to |start|
        invariant tmpKeys == pending[..i]
      {
        KeyBetween(keys, start, pending, i);
        tmpKeys := tmpKeys + [keys[ends[i]..ends[i + 1]]];
      }
    }

    /** Turns the pending keys into the next filter. */
    method GenerateFilter()
      requires Valid()
      modifies this
      ensures Valid() && groups == old(groups) + [old(pending)] && pending == []
    {
      hide FiltersAre, IsFilter;
      var numKeys := |start|;
      if numKeys == 0 {
        OneMoreFilter(hash, bitsPerKey, k, result, filterOffsets, groups, [], pending);
        assert result + [] == result;
        filterOffsets := filterOffsets + [|result|];
        groups, pending := groups + [pending], [];
        return;
      }
      var tmpKeys := PendingKeys();
      filterOffsets := filterOffsets + [|result|];
      var bytes := CreateFilter(hash, bitsPerKey, k, tmpKeys, result);
      OneMoreFilter(hash, bitsPerKey, k, result, old(filterOffsets), groups, bytes[|result|..], pending);
      assert bytes == result + bytes[|result|..];
      result := bytes;
      keys, start := [], [];
      groups, pending := groups + [pending], [];
    }

    /** The filters, where each starts, where that list starts, and the base. */
    method Finish() returns (contents: Bytes)
      requires Valid()
      modifies this
      ensures groups == old(groups) + (if |old(pending)| == 0 then [] else [old(pending)])
      ensures |contents| < WORD32 ==> Holds(hash, bitsPerKey, k, contents, groups)
    {
      hide FiltersAre, Flattened, Fixed, FilterAt, At, Words;
      Sizes();
      if |start| > 0 {
        GenerateFilter();
        Sizes();
      }
      var arrayOffset, offsets := |result|, filterOffsets;
      contents := result;
      NoWords(contents, arrayOffset, offsets);
      for i := 0 to |offsets|
        invariant |contents| == arrayOffset + 4 * i && result <= contents
        invariant Words(contents, arrayOffset, offsets, i)
        modifies {}
      {
        contents := PutWord(contents, offsets[i], arrayOffset, offsets, i);
      }
      contents := PutWord(contents, arrayOffset, arrayOffset, offsets, |offsets|);
      contents := PutByte(contents, arrayOffset, offsets, arrayOffset);
      if |contents| < WORD32 {
        assert Layout(hash, bitsPerKey, k, contents, groups, result, offsets);
      }
    }
  }

  // ---- reading --------------------------------------------------------------------------------

  /** The answer for a key of the block at that offset: no group, no objection; an empty group matches nothing; any
    other rules a key out exactly if one of its probes looks where no probe of the keys of the group did. So a key that
    was added is never ruled out. */
  ghost predicate Answers(hash: Hash, bitsPerKey: nat, k: nat, groups: seq<seq<Bytes>>, blockOffset: nat, key: Bytes,
                          r: bool) {
    var index := blockOffset / 2048;
    if index >= |groups| then r
    else if |groups[index]| == 0 then !r
    else (r <==> k > 30 || AllProbed(hash, groups[index], bitsPerKey, k, key)) && (key in groups[index] ==> r)
  }

  class FilterBlockReader {
    const hash: Hash
    const contents: Bytes
    const offsetsAt: nat
    const num: nat
    const baseLg: nat

    predicate Shape() {
      num > 0 ==> offsetsAt + 4 * num + 5 <= |contents|
    }

    /** Contents that cannot be a filter block leave a reader with no filters, which rules nothing out. */
    constructor (hash: Hash, contents: Bytes)
      requires |contents| < WORD32
      ensures this.hash == hash && this.contents == contents && Shape()
      ensures forall bitsPerKey, k, groups, bytes, offsets ::
        Layout(hash, bitsPerKey, k, contents, groups, bytes, offsets) ==>
          offsetsAt == |bytes| && num == |groups| && baseLg == BASE_LG
    {
      this.hash, this.contents := hash, contents;
      forall bitsPerKey, k, groups, bytes, offsets | Layout(hash, bitsPerKey, k, contents, groups, bytes, offsets)
        ensures |contents| >= 5 && Unfixed(contents[|contents| - 5..][..4]) == |bytes| &&
          |groups| == (|contents| - 5 - |bytes|) / 4
      {
        LastWord(contents, |bytes|, offsets);
      }
      if |contents| < 5 {
        offsetsAt, num, baseLg := 0, 0, 0;
      } else {
        var lastWord := DecodeFixed32(contents[|contents| - 5..]);
        if lastWord > |contents| - 5 {
          offsetsAt, num, baseLg := 0, 0, contents[|contents| - 1];
        } else {
          offsetsAt, num, baseLg := lastWord, (|contents| - 5 - lastWord) / 4, contents[|contents| - 1];
        }
      }
    }

    method KeyMayMatch(blockOffset: nat, key: Bytes, ghost bitsPerKey: nat, ghost k: nat, ghost groups: seq<seq<Bytes>>)
        returns (r: bool)
      requires Shape()
      ensures Built(bitsPerKey, k, groups) ==> Answers(hash, bitsPerKey, k, groups, blockOffset, key, r)
    {
      hide Matches, IsFilter, Built, Unfixed, Power2, Answers, EndOf;
      var index := blockOffset / Power2(baseLg);
      if Built(bitsPerKey, k, groups) {
        BuiltHolds(bitsPerKey, k, groups, blockOffset);
      }
      if index < num {
        var start := DecodeFixed32(contents[offsetsAt + 4 * index..]);
        var limit := DecodeFixed32(contents[offsetsAt + 4 * index + 4..]);
        if start <= limit && limit <= offsetsAt {
          r := Bloom.KeyMayMatch(hash, key, contents[start..limit]);
        } else {
          r := start != limit;
        }
        if Built(bitsPerKey, k, groups) {
          FilterAnswers(bitsPerKey, k, groups, blockOffset, key, r);
        }
        return;
      }
      r := true;
      if Built(bitsPerKey, k, groups) {
        NoFilterAnswers(bitsPerKey, k, groups, blockOffset, key);
      }
    }

    lemma NoFilterAnswers(bitsPerKey: nat, k: nat, groups: seq<seq<Bytes>>, blockOffset: nat, key: Bytes)
      requires blockOffset / BASE >= |groups|
      ensures Answers(hash, bitsPerKey, k, groups, blockOffset, key, true)
    {
    }

    ghost predicate Built(bitsPerKey: nat, k: nat, groups: seq<seq<Bytes>>) {
      Holds(hash, bitsPerKey, k, contents, groups) &&
      forall bytes, offsets :: Layout(hash, bitsPerKey, k, contents, groups, bytes, offsets) ==>
        offsetsAt == |bytes| && num == |groups| && baseLg == BASE_LG
    }

    lemma BuiltHolds(bitsPerKey: nat, k: nat, groups: seq<seq<Bytes>>, blockOffset: nat)
      requires Shape() && Built(bitsPerKey, k, groups)
      ensures num == |groups| && Power2(baseLg) == BASE
    {
      var bytes, offsets :| Layout(hash, bitsPerKey, k, contents, groups, bytes, offsets);
      PowerOfBase();
    }

    /** What the offsets lead to. */
    lemma FilterAnswers(bitsPerKey: nat, k: nat, groups: seq<seq<Bytes>>, blockOffset: nat, key: Bytes, r: bool)
      requires Shape() && Built(bitsPerKey, k, groups) && num == |groups| && blockOffset / BASE < num
      requires var index := blockOffset / BASE;
        var start, limit := Unfixed(contents[offsetsAt + 4 * index..][..4]),
          Unfixed(contents[offsetsAt + 4 * index + 4..][..4]);
        if start <= limit <= offsetsAt then r <==> Matches(hash, key, contents[start..limit]) else r == (start != limit)
      ensures Answers(hash, bitsPerKey, k, groups, blockOffset, key, r)
    {
      hide IsFilter, Fixed, Unfixed, Matches, AllProbed;
      var bytes, offsets :| Layout(hash, bitsPerKey, k, contents, groups, bytes, offsets);
      var index := blockOffset / BASE;
      OffsetRead(hash, bitsPerKey, k, contents, groups, bytes, offsets, index);
      assert FilterAt(hash, bitsPerKey, k, bytes, offsets, groups[index], index);
      var filter := bytes[offsets[index]..EndOf(offsets, index, |bytes|)];
      assert filter == contents[offsets[index]..EndOf(offsets, index, |bytes|)];
      if |groups[index]| > 0 {
        FilterMatches(hash, groups[index], bitsPerKey, k, filter, key);
        if key in groups[index] {
          NoFalseNegatives(hash, groups[index], bitsPerKey, k, filter, key);
        }
      } else {
        NothingMatches(hash, key, filter);
      }
    }
  }

  lemma NothingMatches(hash: Hash, key: Bytes, filter: Bytes)
    requires filter == []
    ensures !Matches(hash, key, filter)
  {
  }

  lemma PowerOfBase()
    ensures Power2(BASE_LG) == BASE
  {
    assert Power2(4) == 16 && Power2(8) == 16 * Power2(4);
  }

  lemma OffsetRead(hash: Hash, bitsPerKey: nat, k: nat, contents: Bytes, groups: seq<seq<Bytes>>, bytes: Bytes,
                   offsets: seq<nat>, i: nat)
    requires Layout(hash, bitsPerKey, k, contents, groups, bytes, offsets) && i < |offsets|
    ensures |bytes| + 4 * i + 8 <= |contents|
    ensures Unfixed(contents[|bytes| + 4 * i..][..4]) == offsets[i]
    ensures Unfixed(contents[|bytes| + 4 * i + 4..][..4]) == EndOf(offsets, i, |bytes|)
  {
    hide IsFilter;
    assert FilterAt(hash, bitsPerKey, k, bytes, offsets, groups[i], i);
    WordRead(contents, |bytes| + 4 * i, offsets[i]);
    if i + 1 < |offsets| {
      assert FilterAt(hash, bitsPerKey, k, bytes, offsets, groups[i + 1], i + 1);
      assert At(contents, |bytes| + 4 * (i + 1), Fixed(offsets[i + 1], 4));
    }
    WordRead(contents, |bytes| + 4 * i + 4, EndOf(offsets, i, |bytes|));
  }

  lemma WordRead(contents: Bytes, p: nat, v: nat)
    requires v < WORD32 && At(contents, p, Fixed(v, 4))
    ensures p + 4 <= |contents| && Unfixed(contents[p..][..4]) == v
  {
    Widths();
    FixedRoundTrip(v, 4);
    assert contents[p..][..4] == contents[p..p + 4];
  }

  lemma LastWord(contents: Bytes, v: nat, offsets: seq<nat>)
    requires |contents| == v + 4 * |offsets| + 5 < WORD32 && At(contents, v + 4 * |offsets|, Fixed(v, 4))
    ensures Unfixed(contents[|contents| - 5..][..4]) == v
  {
    Widths();
    FixedRoundTrip(v, 4);
    assert contents[|contents| - 5..][..4] == contents[v + 4 * |offsets|..v + 4 * |offsets| + 4];
  }

  ghost predicate Words(contents: Bytes, at: nat, words: seq<nat>, n: nat)
    requires n <= |words|
  {
    forall j :: 0 <= j < n ==> At(contents, at + 4 * j, Fixed(words[j], 4))
  }

  lemma NoWords(contents: Bytes, at: nat, words: seq<nat>)
    ensures Words(contents, at, words, 0)
  {
  }

  method PutWord(contents: Bytes, word: nat, ghost at: nat, ghost words: seq<nat>, ghost n: nat) returns (r: Bytes)
    requires n <= |words| && Words(contents, at, words, n)
    ensures r == contents + Fixed(word, 4) && Words(r, at, words, n) && At(r, |contents|, Fixed(word, 4))
    ensures n < |words| && |contents| == at + 4 * n && word == words[n] ==> Words(r, at, words, n + 1)
  {
    hide Fixed;
    r := contents + Fixed(word, 4);
    forall j | 0 <= j < n ensures At(r, at + 4 * j, Fixed(words[j], 4)) {
      Longer(contents, Fixed(word, 4), at + 4 * j, Fixed(words[j], 4));
    }
  }

  method PutByte(contents: Bytes, ghost at: nat, ghost words: seq<nat>, ghost last: nat) returns (r: Bytes)
    requires Words(contents, at, words, |words|) && At(contents, at + 4 * |words|, Fixed(last, 4))
    ensures r == contents + [BASE_LG] && Words(r, at, words, |words|) && At(r, at + 4 * |words|, Fixed(last, 4))
  {
    hide Fixed;
    r := contents + [BASE_LG];
    Longer(contents, [BASE_LG], at + 4 * |words|, Fixed(last, 4));
    forall j | 0 <= j < |words| ensures At(r, at + 4 * j, Fixed(words[j], 4)) {
      Longer(contents, [BASE_LG], at + 4 * j, Fixed(words[j], 4));
    }
  }

  lemma Longer(data: Bytes, more: Bytes, p: nat, bytes: Bytes)
    requires At(data, p, bytes)
    ensures At(data + more, p, bytes)
  {
    assert (data + more)[p..p + |bytes|] == data[p..p + |bytes|];
  }
}
