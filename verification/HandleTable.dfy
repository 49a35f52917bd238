/** The chained hash table of util/cache.cc.  A chain is the sequence of the handles it links. */
module HandleTable {
  import opened Options
  import opened Coding

  type Id = nat

  /** Handles are looked up by key and hash together. */
  datatype Name = Name(key: Bytes, hash: nat)
  datatype Slot = Slot(name: Name, id: Id)

  /** The chain belongs to bucket b, and no name occurs twice in it. */
  ghost predicate Chain(chain: seq<Slot>, b: nat, length: nat)
    requires length > 0
  {
    (forall i :: 0 <= i < |chain| ==> chain[i].name.hash % length == b) &&
    forall i, j :: 0 <= i < j < |chain| ==> chain[i].name != chain[j].name
  }

  ghost predicate Chains(list: seq<seq<Slot>>) {
    |list| > 0 && forall b :: 0 <= b < |list| ==> Chain(list[b], b, |list|)
  }

  /** The table holds exactly this map. */
  ghost predicate Holds(list: seq<seq<Slot>>, contents: map<Name, Id>)
    requires |list| > 0
  {
    forall name, id :: (name in contents && contents[name] == id) <==> Slot(name, id) in list[name.hash % |list|]
  }

  class HandleTable {
    var length: nat
    var elems: nat
    var list: array<seq<Slot>>
    ghost var contents: map<Name, Id>

    ghost predicate Valid()
      reads this, list
    {
      list.Length == length && Chains(list[..]) && Holds(list[..], contents) && elems == |contents|
    }

    constructor ()
      ensures Valid() && fresh(list) && contents == map[]
    {
      length, elems, contents := 4, 0, map[];
      list := new seq<Slot>[4](i => []);
    }

    /** The place of the handle in its chain, or the end of the chain. */
    method FindPointer(name: Name) returns (b: nat, i: nat)
      requires Valid()
      ensures b == name.hash % length && b < list.Length && i <= |list[b]|
      ensures i < |list[b]| ==> list[b][i].name == name && name in contents && contents[name] == list[b][i].id
      ensures i == |list[b]| ==> name !in contents && forall j :: 0 <= j < i ==> list[b][j].name != name
    {
      b := name.hash % length;
      i := 0;
      while i < |list[b]| && list[b][i].name != name
        invariant i <= |list[b]| && forall j :: 0 <= j < i ==> list[b][j].name != name
      {
        i := i + 1;
      }
      if i < |list[b]| {
        assert list[b][i] == Slot(name, list[b][i].id);
      } else if name in contents {
        assert Slot(name, contents[name]) in list[..][b];
      }
    }

    method Lookup(name: Name) returns (r: Option<Id>)
      requires Valid()
      ensures r == if name in contents then Some(contents[name]) else None
    {
      var b, i := FindPointer(name);
      r := if i < |list[b]| then Some(list[b][i].id) else None;
    }

    /** Takes the place of an old handle of that name, or goes to the end of the chain. */
    method Insert(name: Name, id: Id) returns (previous: Option<Id>)
      requires Valid()
      modifies this, list
      ensures Valid() && (list == old(list) || fresh(list)) && contents == old(contents)[name := id]
      ensures previous == if name in old(contents) then Some(old(contents)[name]) else None
    {
      hide Chains, Holds;
      var b, i := FindPointer(name);
      if i < |list[b]| {
        previous := Some(list[b][i].id);
        ReplaceKeeps(list[..], contents, name, id, i);
        contents := contents[name := id];
        list[b] := list[b][i := Slot(name, id)];
        assert list[..] == old(list[..])[b := old(list[..])[b][i := Slot(name, id)]];
        SameCount(old(contents), name, id);
      } else {
        previous := None;
        AppendKeeps(list[..], contents, name, id);
        contents := contents[name := id];
        list[b] := list[b] + [Slot(name, id)];
        assert list[..] == old(list[..])[b := old(list[..])[b] + [Slot(name, id)]];
        OneMore(old(contents), name, id);
        elems := elems + 1;
        if elems > length {
          Resize();
        }
      }
    }

    method Remove(name: Name) returns (r: Option<Id>)
      requires Valid()
      modifies this, list
      ensures Valid() && list == old(list) && contents == old(contents) - {name}
      ensures r == if name in old(contents) then Some(old(contents)[name]) else None
    {
      hide Chains, Holds;
      var b, i := FindPointer(name);
      if i < |list[b]| {
        r := Some(list[b][i].id);
        RemoveKeeps(list[..], contents, name, i);
        OneLess(contents, name);
        contents := contents - {name};
        list[b] := list[b][..i] + list[b][i + 1..];
        assert list[..] == old(list[..])[b := old(list[..])[b][..i] + old(list[..])[b][i + 1..]];
        elems := elems - 1;
      } else {
        r := None;
        assert contents - {name} == contents;
      }
    }

    /** Twice as many buckets until they outnumber the handles; every handle moves to the front of its new chain. */
    method Resize()
      requires Valid()
      modifies this, list
      ensures Valid() && fresh(list) && contents == old(contents) && length >= elems
    {
      hide Chains, Holds, Moved, Chain;
      var newLength := 4;
      while newLength < elems
        invariant newLength >= 4
      {
        newLength := newLength * 2;
      }
      var newList := new seq<Slot>[newLength](i => []);
      ghost var from := list[..];
      HasBuckets(from);
      NothingMoved(from, newList[..]);
      for i := 0 to length
        invariant Valid() && unchanged(this) && unchanged(list) && fresh(newList) && newList.Length == newLength
        invariant Moved(from, i, 0, newList[..])
      {
        for j := 0 to |list[i]|
          invariant Valid() && unchanged(this) && unchanged(list) && fresh(newList) && newList.Length == newLength
          invariant Moved(from, i, j, newList[..])
        {
          var h := list[i][j];
          ghost var before := newList[..];
          var b := h.name.hash % newLength;
          newList[b] := [h] + newList[b];
          assert newList[..] == before[b := [h] + before[b]];
          MoveOne(from, i, j, before);
        }
        NextBucket(from, i, newList[..]);
      }
      AllMoved(from, newList[..], contents);
      list := newList;
      length := newLength;
    }
  }

  lemma SameCount(m: map<Name, Id>, name: Name, id: Id)
    requires name in m
    ensures |m[name := id]| == |m|
  {
    assert m[name := id].Keys == m.Keys;
    KeysCount(m);
    KeysCount(m[name := id]);
  }

  lemma KeysCount(m: map<Name, Id>)
    ensures |m| == |m.Keys|
  {
  }

  lemma OneMore(m: map<Name, Id>, name: Name, id: Id)
    requires name !in m
    ensures |m[name := id]| == |m| + 1
  {
    assert m[name := id].Keys == m.Keys + {name};
    KeysCount(m);
    KeysCount(m[name := id]);
  }

  lemma OneLess(m: map<Name, Id>, name: Name)
    requires name in m
    ensures |m - {name}| == |m| - 1
  {
    assert (m - {name}).Keys == m.Keys - {name};
    KeysCount(m);
    KeysCount(m - {name});
  }

  lemma ReplaceKeeps(list: seq<seq<Slot>>, contents: map<Name, Id>, name: Name, id: Id, i: nat)
    requires Chains(list) && Holds(list, contents) && i < |list[name.hash % |list|]| &&
      list[name.hash % |list|][i].name == name
    ensures var b := name.hash % |list|; var list' := list[b := list[b][i := Slot(name, id)]];
      Chains(list') && Holds(list', contents[name := id])
  {
    var b := name.hash % |list|;
    var chain := list[b];
    var chain' := chain[i := Slot(name, id)];
    var list' := list[b := chain'];
    assert Chain(chain, b, |list|);
    forall c | 0 <= c < |list'| ensures Chain(list'[c], c, |list'|) {
      assert Chain(list[c], c, |list|);
    }
    forall n, x
      ensures (n in contents[name := id] && contents[name := id][n] == x) <==> Slot(n, x) in list'[n.hash % |list'|]
    {
      assert (n in contents && contents[n] == x) <==> Slot(n, x) in list[n.hash % |list|];
      if n == name {
        assert chain'[i] == Slot(name, id);
      } else if n.hash % |list| == b {
        InReplaced(chain, i, Slot(name, id), Slot(n, x));
      }
    }
  }

  lemma InReplaced(chain: seq<Slot>, i: nat, s: Slot, x: Slot)
    requires i < |chain| && chain[i].name == s.name && x.name != s.name
    ensures x in chain[i := s] <==> x in chain
  {
    if x in chain {
      var j :| 0 <= j < |chain| && chain[j] == x;
      assert chain[i := s][j] == x;
    }
  }

  lemma AppendKeeps(list: seq<seq<Slot>>, contents: map<Name, Id>, name: Name, id: Id)
    requires Chains(list) && Holds(list, contents) && name !in contents
    requires forall j :: 0 <= j < |list[name.hash % |list|]| ==> list[name.hash % |list|][j].name != name
    ensures var b := name.hash % |list|; var list' := list[b := list[b] + [Slot(name, id)]];
      Chains(list') && Holds(list', contents[name := id])
  {
    var b := name.hash % |list|;
    var list' := list[b := list[b] + [Slot(name, id)]];
    forall c | 0 <= c < |list'| ensures Chain(list'[c], c, |list'|) {
      assert Chain(list[c], c, |list|);
    }
    forall n, x
      ensures (n in contents[name := id] && contents[name := id][n] == x) <==> Slot(n, x) in list'[n.hash % |list'|]
    {
      assert (n in contents && contents[n] == x) <==> Slot(n, x) in list[n.hash % |list|];
    }
  }

  lemma RemoveKeeps(list: seq<seq<Slot>>, contents: map<Name, Id>, name: Name, i: nat)
    requires Chains(list) && Holds(list, contents) && i < |list[name.hash % |list|]| &&
      list[name.hash % |list|][i].name == name
    ensures var b := name.hash % |list|; var list' := list[b := list[b][..i] + list[b][i + 1..]];
      Chains(list') && Holds(list', contents - {name})
  {
    var b := name.hash % |list|;
    var chain := list[b];
    var chain' := chain[..i] + chain[i + 1..];
    var list' := list[b := chain'];
    assert Chain(chain, b, |list|);
    forall c | 0 <= c < |list'| ensures Chain(list'[c], c, |list'|) {
      assert Chain(list[c], c, |list|);
    }
    forall n, x
      ensures (n in contents - {name} && (contents - {name})[n] == x) <==> Slot(n, x) in list'[n.hash % |list'|]
    {
      assert (n in contents && contents[n] == x) <==> Slot(n, x) in list[n.hash % |list|];
      if n.hash % |list| == b {
        InRemoved(chain, i, Slot(n, x));
      }
    }
  }

  lemma InRemoved(chain: seq<Slot>, i: nat, x: Slot)
    requires i < |chain| && forall j, k :: 0 <= j < k < |chain| ==> chain[j].name != chain[k].name
    ensures x in chain[..i] + chain[i + 1..] <==> x in chain && x.name != chain[i].name
  {
    var rest := chain[..i] + chain[i + 1..];
    if x in rest {
      var j :| 0 <= j < |rest| && rest[j] == x;
      assert x == chain[if j < i then j else j + 1];
    }
    if x in chain && x.name != chain[i].name {
      var j :| 0 <= j < |chain| && chain[j] == x;
      assert rest[if j < i then j else j - 1] == x;
    }
  }

  // ---- resizing ------------------------------------------------------------------------------

  /** Is the handle among the first i buckets, or the first j of bucket i? */
  ghost predicate Before(from: seq<seq<Slot>>, i: nat, j: nat, s: Slot) {
    (exists c, k :: 0 <= c < i && c < |from| && 0 <= k < |from[c]| && from[c][k] == s) ||
    exists k :: 0 <= k < j && i < |from| && k < |from[i]| && from[i][k] == s
  }

  /** The new chains hold exactly what was moved so far. */
  ghost predicate Moved(from: seq<seq<Slot>>, i: nat, j: nat, to: seq<seq<Slot>>) {
    Chains(from) && Chains(to) && forall s: Slot :: s in to[s.name.hash % |to|] <==> Before(from, i, j, s)
  }

  lemma HasBuckets(list: seq<seq<Slot>>)
    requires Chains(list)
    ensures |list| > 0
  {
  }

  lemma NothingMoved(from: seq<seq<Slot>>, to: seq<seq<Slot>>)
    requires Chains(from) && |to| > 0 && forall b :: 0 <= b < |to| ==> to[b] == []
    ensures Moved(from, 0, 0, to)
  {
  }

  lemma MoveOne(from: seq<seq<Slot>>, i: nat, j: nat, to: seq<seq<Slot>>)
    requires Moved(from, i, j, to) && i < |from| && j < |from[i]|
    ensures var h := from[i][j]; var b := h.name.hash % |to|;
      Moved(from, i, j + 1, to[b := [h] + to[b]])
  {
    hide Before;
    var h := from[i][j];
    var b := h.name.hash % |to|;
    var to' := to[b := [h] + to[b]];
    assert Chain(from[i], i, |from|);
    forall x | x in to[b] ensures x.name != h.name {
      if x.name == h.name {
        NotBefore(from, i, j, x);
      }
    }
    forall c | 0 <= c < |to'| ensures Chain(to'[c], c, |to'|) {
      assert Chain(to[c], c, |to|);
    }
    forall s: Slot ensures s in to'[s.name.hash % |to'|] <==> Before(from, i, j + 1, s) {
      assert s in to[s.name.hash % |to|] <==> Before(from, i, j, s);
      BeforeNext(from, i, j, s);
    }
  }

  lemma NotBefore(from: seq<seq<Slot>>, i: nat, j: nat, x: Slot)
    requires Chains(from) && i < |from| && j < |from[i]| && x.name == from[i][j].name
    ensures !Before(from, i, j, x)
  {
    assert Chain(from[i], i, |from|);
    forall c, k | 0 <= c < i && 0 <= k < |from[c]| ensures from[c][k] != x {
      assert Chain(from[c], c, |from|);
    }
  }

  lemma BeforeNext(from: seq<seq<Slot>>, i: nat, j: nat, s: Slot)
    requires i < |from| && j < |from[i]|
    ensures Before(from, i, j + 1, s) <==> Before(from, i, j, s) || s == from[i][j]
  {
  }

  lemma NextBucket(from: seq<seq<Slot>>, i: nat, to: seq<seq<Slot>>)
    requires i < |from| && Moved(from, i, |from[i]|, to)
    ensures Moved(from, i + 1, 0, to)
  {
    forall s: Slot ensures Before(from, i + 1, 0, s) <==> Before(from, i, |from[i]|, s) {
    }
  }

  lemma AllMoved(from: seq<seq<Slot>>, to: seq<seq<Slot>>, contents: map<Name, Id>)
    requires Moved(from, |from|, 0, to) && |from| > 0 && Holds(from, contents)
    ensures Chains(to) && Holds(to, contents)
  {
    forall name, id ensures (name in contents && contents[name] == id) <==> Slot(name, id) in to[name.hash % |to|] {
      var s := Slot(name, id);
      var b := name.hash % |from|;
      if s in from[b] {
        var k :| 0 <= k < |from[b]| && from[b][k] == s;
        assert Before(from, |from|, 0, s);
      }
      if Before(from, |from|, 0, s) {
        var c, k :| 0 <= c < |from| && 0 <= k < |from[c]| && from[c][k] == s;
        assert Chain(from[c], c, |from|);
      }
    }
  }
}
