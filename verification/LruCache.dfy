/** One shard of the cache: class LRUCache of util/cache.cc.  Handles live at addresses; the two lists are
  circular, doubly linked through next and prev, and start at a dummy head each. */
module LruCache {
  import opened Options
  import opened Coding
  import HandleTable
  import opened Rings

  type Name = HandleTable.Name

  const LRU: Id := 0
  const IN_USE: Id := 1

  datatype Handle = Handle(name: Name, charge: nat, refs: nat, inCache: bool)

  // ---- what the lists hold ------------------------------------------------------------------------

  function ChargeOf(handles: map<Id, Handle>, id: Id): nat {
    if id in handles then handles[id].charge else 0
  }

  function Total(handles: map<Id, Handle>, s: seq<Id>): nat {
    if |s| == 0 then 0 else Total(handles, s[..|s| - 1]) + ChargeOf(handles, s[|s| - 1])
  }

  lemma {:induction false} TotalWithout(handles: map<Id, Handle>, s: seq<Id>, i: nat)
    requires i < |s|
    ensures Total(handles, s) == Total(handles, Without(s, i)) + ChargeOf(handles, s[i])
  {
    var n := |s| - 1;
    if i < n {
      TotalWithout(handles, s[..n], i);
      assert Without(s, i)[..n - 1] == Without(s[..n], i);
    } else {
      assert Without(s, i) == s[..n];
    }
  }

  lemma TotalAppend(handles: map<Id, Handle>, s: seq<Id>, e: Id)
    ensures Total(handles, s + [e]) == Total(handles, s) + ChargeOf(handles, e)
  {
    assert (s + [e])[..|s|] == s;
  }

  lemma {:induction false} TotalSame(handles: map<Id, Handle>, handles': map<Id, Handle>, s: seq<Id>)
    requires forall x :: x in s ==> ChargeOf(handles', x) == ChargeOf(handles, x)
    ensures Total(handles', s) == Total(handles, s)
  {
    if |s| > 0 {
      TotalSame(handles, handles', s[..|s| - 1]);
    }
  }

  /** A handle of the cache is on exactly the list its references call for. */
  ghost predicate Placed(handles: map<Id, Handle>, lru: seq<Id>, inUse: seq<Id>) {
    (forall id :: id in lru <==> id in handles && handles[id].inCache && handles[id].refs == 1) &&
    forall id :: id in inUse <==> id in handles && handles[id].inCache && handles[id].refs >= 2
  }

  /** A reference for every client that holds the handle, and one for the cache. */
  ghost predicate Counted(handles: map<Id, Handle>, clients: multiset<Id>, nextId: Id) {
    (forall id :: id in handles ==>
     2 <= id < nextId && 0 < handles[id].refs == clients[id] + if handles[id].inCache then 1 else 0) &&
    forall id :: id in clients ==> id in handles
  }

  /** The deleter has run once for every handle there was and is no more, and for no other. */
  ghost predicate DeletedOnce(handles: map<Id, Handle>, deleted: seq<Id>, nextId: Id) {
    NoDup(deleted) && forall id :: id in deleted <==> 2 <= id < nextId && id !in handles
  }

  /** What the cache gives up for a name: the handle replaced or erased is deleted if nobody else holds it. */
  function DeletedBy(handles: map<Id, Handle>, contents: map<Name, Id>, name: Name): seq<Id> {
    if name in contents && contents[name] in handles && handles[contents[name]].refs == 1 then [contents[name]] else []
  }

  /** Of the handles that could be evicted some are gone, the oldest first, and their deleters ran in that order. */
  ghost predicate OldestGone(lru: seq<Id>, deleted: seq<Id>, lru': seq<Id>, deleted': seq<Id>) {
    |lru'| <= |lru| && lru' == lru[|lru| - |lru'|..] && deleted' == deleted + lru[..|lru| - |lru'|]
  }

  function ChargeBy(handles: map<Id, Handle>, contents: map<Name, Id>, name: Name): nat {
    if name in contents then ChargeOf(handles, contents[name]) else 0
  }

  function LeftBy(s: seq<Id>, contents: map<Name, Id>, name: Name): seq<Id> {
    if name in contents then Minus(s, contents[name]) else s
  }

  /** The table finds the handles of the cache, all but one perhaps. */
  ghost predicate Named(handles: map<Id, Handle>, contents: map<Name, Id>, except: Option<Id>) {
    (forall name :: name in contents ==>
     contents[name] in handles && handles[contents[name]].inCache && handles[contents[name]].name == name) &&
    forall id :: id in handles && handles[id].inCache && Some(id) != except ==>
      handles[id].name in contents && contents[handles[id].name] == id
  }

  lemma PositionOf(s: seq<Id>, e: Id) returns (i: nat)
    requires e in s
    ensures i < |s| && s[i] == e
  {
    i :| 0 <= i < |s| && s[i] == e;
  }

  lemma WithoutMembers(s: seq<Id>, i: nat)
    requires i < |s| && NoDup(s)
    ensures NoDup(Without(s, i)) && forall x :: x in Without(s, i) <==> x in s && x != s[i]
  {
    var r := Without(s, i);
    forall x | x in s && x != s[i] ensures x in r {
      var j :| 0 <= j < |s| && s[j] == x;
      assert r[if j < i then j else j - 1] == x;
    }
    forall x | x in r ensures x in s && x != s[i] {
      var j :| 0 <= j < |r| && r[j] == x;
      assert s[if j < i then j else j + 1] == x;
    }
  }

  class LRUCache {
    const table: HandleTable.HandleTable
    var capacity: nat
    var usage: nat
    var next: map<Id, Id>
    var prev: map<Id, Id>
    var handles: map<Id, Handle>
    var nextId: Id
    /** The handles whose deleter has run. */
    var deleted: seq<Id>
    /** Oldest first. */
    ghost var lru: seq<Id>
    ghost var inUse: seq<Id>
    ghost var clients: multiset<Id>

    ghost predicate Rings()
      reads this
    {
      Ring(next, prev, LRU, lru) && Ring(next, prev, IN_USE, inUse) && NoDup(lru) && NoDup(inUse) &&
      (forall x :: x in lru ==> x >= 2 && x !in inUse) && forall x :: x in inUse ==> x >= 2
    }

    ghost predicate Core()
      reads this
    {
      Rings() && Placed(handles, lru, inUse) && Counted(handles, clients, nextId) &&
      DeletedOnce(handles, deleted, nextId) &&
      usage == Total(handles, lru) + Total(handles, inUse) && nextId >= 2
    }

    ghost predicate Valid()
      reads this, table, table.list
    {
      Core() && table.Valid() && Named(handles, table.contents, None)
    }

    constructor (capacity: nat)
      ensures Valid() && fresh(table) && fresh(table.list) && handles == map[] && clients == multiset{} &&
        deleted == [] && this.capacity == capacity
    {
      table := new HandleTable.HandleTable();
      this.capacity, usage, nextId, deleted := capacity, 0, 2, [];
      next, prev := map[LRU := LRU, IN_USE := IN_USE], map[LRU := LRU, IN_USE := IN_USE];
      handles, lru, inUse, clients := map[], [], [], multiset{};
    }

    method LruRemove(e: Id)
      requires Rings() && (e in lru || e in inUse)
      modifies this`next, this`prev, this`lru, this`inUse
      ensures Rings()
      ensures forall x :: x in lru <==> x in old(lru) && x != e
      ensures forall x :: x in inUse <==> x in old(inUse) && x != e
      ensures Total(handles, lru) + Total(handles, inUse) + ChargeOf(handles, e) ==
        Total(handles, old(lru)) + Total(handles, old(inUse))
      ensures lru == Minus(old(lru), e) && inUse == Minus(old(inUse), e) &&
        if e in old(lru) then inUse == old(inUse) else lru == old(lru)
    {
      hide Ring, Linked, Minus;
      RemoveFits(e);
      ghost var inLru := e in lru;
      ghost var i := PositionOf(if inLru then lru else inUse, e);
      if inLru {
        WithoutMembers(lru, i);
        TotalWithout(handles, lru, i);
        MinusMember(lru, i);
        MinusNone(inUse, e);
        lru := Without(lru, i);
      } else {
        WithoutMembers(inUse, i);
        MinusMember(inUse, i);
        MinusNone(lru, e);
        TotalWithout(handles, inUse, i);
        inUse := Without(inUse, i);
      }
      var before, after := prev[e], next[e];
      next, prev := next[before := after], prev[after := before];
    }

    /** Taking e out of its circle leaves both circles whole. */
    lemma RemoveFits(e: Id)
      requires Rings() && (e in lru || e in inUse)
      ensures e in next && e in prev
      ensures forall i :: 0 <= i < |lru| && lru[i] == e ==>
        Ring(next[prev[e] := next[e]], prev[next[e] := prev[e]], LRU, Without(lru, i)) &&
        Ring(next[prev[e] := next[e]], prev[next[e] := prev[e]], IN_USE, inUse)
      ensures forall i :: 0 <= i < |inUse| && inUse[i] == e ==>
        Ring(next[prev[e] := next[e]], prev[next[e] := prev[e]], IN_USE, Without(inUse, i)) &&
        Ring(next[prev[e] := next[e]], prev[next[e] := prev[e]], LRU, lru)
    {
      hide Ring, Linked;
      if e in lru {
        var i := PositionOf(lru, e);
        RemoveKeepsRing(next, prev, LRU, lru, i);
        Neighbours(next, prev, LRU, lru, i);
        OtherRing(next, prev, IN_USE, inUse, next[prev[e] := next[e]], prev[next[e] := prev[e]]);
      } else {
        var i := PositionOf(inUse, e);
        RemoveKeepsRing(next, prev, IN_USE, inUse, i);
        Neighbours(next, prev, IN_USE, inUse, i);
        OtherRing(next, prev, LRU, lru, next[prev[e] := next[e]], prev[next[e] := prev[e]]);
      }
    }

    method LruAppend(list: Id, e: Id)
      requires Rings() && (list == LRU || list == IN_USE) && e >= 2 && e !in lru && e !in inUse
      modifies this`next, this`prev, this`lru, this`inUse
      ensures Rings()
      ensures lru == (if list == LRU then old(lru) + [e] else old(lru)) &&
        inUse == if list == IN_USE then old(inUse) + [e] else old(inUse)
      ensures Total(handles, lru) + Total(handles, inUse) ==
        Total(handles, old(lru)) + Total(handles, old(inUse)) + ChargeOf(handles, e)
    {
      hide Ring, Linked;
      AppendKeepsRing(next, prev, list, if list == LRU then lru else inUse, e);
      LastOf(next, prev, list, if list == LRU then lru else inUse);
      var next' := next[e := list][prev[list] := e];
      var prev' := prev[e := prev[list]][list := e];
      OtherRing(next, prev, if list == LRU then IN_USE else LRU, if list == LRU then inUse else lru, next', prev');
      next, prev := next', prev';
      if list == LRU {
        TotalAppend(handles, lru, e);
        lru := lru + [e];
      } else {
        TotalAppend(handles, inUse, e);
        inUse := inUse + [e];
      }
    }

    /** Drops one reference.  The last one runs the deleter; the last but one of a cached handle makes it the newest
        handle that can be evicted. */
    method Unref(e: Id)
      requires Rings() && e in handles && e >= 2 && handles[e].refs > 0 &&
        (handles[e].refs == 1 ==> !handles[e].inCache)
      requires handles[e].inCache && handles[e].refs == 2 ==> e in inUse
      modifies this`handles, this`deleted, this`next, this`prev, this`lru, this`inUse
      ensures Rings()
      ensures handles == if old(handles)[e].refs == 1 then old(handles) - {e}
                         else old(handles)[e := old(handles)[e].(refs := old(handles)[e].refs - 1)]
      ensures deleted == old(deleted) + if old(handles)[e].refs == 1 then [e] else []
      ensures if old(handles)[e].inCache && old(handles)[e].refs == 2
              then lru == old(lru) + [e] && (forall x :: x in inUse <==> x in old(inUse) && x != e) &&
                   Total(old(handles), lru) + Total(old(handles), inUse) ==
                     Total(old(handles), old(lru)) + Total(old(handles), old(inUse))
              else lru == old(lru) && inUse == old(inUse)
    {
      hide Ring, Linked, Total, NoDup;
      var h := handles[e];
      if h.refs == 1 {
        handles := handles - {e};
        deleted := deleted + [e];
      } else {
        if h.inCache && h.refs == 2 {
          LruRemove(e);
          LruAppend(LRU, e);
        }
        handles := handles[e := h.(refs := h.refs - 1)];
      }
    }

    /** Takes one reference for a client. */
    method Ref(e: Id)
      requires Core() && e in handles
      modifies this`handles, this`next, this`prev, this`lru, this`inUse, this`clients
      ensures Core() && handles == old(handles)[e := old(handles)[e].(refs := old(handles)[e].refs + 1)]
      ensures clients == old(clients) + multiset{e}
      ensures if old(handles)[e].inCache && old(handles)[e].refs == 1
              then inUse == old(inUse) + [e] && (forall x :: x in lru <==> x in old(lru) && x != e)
              else lru == old(lru) && inUse == old(inUse)
    {
      hide Ring, Linked, Total, NoDup, Placed, Counted, DeletedOnce, ChargeOf;
      Facts(e);
      var h := handles[e];
      ghost var before, oldLru, oldInUse := handles, lru, inUse;
      if h.refs == 1 && h.inCache {
        LruRemove(e);
        LruAppend(IN_USE, e);
      }
      handles := handles[e := h.(refs := h.refs + 1)];
      clients := clients + multiset{e};
      SameTotals(before, handles, lru, inUse, e);
      RefKeeps(before, oldLru, oldInUse, old(clients), nextId, deleted, e, lru, inUse);
    }

    lemma Facts(e: Id)
      requires Core() && e in handles
      ensures 2 <= e < nextId && handles[e].refs > 0
      ensures handles[e].inCache && handles[e].refs == 1 ==> e in lru && e !in inUse
      ensures handles[e].inCache && handles[e].refs >= 2 ==> e in inUse && e !in lru
      ensures !handles[e].inCache ==> e !in inUse && e !in lru
    {
      hide Ring, Total, NoDup, DeletedOnce;
    }

    /** e was taken out of the table: it leaves its list and loses the reference of the cache. */
    method FinishErase(e: Id)
      requires Core() && e in handles && handles[e].inCache
      modifies this`handles, this`deleted, this`next, this`prev, this`lru, this`inUse, this`usage
      ensures Core() && usage == old(usage) - old(handles)[e].charge
      ensures handles == if old(handles)[e].refs == 1 then old(handles) - {e}
                         else old(handles)[e := old(handles)[e].(inCache := false, refs := old(handles)[e].refs - 1)]
      ensures deleted == old(deleted) + if old(handles)[e].refs == 1 then [e] else []
      ensures lru == Minus(old(lru), e) && inUse == Minus(old(inUse), e)
    {
      hide Ring, Linked, Total, NoDup, Placed, Counted, DeletedOnce, Minus;
      Facts(e);
      var h := handles[e];
      ghost var before, oldLru, oldInUse := handles, lru, inUse;
      LruRemove(e);
      assert Total(before, lru) + Total(before, inUse) + h.charge == usage;
      handles := handles[e := h.(inCache := false)];
      usage := usage - h.charge;
      Unref(e);
      assert handles == if h.refs == 1 then before - {e} else before[e := h.(inCache := false, refs := h.refs - 1)];
      TotalSame(before, handles, lru);
      TotalSame(before, handles, inUse);
      EraseKeeps(before, oldLru, oldInUse, clients, nextId, old(deleted), e, lru, inUse);
    }

    method Lookup(name: Name) returns (r: Option<Id>)
      requires Valid()
      modifies this`handles, this`next, this`prev, this`lru, this`inUse, this`clients
      ensures Valid() && r == if name in table.contents then Some(table.contents[name]) else None
      ensures clients == old(clients) + (if r.Some? then multiset{r.value} else multiset{})
      ensures r.Some? ==> r.value in handles && handles[r.value].name == name && r.value in inUse
    {
      hide Ring, Linked, Total, NoDup, Placed, Counted, DeletedOnce, Named, Core;
      NamedAt(handles, table.contents, name);
      r := table.Lookup(name);
      if r.Some? {
        ghost var before := handles;
        Facts(r.value);
        Ref(r.value);
        RefNamed(before, table.contents, r.value, handles);
        NowInUse(r.value);
      }
    }

    lemma NowInUse(e: Id)
      requires Core() && e in handles && handles[e].inCache && handles[e].refs >= 2
      ensures e in inUse
    {
      hide Ring, Total, NoDup, DeletedOnce, Counted;
    }

    /** A client gives its handle back. */
    method Release(e: Id)
      requires Valid() && e in clients
      modifies this`handles, this`deleted, this`next, this`prev, this`lru, this`inUse, this`clients
      ensures Valid() && clients == old(clients) - multiset{e} && usage == old(usage)
      ensures e in old(handles) && deleted == old(deleted) + if old(handles)[e].refs == 1 then [e] else []
      ensures e in old(handles) && old(handles)[e].inCache && old(handles)[e].refs == 2 ==> lru == old(lru) + [e]
    {
      hide Ring, Linked, Total, NoDup, Placed, Counted, DeletedOnce, Named, ChargeOf;
      Held(handles, clients, nextId, e);
      Facts(e);
      ghost var before, oldLru, oldInUse := handles, lru, inUse;
      Unref(e);
      clients := clients - multiset{e};
      ReleaseTotals(before, handles, lru, inUse, e);
      ReleaseKeeps(before, oldLru, oldInUse, old(clients), nextId, old(deleted), table.contents, e, lru, inUse);
    }

    method Erase(name: Name)
      requires Valid()
      modifies this`handles, this`deleted, this`next, this`prev, this`lru, this`inUse, this`usage, table, table.list
      ensures Valid() && table.contents == old(table.contents) - {name} && table.list == old(table.list) &&
        clients == old(clients)
      ensures deleted == old(deleted) + DeletedBy(old(handles), old(table.contents), name)
      ensures usage == old(usage) - ChargeBy(old(handles), old(table.contents), name)
      ensures lru == LeftBy(old(lru), old(table.contents), name) &&
        inUse == LeftBy(old(inUse), old(table.contents), name)
    {
      hide Ring, Linked, Total, NoDup, Placed, Counted, DeletedOnce, Named, Core, Minus;
      ghost var before := handles;
      NamedAt(handles, table.contents, name);
      var e := table.Remove(name);
      if e.Some? {
        Facts(e.value);
        FinishErase(e.value);
        EraseNamed(before, old(table.contents), name, handles);
      } else {
        assert table.contents == old(table.contents);
      }
    }
    /** The body of the eviction loops: out of the table, off the list, and deleted. */
    method EvictOldest()
      requires Valid() && |lru| > 0
      modifies this`handles, this`deleted, this`next, this`prev, this`lru, this`inUse, this`usage, table, table.list
      ensures Valid() && lru == old(lru)[1..] && inUse == old(inUse) && clients == old(clients) &&
        table.list == old(table.list)
      ensures handles == old(handles) - {old(lru)[0]} && deleted == old(deleted) + [old(lru)[0]]
      ensures usage == old(usage) - ChargeOf(old(handles), old(lru)[0])
    {
      hide Ring, Linked, Total, NoDup, Placed, Counted, DeletedOnce, Named, Core;
      RingStart();
      ghost var before, contents := handles, table.contents;
      var e := next[LRU];
      Oldest();
      MinusFirst(lru);
      MinusNone(inUse, e);
      var erased := table.Remove(handles[e].name);
      FinishErase(e);
      EraseNamed(before, contents, before[e].name, handles);
    }

    /** Makes room: the handles that were released longest ago go first, until the charges fit or none is left. */
    method Evict()
      requires Valid()
      modifies this`handles, this`deleted, this`next, this`prev, this`lru, this`inUse, this`usage, table, table.list
      ensures Valid() && clients == old(clients) && (usage <= capacity || lru == []) && inUse == old(inUse) &&
        table.list == old(table.list)
      ensures OldestGone(old(lru), old(deleted), lru, deleted)
      ensures |lru| < |old(lru)| ==> usage + ChargeOf(old(handles), old(lru)[|old(lru)| - |lru| - 1]) > capacity
      ensures forall x :: x !in old(lru) ==>
        (x in handles <==> x in old(handles)) && (x in handles ==> handles[x] == old(handles)[x])
    {
      hide Ring, Linked, Total, NoDup, Placed, Counted, DeletedOnce, Named, Core, HandleTable.Chains, HandleTable.Holds;
      RingStart();
      NoRepeats();
      ghost var was, k := lru, 0;
      while usage > capacity && next[LRU] != LRU
        invariant Valid() && clients == old(clients) && table.list == old(table.list) && inUse == old(inUse)
        invariant LRU in next && next[LRU] == (if |lru| > 0 then lru[0] else LRU) && (|lru| > 0 ==> lru[0] >= 2)
        invariant 0 <= k <= |was| && lru == was[k..] && deleted == old(deleted) + was[..k]
        invariant k > 0 ==> usage + ChargeOf(old(handles), was[k - 1]) > capacity
        invariant forall x :: x !in was[..k] ==>
          (x in handles <==> x in old(handles)) && (x in handles ==> handles[x] == old(handles)[x])
        decreases |was| - k
      {
        assert was[k] !in was[..k];
        EvictOldest();
        assert was[..k + 1] == was[..k] + [was[k]];
        k := k + 1;
        RingStart();
      }
    }

    lemma NoRepeats()
      requires Core()
      ensures forall i, j :: 0 <= i < j < |lru| ==> lru[i] != lru[j]
    {
      hide Total, Placed, Counted, DeletedOnce, Ring;
    }

    /** Evicts until nothing is left that could be. */
    method Prune()
      requires Valid()
      modifies this`handles, this`deleted, this`next, this`prev, this`lru, this`inUse, this`usage, table, table.list
      ensures Valid() && clients == old(clients) && lru == [] && inUse == old(inUse) &&
        deleted == old(deleted) + old(lru)
    {
      hide Ring, Linked, Total, NoDup, Placed, Counted, DeletedOnce, Named, Core, HandleTable.Chains, HandleTable.Holds;
      RingStart();
      ghost var was, k := lru, 0;
      while next[LRU] != LRU
        invariant Valid() && clients == old(clients) && table.list == old(table.list) && inUse == old(inUse)
        invariant LRU in next && next[LRU] == (if |lru| > 0 then lru[0] else LRU) && (|lru| > 0 ==> lru[0] >= 2)
        invariant 0 <= k <= |was| && lru == was[k..] && deleted == old(deleted) + was[..k]
        decreases |was| - k
      {
        EvictOldest();
        assert was[..k + 1] == was[..k] + [was[k]];
        k := k + 1;
        RingStart();
      }
      assert was[..|was|] == was;
    }

    /** A new handle for the caller.  With capacity for it, it replaces an older one of its name in the cache. */
    method Insert(name: Name, charge: nat) returns (e: Id)
      requires Valid()
      modifies this, table, table.list
      ensures Valid() && (table.list == old(table.list) || fresh(table.list)) && capacity == old(capacity)
      ensures e == old(nextId) && clients == old(clients) + multiset{e} && e in handles && handles[e].name == name &&
        handles[e].charge == charge
      ensures handles[e].inCache <==> capacity > 0
      ensures usage <= capacity || lru == []
      ensures var kept := if old(capacity) > 0 then LeftBy(old(lru), old(table.contents), name) else old(lru);
        var replaced := if old(capacity) > 0 then DeletedBy(old(handles), old(table.contents), name) else [];
        OldestGone(kept, old(deleted) + replaced, lru, deleted)
    {
      hide Valid, ChargeOf, Core, LeftBy, DeletedBy, OldestGone;
      e := InsertHandle(name, charge);
      Evict();
    }

    method InsertHandle(name: Name, charge: nat) returns (e: Id)
      requires Valid()
      modifies this`handles, this`nextId, this`clients, this`next, this`prev, this`lru, this`inUse, this`usage,
        this`deleted, table, table.list
      ensures Valid() && (table.list == old(table.list) || fresh(table.list)) && e == old(nextId) &&
        clients == old(clients) + multiset{e}
      ensures e in handles && handles[e].name == name && handles[e].charge == charge &&
        (handles[e].inCache <==> capacity > 0) && e !in lru
      ensures lru == if capacity > 0 then LeftBy(old(lru), old(table.contents), name) else old(lru)
      ensures deleted == old(deleted) + if capacity > 0 then DeletedBy(old(handles), old(table.contents), name) else []
    {
      hide Valid, Core, LeftBy, DeletedBy;
      if capacity > 0 {
        e := InsertCached(name, charge);
      } else {
        e := InsertLoose(name, charge);
      }
    }

    method InsertLoose(name: Name, charge: nat) returns (e: Id)
      requires Valid()
      modifies this`handles, this`nextId, this`clients
      ensures Valid() && e == old(nextId) && clients == old(clients) + multiset{e}
      ensures e in handles && handles[e] == Handle(name, charge, 1, false) && e !in lru
    {
      hide Ring, Linked, Total, NoDup, Placed, Counted, DeletedOnce, Named, Core, HandleTable.Chains, HandleTable.Holds;
      NewId();
      ghost var before := handles;
      e := nextId;
      AddLoose(name, charge);
      LooseNamed(before, table.contents, handles, e);
      Facts(e);
    }

    method InsertCached(name: Name, charge: nat) returns (e: Id)
      requires Valid()
      modifies this`handles, this`nextId, this`clients, this`next, this`prev, this`lru, this`inUse, this`usage,
        this`deleted, table, table.list
      ensures Valid() && (table.list == old(table.list) || fresh(table.list)) &&
        table.contents == old(table.contents)[name := e]
      ensures e == old(nextId) && clients == old(clients) + multiset{e}
      ensures e in handles && handles[e] == Handle(name, charge, 2, true) && e !in lru
      ensures lru == LeftBy(old(lru), old(table.contents), name)
      ensures deleted == old(deleted) + DeletedBy(old(handles), old(table.contents), name)
    {
      hide Ring, Linked, Total, NoDup, Placed, Counted, DeletedOnce, Named, Core, HandleTable.Chains;
      hide HandleTable.Holds, Minus;
      e := nextId;
      NewId();
      ghost var before, contents := handles, table.contents;
      AddHandle(name, charge);
      InsertNamed(before, contents, handles, e);
      var replaced := table.Insert(name, e);
      if replaced.Some? {
        ghost var both := handles;
        Facts(replaced.value);
        FinishErase(replaced.value);
        ReplaceNamed(before, contents, both, e, replaced.value, handles);
      }
      Facts(e);
    }

    lemma NewId()
      requires Core()
      ensures nextId !in handles && nextId !in lru && nextId !in inUse && nextId >= 2
    {
      hide Ring, Total, NoDup, DeletedOnce;
    }

    /** The handle is in the cache and in the caller's hands. */
    method AddHandle(name: Name, charge: nat)
      requires Core()
      modifies this`handles, this`nextId, this`clients, this`next, this`prev, this`lru, this`inUse, this`usage
      ensures Core() && nextId == old(nextId) + 1 && clients == old(clients) + multiset{old(nextId)} &&
        old(nextId) !in old(handles)
      ensures handles == old(handles)[old(nextId) := Handle(name, charge, 2, true)] && old(nextId) in inUse &&
        lru == old(lru)
    {
      hide Ring, Linked, Total, NoDup, Placed, Counted, DeletedOnce;
      NewId();
      ghost var before, oldLru, oldInUse := handles, lru, inUse;
      var e := nextId;
      handles := handles[e := Handle(name, charge, 2, true)];
      TotalSame(before, handles, lru);
      TotalSame(before, handles, inUse);
      LruAppend(IN_USE, e);
      usage := usage + charge;
      nextId := nextId + 1;
      clients := clients + multiset{e};
      AddKeeps(before, oldLru, oldInUse, old(clients), e, deleted, Handle(name, charge, 2, true));
    }

    /** With no capacity the handle belongs to the caller alone. */
    method AddLoose(name: Name, charge: nat)
      requires Core()
      modifies this`handles, this`nextId, this`clients
      ensures Core() && nextId == old(nextId) + 1 && clients == old(clients) + multiset{old(nextId)} &&
        old(nextId) !in old(handles)
      ensures handles == old(handles)[old(nextId) := Handle(name, charge, 1, false)]
    {
      hide Ring, Linked, Total, NoDup, Placed, Counted, DeletedOnce;
      NewId();
      ghost var before := handles;
      var e := nextId;
      handles := handles[e := Handle(name, charge, 1, false)];
      TotalSame(before, handles, lru);
      TotalSame(before, handles, inUse);
      nextId := nextId + 1;
      clients := clients + multiset{e};
      AddKeeps(before, lru, inUse, old(clients), e, deleted, Handle(name, charge, 1, false));
    }

    lemma RingStart()
      requires Core()
      ensures LRU in next && next[LRU] == (if |lru| > 0 then lru[0] else LRU) && (|lru| > 0 ==> lru[0] >= 2)
    {
      hide Total, NoDup, Placed, Counted, DeletedOnce, Ring;
      LastOf(next, prev, LRU, lru);
      if |lru| > 0 {
        assert lru[0] in lru;
      }
    }

    lemma Oldest()
      requires Valid() && |lru| > 0
      ensures var e := lru[0];
        e in handles && handles[e].inCache && handles[e].refs == 1 && handles[e].name in table.contents &&
        table.contents[handles[e].name] == e
      ensures forall x :: x in lru[1..] ==> x != lru[0]
      ensures lru[0] !in inUse
    {
      hide Total, Counted, DeletedOnce, Ring;
    }
  }

  lemma AddKeeps(handles: map<Id, Handle>, lru: seq<Id>, inUse: seq<Id>, clients: multiset<Id>, e: Id,
                 deleted: seq<Id>, h: Handle)
    requires Placed(handles, lru, inUse) && Counted(handles, clients, e) && DeletedOnce(handles, deleted, e) && e >= 2
    requires if h.inCache then h.refs == 2 else h.refs == 1
    ensures var handles' := handles[e := h];
      Placed(handles', lru, if h.inCache then inUse + [e] else inUse) &&
      Counted(handles', clients + multiset{e}, e + 1) && DeletedOnce(handles', deleted, e + 1)
  {
    hide NoDup;
    assert e !in handles;
  }

  /** A cached handle that the table does not know yet. */
  lemma InsertNamed(handles: map<Id, Handle>, contents: map<Name, Id>, handles': map<Id, Handle>, e: Id)
    requires Named(handles, contents, None) && e !in handles && e in handles' &&
      handles' == handles[e := handles'[e]] && handles'[e].inCache
    ensures Named(handles', contents, Some(e))
    ensures handles'[e].name !in contents ==> Named(handles', contents[handles'[e].name := e], None)
    ensures handles'[e].name in contents ==>
      contents[handles'[e].name] in handles' && contents[handles'[e].name] != e &&
      handles'[contents[handles'[e].name]].inCache
  {
  }

  lemma ReplaceNamed(handles: map<Id, Handle>, contents: map<Name, Id>, both: map<Id, Handle>, e: Id, replaced: Id,
                     handles': map<Id, Handle>)
    requires Named(handles, contents, None) && e !in handles && e in both && both == handles[e := both[e]] &&
      both[e].inCache
    requires both[e].name in contents && contents[both[e].name] == replaced && replaced in both &&
      both[replaced].refs > 0
    requires handles' == if both[replaced].refs == 1 then both - {replaced}
                         else both[replaced := both[replaced].(inCache := false, refs := both[replaced].refs - 1)]
    ensures Named(handles', contents[both[e].name := e], None)
  {
  }

  lemma LooseNamed(handles: map<Id, Handle>, contents: map<Name, Id>, handles': map<Id, Handle>, e: Id)
    requires Named(handles, contents, None) && e !in handles && e in handles' &&
      handles' == handles[e := handles'[e]] && !handles'[e].inCache
    ensures Named(handles', contents, None)
  {
  }

  lemma NamedAt(handles: map<Id, Handle>, contents: map<Name, Id>, name: Name)
    requires Named(handles, contents, None)
    ensures name in contents ==>
      contents[name] in handles && handles[contents[name]].inCache && handles[contents[name]].name == name
  {
  }

  lemma RefNamed(handles: map<Id, Handle>, contents: map<Name, Id>, e: Id, handles': map<Id, Handle>)
    requires Named(handles, contents, None) && e in handles &&
      handles' == handles[e := handles[e].(refs := handles[e].refs + 1)]
    ensures Named(handles', contents, None)
  {
  }

  lemma EraseNamed(handles: map<Id, Handle>, contents: map<Name, Id>, name: Name, handles': map<Id, Handle>)
    requires Named(handles, contents, None) && name in contents && contents[name] in handles &&
      handles[contents[name]].refs > 0
    requires var e := contents[name];
      handles' == if handles[e].refs == 1 then handles - {e}
        else handles[e := handles[e].(inCache := false, refs := handles[e].refs - 1)]
    ensures Named(handles', contents - {name}, None)
  {
  }

  lemma Held(handles: map<Id, Handle>, clients: multiset<Id>, nextId: Id, e: Id)
    requires Counted(handles, clients, nextId) && e in clients
    ensures e in handles && (handles[e].refs == 1 ==> !handles[e].inCache)
  {
  }

  lemma SameTotals(handles: map<Id, Handle>, handles': map<Id, Handle>, lru: seq<Id>, inUse: seq<Id>, e: Id)
    requires e in handles && e in handles' && handles' == handles[e := handles'[e]] &&
      handles'[e].charge == handles[e].charge
    ensures Total(handles', lru) == Total(handles, lru) && Total(handles', inUse) == Total(handles, inUse)
  {
    TotalSame(handles, handles', lru);
    TotalSame(handles, handles', inUse);
  }

  lemma ReleaseTotals(handles: map<Id, Handle>, handles': map<Id, Handle>, lru: seq<Id>, inUse: seq<Id>, e: Id)
    requires e in handles && (handles[e].refs == 1 ==> e !in lru && e !in inUse) && handles[e].refs > 0
    requires handles' == if handles[e].refs == 1 then handles - {e}
      else handles[e := handles[e].(refs := handles[e].refs - 1)]
    ensures Total(handles', lru) == Total(handles, lru) && Total(handles', inUse) == Total(handles, inUse)
  {
    TotalSame(handles, handles', lru);
    TotalSame(handles, handles', inUse);
  }

  lemma RefKeeps(handles: map<Id, Handle>, lru: seq<Id>, inUse: seq<Id>, clients: multiset<Id>, nextId: Id,
                 deleted: seq<Id>, e: Id, lru': seq<Id>, inUse': seq<Id>)
    requires Placed(handles, lru, inUse) && Counted(handles, clients, nextId) &&
      DeletedOnce(handles, deleted, nextId) && e in handles
    requires if handles[e].inCache && handles[e].refs == 1
             then inUse' == inUse + [e] && forall x :: x in lru' <==> x in lru && x != e
             else lru' == lru && inUse' == inUse
    ensures var handles' := handles[e := handles[e].(refs := handles[e].refs + 1)];
      Placed(handles', lru', inUse') && Counted(handles', clients + multiset{e}, nextId) &&
      DeletedOnce(handles', deleted, nextId)
  {
    hide NoDup;
  }

  lemma EraseKeeps(handles: map<Id, Handle>, lru: seq<Id>, inUse: seq<Id>, clients: multiset<Id>, nextId: Id,
                   deleted: seq<Id>, e: Id, lru': seq<Id>, inUse': seq<Id>)
    requires Placed(handles, lru, inUse) && Counted(handles, clients, nextId) && DeletedOnce(handles, deleted, nextId)
    requires e in handles && handles[e].inCache
    requires (forall x :: x in lru' <==> x in lru && x != e) && forall x :: x in inUse' <==> x in inUse && x != e
    ensures var last := handles[e].refs == 1;
      var handles' := if last then handles - {e}
        else handles[e := handles[e].(inCache := false, refs := handles[e].refs - 1)];
      Placed(handles', lru', inUse') && Counted(handles', clients, nextId) &&
      DeletedOnce(handles', deleted + if last then [e] else [], nextId)
  {
    assert deleted + [] == deleted;
  }

  lemma ReleaseKeeps(handles: map<Id, Handle>, lru: seq<Id>, inUse: seq<Id>, clients: multiset<Id>, nextId: Id,
                     deleted: seq<Id>, contents: map<Name, Id>, e: Id, lru': seq<Id>, inUse': seq<Id>)
    requires Placed(handles, lru, inUse) && Counted(handles, clients, nextId) && DeletedOnce(handles, deleted, nextId)
    requires Named(handles, contents, None) && e in clients && e in handles &&
      (handles[e].refs == 1 ==> !handles[e].inCache)
    requires if handles[e].inCache && handles[e].refs == 2
             then lru' == lru + [e] && forall x :: x in inUse' <==> x in inUse && x != e
             else lru' == lru && inUse' == inUse
    ensures var last := handles[e].refs == 1; var handles' := Released(handles, e);
      Placed(handles', lru', inUse') && Counted(handles', clients - multiset{e}, nextId) &&
      DeletedOnce(handles', deleted + (if last then [e] else []), nextId) && Named(handles', contents, None)
  {
    hide Placed, Named, DeletedOnce, NoDup, Released;
    assert deleted + [] == deleted;
    ReleasePlaced(handles, lru, inUse, e, lru', inUse');
    ReleaseCounted(handles, clients, nextId, e);
    ReleaseNamed(handles, contents, e);
    ReleaseDeleted(handles, deleted, nextId, e);
  }

  function Released(handles: map<Id, Handle>, e: Id): map<Id, Handle>
    requires e in handles && handles[e].refs > 0
  {
    if handles[e].refs == 1 then handles - {e} else handles[e := handles[e].(refs := handles[e].refs - 1)]
  }

  lemma ReleasePlaced(handles: map<Id, Handle>, lru: seq<Id>, inUse: seq<Id>, e: Id, lru': seq<Id>, inUse': seq<Id>)
    requires Placed(handles, lru, inUse) && e in handles && handles[e].refs > 0 &&
      (handles[e].refs == 1 ==> !handles[e].inCache)
    requires if handles[e].inCache && handles[e].refs == 2
             then lru' == lru + [e] && forall x :: x in inUse' <==> x in inUse && x != e
             else lru' == lru && inUse' == inUse
    ensures Placed(Released(handles, e), lru', inUse')
  {
  }

  lemma ReleaseCounted(handles: map<Id, Handle>, clients: multiset<Id>, nextId: Id, e: Id)
    requires Counted(handles, clients, nextId) && e in clients && e in handles &&
      (handles[e].refs == 1 ==> !handles[e].inCache)
    ensures 2 <= e < nextId && handles[e].refs > 0 && Counted(Released(handles, e), clients - multiset{e}, nextId)
  {
  }

  lemma ReleaseNamed(handles: map<Id, Handle>, contents: map<Name, Id>, e: Id)
    requires Named(handles, contents, None) && e in handles && handles[e].refs > 0 &&
      (handles[e].refs == 1 ==> !handles[e].inCache)
    ensures Named(Released(handles, e), contents, None)
  {
  }

  lemma ReleaseDeleted(handles: map<Id, Handle>, deleted: seq<Id>, nextId: Id, e: Id)
    requires DeletedOnce(handles, deleted, nextId) && e in handles && 2 <= e < nextId && handles[e].refs > 0
    ensures DeletedOnce(Released(handles, e), deleted + (if handles[e].refs == 1 then [e] else []), nextId)
  {
    assert deleted + [] == deleted;
  }

  /** The neighbours of a member are members of the same circle. */
  lemma Neighbours(next: map<Id, Id>, prev: map<Id, Id>, head: Id, s: seq<Id>, i: nat)
    requires Ring(next, prev, head, s) && i < |s|
    ensures s[i] in next && (next[s[i]] == head || next[s[i]] in s) && s[i] in prev &&
      (prev[s[i]] == head || prev[s[i]] in s)
  {
    assert Linked(next, prev, head, s, i) && Linked(next, prev, head, s, i + 1);
  }

  lemma LastOf(next: map<Id, Id>, prev: map<Id, Id>, head: Id, s: seq<Id>)
    requires Ring(next, prev, head, s)
    ensures head in prev && (prev[head] == head || prev[head] in s) && head in next &&
      next[head] == if |s| > 0 then s[0] else head
  {
    assert Linked(next, prev, head, s, |s|) && Linked(next, prev, head, s, 0);
  }
}
