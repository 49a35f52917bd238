/** The list of live snapshots, db/snapshot.h: a circular list in order of age, whose first member bounds what a
    compaction may drop. */
module SnapshotList {
  import opened Rings

  const HEAD: Id := 0

  class SnapshotList {
    var next: map<Id, Id>
    var prev: map<Id, Id>
    var sequenceNumber: map<Id, nat>
    /** The snapshots from the oldest to the newest, and all addresses used so far. */
    ghost var live: seq<Id>
    ghost var used: set<Id>

    ghost predicate Valid()
      reads this
    {
      Ring(next, prev, HEAD, live) && NoDup(live) && HEAD in used &&
      (forall i :: 0 <= i < |live| ==> live[i] != HEAD && live[i] in used && live[i] in sequenceNumber) &&
      forall i, j :: 0 <= i < j < |live| ==> sequenceNumber[live[i]] <= sequenceNumber[live[j]]
    }

    constructor ()
      ensures Valid() && live == [] && used == {HEAD}
    {
      next, prev, sequenceNumber := map[HEAD := HEAD], map[HEAD := HEAD], map[];
      live, used := [], {HEAD};
    }

    method Empty() returns (r: bool)
      requires Valid()
      ensures r <==> live == []
    {
      assert Linked(next, prev, HEAD, live, 0);
      r := next[HEAD] == HEAD;
    }

    /** The oldest snapshot has the smallest sequence number. */
    method Oldest() returns (s: Id)
      requires Valid() && live != []
      ensures s == live[0] && s in sequenceNumber && forall x :: x in live ==> sequenceNumber[s] <= sequenceNumber[x]
    {
      assert Linked(next, prev, HEAD, live, 0);
      s := next[HEAD];
      forall x | x in live ensures sequenceNumber[s] <= sequenceNumber[x] {
        var i :| 0 <= i < |live| && live[i] == x;
      }
    }

    method Newest() returns (s: Id)
      requires Valid() && live != []
      ensures s == live[|live| - 1] && s in sequenceNumber &&
        forall x :: x in live ==> sequenceNumber[x] <= sequenceNumber[s]
    {
      assert Linked(next, prev, HEAD, live, |live|);
      s := prev[HEAD];
      forall x | x in live ensures sequenceNumber[x] <= sequenceNumber[s] {
        var i :| 0 <= i < |live| && live[i] == x;
      }
    }

    /** A snapshot of that sequence number, at an address not used before, becomes the newest. */
    method New(sequence: nat, snapshot: Id)
      requires Valid() && snapshot !in used
      requires live != [] ==> sequenceNumber[live[|live| - 1]] <= sequence
      modifies this
      ensures Valid() && live == old(live) + [snapshot] && used == old(used) + {snapshot}
      ensures sequenceNumber == old(sequenceNumber)[snapshot := sequence]
    {
      hide Ring, NoDup;
      NewIsApart(snapshot);
      AppendKeepsRing(next, prev, HEAD, live, snapshot);
      next := next[snapshot := HEAD];
      prev := prev[snapshot := prev[HEAD]];
      next := next[prev[snapshot] := snapshot];
      prev := prev[next[snapshot] := snapshot];
      sequenceNumber := sequenceNumber[snapshot := sequence];
      live, used := live + [snapshot], used + {snapshot};
    }

    lemma NewIsApart(snapshot: Id)
      requires Valid() && snapshot !in used
      ensures HEAD in prev && prev[HEAD] != snapshot && snapshot !in live && HEAD !in live && NoDup(live + [snapshot])
    {
      assert Linked(next, prev, HEAD, live, |live|);
    }

    /** The others stay, in their order. */
    method Delete(snapshot: Id, ghost i: nat)
      requires Valid() && i < |live| && live[i] == snapshot
      modifies this
      ensures Valid() && live == old(live)[..i] + old(live)[i + 1..] && used == old(used) &&
        sequenceNumber == old(sequenceNumber)
    {
      RemoveKeepsRing(next, prev, HEAD, live, i);
      assert Linked(next, prev, HEAD, live, i) && Linked(next, prev, HEAD, live, i + 1);
      next := next[prev[snapshot] := next[snapshot]];
      prev := prev[next[snapshot] := prev[snapshot]];
      live := Without(live, i);
    }
  }
}
