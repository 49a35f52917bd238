/** Circular doubly linked lists that start at a dummy head, as the cache and the snapshot list keep them.
    Nodes live at addresses; next and prev are the pointers in them. */
module Rings {

  type Id = nat

  /** The nodes of the circle: the head, then the members, then the head again. */
  function Node(head: Id, s: seq<Id>, i: nat): Id
    requires i <= |s| + 1
  {
    if 0 < i <= |s| then s[i - 1] else head
  }

  predicate Linked(next: map<Id, Id>, prev: map<Id, Id>, head: Id, s: seq<Id>, i: nat)
    requires i <= |s|
  {
    Node(head, s, i) in next && next[Node(head, s, i)] == Node(head, s, i + 1) &&
    Node(head, s, i + 1) in prev && prev[Node(head, s, i + 1)] == Node(head, s, i)
  }

  /** next and prev link the head and the members into a circle, in this order. */
  ghost predicate Ring(next: map<Id, Id>, prev: map<Id, Id>, head: Id, s: seq<Id>) {
    forall i :: 0 <= i <= |s| ==> Linked(next, prev, head, s, i)
  }

  ghost predicate NoDup(s: seq<Id>) {
    forall i, j :: 0 <= i < j < |s| ==> s[i] != s[j]
  }

  function Without(s: seq<Id>, i: nat): seq<Id>
    requires i < |s|
  {
    s[..i] + s[i + 1..]
  }

  /** LRU_Remove takes a member out of its circle. */
  lemma RemoveKeepsRing(next: map<Id, Id>, prev: map<Id, Id>, head: Id, s: seq<Id>, i: nat)
    requires Ring(next, prev, head, s) && NoDup(s) && head !in s && i < |s|
    ensures s[i] in next && s[i] in prev
    ensures Ring(next[prev[s[i]] := next[s[i]]], prev[next[s[i]] := prev[s[i]]], head, Without(s, i))
  {
    var e := s[i];
    var before, after := Node(head, s, i), Node(head, s, i + 2);
    assert Linked(next, prev, head, s, i) && Linked(next, prev, head, s, i + 1);
    var next', prev', s' := next[before := after], prev[after := before], Without(s, i);
    forall k | 0 <= k <= |s'| ensures Linked(next', prev', head, s', k) {
      var at := if k <= i then k else k + 1;
      assert Node(head, s', k) == Node(head, s, at);
      assert Node(head, s', k + 1) == if k < i then Node(head, s, k + 1) else Node(head, s, k + 2);
      assert Linked(next, prev, head, s, k);
      assert Linked(next, prev, head, s, k + 1);
    }
  }

  /** A circle that shares no node with another does not notice changes to the other. */
  lemma OtherRing(next: map<Id, Id>, prev: map<Id, Id>, head: Id, s: seq<Id>, next': map<Id, Id>, prev': map<Id, Id>)
    requires Ring(next, prev, head, s)
    requires forall x :: x == head || x in s ==>
      (x in next ==> x in next' && next'[x] == next[x]) && (x in prev ==> x in prev' && prev'[x] == prev[x])
    ensures Ring(next', prev', head, s)
  {
    forall i | 0 <= i <= |s| ensures Linked(next', prev', head, s, i) {
      assert Linked(next, prev, head, s, i);
    }
  }

  /** LRU_Append puts a new node in front of the head, that is, at the newest end. */
  lemma AppendKeepsRing(next: map<Id, Id>, prev: map<Id, Id>, head: Id, s: seq<Id>, e: Id)
    requires Ring(next, prev, head, s) && NoDup(s) && head !in s && e !in s && e != head
    ensures head in prev
    ensures Ring(next[e := head][prev[head] := e], prev[e := prev[head]][head := e], head, s + [e])
  {
    var last := Node(head, s, |s|);
    assert Linked(next, prev, head, s, |s|);
    var next', prev', s' := next[e := head][last := e], prev[e := last][head := e], s + [e];
    forall k | 0 <= k <= |s'| ensures Linked(next', prev', head, s', k) {
      if k < |s| {
        assert Linked(next, prev, head, s, k);
        assert Node(head, s', k) == Node(head, s, k) && Node(head, s', k + 1) == Node(head, s, k + 1);
      }
    }
  }

  /** The list without one of its members. */
  function Minus(s: seq<Id>, e: Id): seq<Id> {
    if |s| == 0 then [] else (if s[0] == e then [] else [s[0]]) + Minus(s[1..], e)
  }

  lemma {:induction false} MinusNone(s: seq<Id>, e: Id)
    requires e !in s
    ensures Minus(s, e) == s
  {
    if |s| > 0 {
      MinusNone(s[1..], e);
      assert s == [s[0]] + s[1..];
    }
  }

  lemma {:induction false} MinusMember(s: seq<Id>, i: nat)
    requires i < |s| && NoDup(s)
    ensures Minus(s, s[i]) == Without(s, i)
  {
    if i > 0 {
      MinusMember(s[1..], i - 1);
      assert Without(s, i) == [s[0]] + Without(s[1..], i - 1);
    } else {
      MinusNone(s[1..], s[0]);
    }
  }

  lemma MinusFirst(s: seq<Id>)
    requires |s| > 0 && s[0] !in s[1..]
    ensures Minus(s, s[0]) == s[1..]
  {
    MinusNone(s[1..], s[0]);
  }
}
