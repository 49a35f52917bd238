/** The skip list of db/skiplist.h: one writer at a time, any number of readers that take no lock.  A node is
  known by its key; every pointer load and every pointer store is a step of its own. */
module SkipList {

  type Key = int

  const MAX_HEIGHT: nat := 12

  datatype Node = Head | At(key: Key) | Null

  /** The next pointers of one level. */
  type Links = map<Node, Node>

  // ---- one level --------------------------------------------------------------------------

  ghost predicate Sorted(s: seq<Key>) {
    forall i, j :: 0 <= i < j < |s| ==> s[i] < s[j]
  }

  /** The head, the keys, and nothing. */
  function NodeAt(s: seq<Key>, i: nat): Node
    requires i <= |s| + 1
  {
    if i == 0 then Head else if i <= |s| then At(s[i - 1]) else Null
  }

  predicate Linked(links: Links, s: seq<Key>, i: nat)
    requires i <= |s|
  {
    NodeAt(s, i) in links && links[NodeAt(s, i)] == NodeAt(s, i + 1)
  }

  /** The pointers lead from the head through exactly these keys. */
  ghost predicate Chain(links: Links, s: seq<Key>) {
    forall i :: 0 <= i <= |s| ==> Linked(links, s, i)
  }

  /** KeyIsAfterNode: a missing node counts as infinite. */
  predicate Before(n: Node, key: Key) {
    n.At? && n.key < key
  }

  /** How many keys of the list lie before the key. */
  ghost function Rank(s: seq<Key>, key: Key): (r: nat)
    ensures r <= |s|
  {
    if |s| == 0 || s[0] >= key then 0 else 1 + Rank(s[1..], key)
  }

  /** In a sorted list the rank splits it. */
  lemma {:induction false} RankSplits(s: seq<Key>, key: Key)
    requires Sorted(s)
    ensures forall i :: 0 <= i < |s| ==> (s[i] < key <==> i < Rank(s, key))
  {
    if |s| > 0 && s[0] < key {
      RankSplits(s[1..], key);
      assert forall i :: 1 <= i < |s| ==> s[i] == s[1..][i - 1];
    }
  }

  /** The node in front of the key, and the node at or behind it. */
  ghost function Predecessor(s: seq<Key>, key: Key): Node {
    NodeAt(s, Rank(s, key))
  }

  ghost function Successor(s: seq<Key>, key: Key): Node {
    NodeAt(s, Rank(s, key) + 1)
  }

  ghost function WithKey(s: seq<Key>, key: Key): seq<Key> {
    s[..Rank(s, key)] + [key] + s[Rank(s, key)..]
  }

  lemma WithKeyIsSorted(s: seq<Key>, key: Key)
    requires Sorted(s) && key !in s
    ensures Sorted(WithKey(s, key)) && forall x :: x in WithKey(s, key) <==> x in s || x == key
  {
    RankSplits(s, key);
    var r := Rank(s, key);
    assert s == s[..r] + s[r..];
    assert forall x :: x in s <==> x in s[..r] || x in s[r..];
    assert r < |s| ==> s[r] != key;
  }

  /** Publishing a node behind its predecessor puts its key into the chain. */
  lemma PublishKeepsChain(links: Links, s: seq<Key>, key: Key)
    requires Chain(links, s) && Sorted(s) && key !in s
    requires At(key) in links && links[At(key)] == Successor(s, key)
    ensures Chain(links[Predecessor(s, key) := At(key)], WithKey(s, key))
  {
    RankSplits(s, key);
    var r, s' := Rank(s, key), WithKey(s, key);
    var p := NodeAt(s, r);
    var links' := links[p := At(key)];
    forall i | 0 <= i <= |s'| ensures Linked(links', s', i) {
      if i <= r {
        assert NodeAt(s', i) == NodeAt(s, i);
        assert Linked(links, s, i);
      } else if i > r + 1 {
        assert NodeAt(s', i) == NodeAt(s, i - 1);
        assert Linked(links, s, i - 1);
      }
    }
  }

  /** The pointers of a node that is not linked yet lead nobody astray. */
  lemma PrivateStore(links: Links, s: seq<Key>, key: Key, to: Node)
    requires Chain(links, s) && key !in s
    ensures Chain(links[At(key) := to], s)
  {
    var links' := links[At(key) := to];
    forall i | 0 <= i <= |s| ensures Linked(links', s, i) {
      assert Linked(links, s, i);
    }
  }

  /** What a load from a linked node finds. */
  lemma LoadFinds(links: Links, s: seq<Key>, x: Node) returns (i: nat)
    requires Chain(links, s) && (x.Head? || (x.At? && x.key in s))
    ensures i <= |s| && x == NodeAt(s, i) && x in links && links[x] == NodeAt(s, i + 1)
  {
    if x.Head? {
      i := 0;
    } else {
      var j :| 0 <= j < |s| && s[j] == x.key;
      i := j + 1;
    }
    assert Linked(links, s, i);
  }

  /** From a node before the key, either the next one is still before it, or the search ends here. */
  lemma StepOrFound(links: Links, s: seq<Key>, x: Node, key: Key)
    requires Chain(links, s) && Sorted(s) && (x.Head? || (x.At? && x.key in s && x.key < key))
    ensures x in links
    ensures Before(links[x], key) ==> links[x].key in s && Rank(s, links[x].key) < Rank(s, key)
    ensures !Before(links[x], key) ==> x == Predecessor(s, key) && links[x] == Successor(s, key)
    ensures x.At? && Before(links[x], key) ==> Rank(s, x.key) < Rank(s, links[x].key)
  {
    var i := LoadFinds(links, s, x);
    RankSplits(s, key);
    if Before(links[x], key) {
      RankSplits(s, s[i]);
    }
    if x.At? {
      RankSplits(s, x.key);
    }
  }

  // ---- all levels --------------------------------------------------------------------------

  /** Every level is a chain, sorted, and holds no key the level below does not hold. */
  ghost predicate Levels(next: seq<Links>, levels: seq<seq<Key>>) {
    |next| == MAX_HEIGHT && |levels| == MAX_HEIGHT &&
    (forall l :: 0 <= l < MAX_HEIGHT ==> Chain(next[l], levels[l]) && Sorted(levels[l])) &&
    forall l :: 0 < l < MAX_HEIGHT ==> Nested(levels, l)
  }

  /** A level above the lowest skips keys, and has none of its own. */
  ghost predicate Nested(levels: seq<seq<Key>>, l: nat)
    requires 0 < l < |levels|
  {
    forall k :: k in levels[l] ==> k in levels[l - 1]
  }

  ghost predicate Empty(levels: seq<seq<Key>>, from: nat) {
    forall l :: from <= l < |levels| ==> levels[l] == []
  }

  class SkipList {
    var next: seq<Links>
    var maxHeight: nat
    ghost var levels: seq<seq<Key>>

    ghost predicate Valid()
      reads this
    {
      Levels(next, levels) && 1 <= maxHeight <= MAX_HEIGHT && Empty(levels, maxHeight)
    }

    constructor ()
      ensures Valid() && levels[0] == []
    {
      next := seq(MAX_HEIGHT, i => map[Head := Null]);
      maxHeight := 1;
      levels := seq(MAX_HEIGHT, i => []);
    }

    /** The first node at or behind the key, and on every level in use the node in front of it. */
    method FindGreaterOrEqual(key: Key) returns (r: Node, prev: seq<Node>)
      requires Valid()
      ensures r == Successor(levels[0], key) && |prev| == MAX_HEIGHT
      ensures forall l :: 0 <= l < maxHeight ==> prev[l] == Predecessor(levels[l], key)
    {
      hide Chain, Sorted, Rank, Predecessor, Successor;
      var x, level := Head, maxHeight - 1;
      prev := seq(MAX_HEIGHT, i => Head);
      while true
        invariant 0 <= level < maxHeight && |prev| == MAX_HEIGHT
        invariant x.Head? || (x.At? && x.key in levels[level] && x.key < key)
        invariant forall l :: level < l < maxHeight ==> prev[l] == Predecessor(levels[l], key)
        decreases level, Rank(levels[level], key) - (if x.At? then Rank(levels[level], x.key) else -1)
      {
        StepOrFound(next[level], levels[level], x, key);
        var n := next[level][x];
        if Before(n, key) {
          x := n;
        } else {
          prev := prev[level := x];
          if level == 0 {
            return n, prev;
          }
          assert Nested(levels, level);
          level := level - 1;
        }
      }
    }

    /** The last node in front of the key. */
    method FindLessThan(key: Key) returns (x: Node)
      requires Valid()
      ensures x == Predecessor(levels[0], key)
    {
      hide Chain, Sorted, Rank, Predecessor, Successor;
      x := Head;
      var level := maxHeight - 1;
      while true
        invariant 0 <= level < maxHeight
        invariant x.Head? || (x.At? && x.key in levels[level] && x.key < key)
        decreases level, Rank(levels[level], key) - (if x.At? then Rank(levels[level], x.key) else -1)
      {
        StepOrFound(next[level], levels[level], x, key);
        var n := next[level][x];
        if n.Null? || n.Head? || n.key >= key {
          if level == 0 {
            return;
          }
          assert Nested(levels, level);
          level := level - 1;
        } else {
          x := n;
        }
      }
    }

    /** The last node. */
    method FindLast() returns (x: Node)
      requires Valid()
      ensures x == NodeAt(levels[0], |levels[0]|)
    {
      hide Sorted;
      x := Head;
      var level := maxHeight - 1;
      ghost var i := 0;
      while true
        invariant 0 <= level < maxHeight && 0 <= i <= |levels[level]| && x == NodeAt(levels[level], i)
        decreases level, |levels[level]| - i
      {
        assert Chain(next[level], levels[level]);
        assert Linked(next[level], levels[level], i);
        var n := next[level][x];
        if n.Null? {
          if level == 0 {
            return;
          }
          i := Below(next, levels, level, x);
          level := level - 1;
        } else {
          x := n;
          i := i + 1;
        }
      }
    }

    /** Links the new node level by level, from the bottom up. */
    method Insert(key: Key, height: nat)
      requires Valid() && 1 <= height <= MAX_HEIGHT && key !in levels[0]
      modifies this
      ensures Valid() &&
        forall l :: 0 <= l < MAX_HEIGHT ==>
          levels[l] == if l < height then WithKey(old(levels)[l], key) else old(levels)[l]
      ensures maxHeight == if height > old(maxHeight) then height else old(maxHeight)
    {
      hide Chain, Sorted, Rank, Predecessor, Successor, WithKey;
      var r, prev := FindGreaterOrEqual(key);
      NotAbove(next, levels, key);
      if height > maxHeight {
        for i := maxHeight to height
          invariant |prev| == MAX_HEIGHT && unchanged(this)
          invariant forall l :: 0 <= l < i ==> prev[l] == Predecessor(levels[l], key)
        {
          NothingBefore(levels[i], key);
          prev := prev[i := Head];
        }
        maxHeight := height;
      }
      for i := 0 to height
        invariant Valid() && |prev| == MAX_HEIGHT &&
          maxHeight == (if height > old(maxHeight) then height else old(maxHeight))
        invariant forall l :: 0 <= l < MAX_HEIGHT ==>
          levels[l] == if l < i then WithKey(old(levels)[l], key) else old(levels)[l]
        invariant forall l :: i <= l < height ==> prev[l] == Predecessor(levels[l], key)
      {
        if i > 0 {
          HasKey(old(levels)[i - 1], key);
        }
        LinkLevel(i, key, prev[i]);
      }
    }

    /** The two stores of one level. */
    method LinkLevel(i: nat, key: Key, prev: Node)
      requires Valid() && i < maxHeight && key !in levels[i] && (i > 0 ==> key in levels[i - 1]) &&
        prev == Predecessor(levels[i], key)
      modifies this`next, this`levels
      ensures Valid() && levels == old(levels)[i := WithKey(old(levels)[i], key)]
    {
      hide Chain, Sorted, Rank, Predecessor, Successor, WithKey, Nested;
      PrevIsLinked(next[i], levels[i], key);
      var to := next[i][prev];
      PrivateLevels(next, levels, i, key, to);
      next := next[i := next[i][At(key) := to]];
      PublishLevels(next, levels, i, key);
      next := next[i := next[i][prev := At(key)]];
      levels := levels[i := WithKey(levels[i], key)];
    }
  }

  lemma Below(next: seq<Links>, levels: seq<seq<Key>>, level: nat, x: Node) returns (i: nat)
    requires Levels(next, levels) && 0 < level < MAX_HEIGHT && (x.Head? || (x.At? && x.key in levels[level]))
    ensures i <= |levels[level - 1]| && x == NodeAt(levels[level - 1], i)
  {
    if x.Head? {
      i := 0;
    } else {
      assert Nested(levels, level);
      var j :| 0 <= j < |levels[level - 1]| && levels[level - 1][j] == x.key;
      i := j + 1;
    }
  }

  lemma {:induction false} NotAboveLevel(next: seq<Links>, levels: seq<seq<Key>>, key: Key, l: nat)
    requires Levels(next, levels) && key !in levels[0] && l < MAX_HEIGHT
    ensures key !in levels[l]
  {
    hide Chain, Sorted;
    if l > 0 {
      assert Nested(levels, l);
      NotAboveLevel(next, levels, key, l - 1);
    }
  }

  lemma NotAbove(next: seq<Links>, levels: seq<seq<Key>>, key: Key)
    requires Levels(next, levels) && key !in levels[0]
    ensures forall l :: 0 <= l < MAX_HEIGHT ==> key !in levels[l]
  {
    hide Chain, Sorted;
    forall l | 0 <= l < MAX_HEIGHT ensures key !in levels[l] {
      NotAboveLevel(next, levels, key, l);
    }
  }

  lemma HasKey(s: seq<Key>, key: Key)
    ensures key in WithKey(s, key)
  {
    assert WithKey(s, key)[Rank(s, key)] == key;
  }

  lemma NothingBefore(s: seq<Key>, key: Key)
    requires s == []
    ensures Predecessor(s, key) == Head
  {
  }

  lemma PrevIsLinked(links: Links, s: seq<Key>, key: Key)
    requires Chain(links, s) && Sorted(s)
    ensures Predecessor(s, key) in links && links[Predecessor(s, key)] == Successor(s, key)
  {
    assert Linked(links, s, Rank(s, key));
  }

  /** The first store of a level goes into the new node, which is not linked there yet. */
  lemma PrivateLevels(next: seq<Links>, levels: seq<seq<Key>>, i: nat, key: Key, to: Node)
    requires Levels(next, levels) && i < MAX_HEIGHT && key !in levels[i]
    ensures Levels(next[i := next[i][At(key) := to]], levels)
  {
    hide Chain, Sorted;
    PrivateStore(next[i], levels[i], key, to);
  }

  /** The second one publishes it.  The key is in the level below by then. */
  lemma PublishLevels(next: seq<Links>, levels: seq<seq<Key>>, i: nat, key: Key)
    requires Levels(next, levels) && i < MAX_HEIGHT && key !in levels[i] && (i > 0 ==> key in levels[i - 1])
    requires At(key) in next[i] && next[i][At(key)] == Successor(levels[i], key)
    ensures Levels(next[i := next[i][Predecessor(levels[i], key) := At(key)]], levels[i := WithKey(levels[i], key)])
  {
    hide Chain, Sorted, Rank, Predecessor, Successor, WithKey;
    PublishKeepsChain(next[i], levels[i], key);
    WithKeyIsSorted(levels[i], key);
    var levels' := levels[i := WithKey(levels[i], key)];
    forall l | 0 < l < MAX_HEIGHT ensures Nested(levels', l) {
      assert Nested(levels, l);
    }
  }

  // ---- readers beside the writer -------------------------------------------------------------

  /** Where the writer is in Insert: after its search, at level i, before or after the private store. */
  datatype Writer = Idle | Inserting(key: Key, height: nat, prev: seq<Node>, i: nat, stored: bool)

  /** Where a reader is in FindGreaterOrEqual. */
  datatype Reader = Reading(target: Key, x: Node, level: nat) | Found(target: Key, result: Node)

  /** levels is history: the keys published on each level. */
  datatype State = State(next: seq<Links>, maxHeight: nat, writer: Writer, readers: map<nat, Reader>,
                         levels: seq<seq<Key>>)

  datatype Step =
    | Begin(key: Key, height: nat, prev: seq<Node>)
    | RaiseHeight
    | StorePrivate
    | Publish
    | Start(r: nat, target: Key, height: nat)
    | Load(r: nat)

  /** The search of the writer, which nobody disturbs. */
  ghost predicate Searched(s: State, key: Key, height: nat, prev: seq<Node>) {
    |s.levels| == MAX_HEIGHT && 1 <= height <= MAX_HEIGHT && |prev| == MAX_HEIGHT && key !in s.levels[0] &&
    forall l :: 0 <= l < height ==> prev[l] == Predecessor(s.levels[l], key)
  }

  ghost predicate Enabled(s: State, step: Step) {
    match step
    case Begin(key, height, prev) => s.writer.Idle? && Searched(s, key, height, prev)
    case RaiseHeight => s.writer.Inserting? && s.maxHeight < s.writer.height
    case StorePrivate =>
      s.writer.Inserting? && s.maxHeight >= s.writer.height && !s.writer.stored && s.writer.i < |s.next| &&
      s.writer.i < |s.writer.prev| && s.writer.prev[s.writer.i] in s.next[s.writer.i]
    case Publish =>
      s.writer.Inserting? && s.writer.stored && s.writer.i < |s.next| && s.writer.i < |s.writer.prev| &&
      s.writer.i < |s.levels|
    case Start(r, target, height) => r !in s.readers && 1 <= height <= s.maxHeight
    case Load(r) =>
      r in s.readers && s.readers[r].Reading? && s.readers[r].level < |s.next| &&
      s.readers[r].x in s.next[s.readers[r].level]
  }

  /** A reader may see a stale height, so Start takes any height up to the current one. */
  ghost function After(s: State, step: Step): State
    requires Enabled(s, step)
  {
    match step
    case Begin(key, height, prev) => s.(writer := Inserting(key, height, prev, 0, false))
    case RaiseHeight => s.(maxHeight := s.writer.height)
    case StorePrivate =>
      var w := s.writer;
      s.(next := s.next[w.i := s.next[w.i][At(w.key) := s.next[w.i][w.prev[w.i]]]], writer := w.(stored := true))
    case Publish =>
      var w := s.writer;
      s.(next := s.next[w.i := s.next[w.i][w.prev[w.i] := At(w.key)]],
         levels := s.levels[w.i := WithKey(s.levels[w.i], w.key)],
         writer := if w.i + 1 == w.height then Idle else w.(i := w.i + 1, stored := false))
    case Start(r, target, height) => s.(readers := s.readers[r := Reading(target, Head, height - 1)])
    case Load(r) =>
      var reader := s.readers[r];
      var n := s.next[reader.level][reader.x];
      s.(readers := s.readers[r :=
        if Before(n, reader.target) then reader.(x := n)
        else if reader.level == 0 then Found(reader.target, n)
        else reader.(level := reader.level - 1)])
  }

  ghost predicate Shape(s: State) {
    Levels(s.next, s.levels) && 1 <= s.maxHeight <= MAX_HEIGHT && Empty(s.levels, s.maxHeight)
  }

  /** The new key is on the levels below i and on no other, and its predecessors above are still the ones that were
    found. */
  ghost predicate WriterAt(s: State, key: Key, height: nat, prev: seq<Node>, i: nat, stored: bool)
    requires |s.levels| == MAX_HEIGHT && |s.next| == MAX_HEIGHT
  {
    i < height <= MAX_HEIGHT && |prev| == MAX_HEIGHT &&
    (forall l :: i <= l < MAX_HEIGHT ==> key !in s.levels[l]) && (forall l :: 0 <= l < i ==> key in s.levels[l]) &&
    (forall l :: i <= l < height ==> prev[l] == Predecessor(s.levels[l], key)) &&
    (stored ==> s.maxHeight >= height && At(key) in s.next[i] && s.next[i][At(key)] == Successor(s.levels[i], key))
  }

  ghost predicate WriterInv(s: State)
    requires |s.levels| == MAX_HEIGHT && |s.next| == MAX_HEIGHT
  {
    s.writer.Inserting? ==> WriterAt(s, s.writer.key, s.writer.height, s.writer.prev, s.writer.i, s.writer.stored)
  }

  /** A reader stands on a node of its level, before its target. */
  ghost predicate Stands(s: State, reader: Reader) {
    reader.Reading? ==>
      reader.level < |s.levels| &&
      (reader.x.Head? || (reader.x.At? && reader.x.key in s.levels[reader.level] && reader.x.key < reader.target))
  }

  ghost predicate ReadersInv(s: State) {
    forall r :: r in s.readers ==> Stands(s, s.readers[r])
  }

  ghost predicate Inv(s: State) {
    Shape(s) && WriterInv(s) && ReadersInv(s)
  }

  lemma BeginKeepsInv(s: State, key: Key, height: nat, prev: seq<Node>)
    requires Inv(s) && Enabled(s, Begin(key, height, prev))
    ensures Inv(After(s, Begin(key, height, prev)))
  {
    hide Chain, Sorted, Rank, Predecessor, Successor, Levels;
    NotAbove(s.next, s.levels, key);
  }

  lemma RaiseKeepsInv(s: State)
    requires Inv(s) && Enabled(s, RaiseHeight)
    ensures Inv(After(s, RaiseHeight))
  {
    hide Chain, Sorted, Rank, Predecessor, Successor, Levels;
  }

  lemma StoreKeepsInv(s: State)
    requires Inv(s) && Enabled(s, StorePrivate)
    ensures Inv(After(s, StorePrivate))
  {
    hide Chain, Sorted, Rank, Predecessor, Successor, Nested;
    var w := s.writer;
    PrevIsLinked(s.next[w.i], s.levels[w.i], w.key);
    PrivateLevels(s.next, s.levels, w.i, w.key, s.next[w.i][w.prev[w.i]]);
  }

  lemma PublishKeepsInv(s: State)
    requires Inv(s) && Enabled(s, Publish)
    ensures Inv(After(s, Publish))
  {
    hide Chain, Sorted, Rank, Predecessor, Successor, Nested, WithKey;
    var w, s' := s.writer, After(s, Publish);
    PublishLevels(s.next, s.levels, w.i, w.key);
    HasKey(s.levels[w.i], w.key);
    assert Sorted(s.levels[w.i]);
    WithKeyIsSorted(s.levels[w.i], w.key);
    assert Levels(s'.next, s'.levels);
    forall r | r in s'.readers ensures Stands(s', s'.readers[r]) {
      assert Stands(s, s.readers[r]);
    }
  }

  lemma StartKeepsInv(s: State, r: nat, target: Key, height: nat)
    requires Inv(s) && Enabled(s, Start(r, target, height))
    ensures Inv(After(s, Start(r, target, height)))
  {
    hide Chain, Sorted, Rank, Predecessor, Successor, Nested;
  }

  lemma LoadKeepsInv(s: State, r: nat)
    requires Inv(s) && Enabled(s, Load(r))
    ensures Inv(After(s, Load(r)))
  {
    hide Chain, Sorted, Rank, Predecessor, Successor;
    var reader := s.readers[r];
    assert Stands(s, reader);
    StepOrFound(s.next[reader.level], s.levels[reader.level], reader.x, reader.target);
    if reader.level > 0 {
      assert Nested(s.levels, reader.level);
    }
  }

  /** After every single store and load the list is sound. */
  lemma StepKeepsInv(s: State, step: Step)
    requires Inv(s) && Enabled(s, step)
    ensures Inv(After(s, step))
  {
    hide Inv, After;
    match step
    case Begin(key, height, prev) => BeginKeepsInv(s, key, height, prev);
    case RaiseHeight => RaiseKeepsInv(s);
    case StorePrivate => StoreKeepsInv(s);
    case Publish => PublishKeepsInv(s);
    case Start(r, target, height) => StartKeepsInv(s, r, target, height);
    case Load(r) => LoadKeepsInv(s, r);
  }

  ghost predicate Initial(s: State) {
    s == State(seq(MAX_HEIGHT, i => map[Head := Null]), 1, Idle, map[], seq(MAX_HEIGHT, i => []))
  }

  ghost predicate Run(states: seq<State>, steps: seq<Step>) {
    |states| == |steps| + 1 && Initial(states[0]) &&
    forall i :: 0 <= i < |steps| ==> Enabled(states[i], steps[i]) && states[i + 1] == After(states[i], steps[i])
  }

  lemma {:induction false} RunKeepsInv(states: seq<State>, steps: seq<Step>, i: nat)
    requires Run(states, steps) && i < |states|
    ensures Inv(states[i])
  {
    hide Inv, Enabled, After, Initial;
    if i == 0 {
      InitialHolds(states[0]);
    } else {
      RunKeepsInv(states, steps, i - 1);
      StepKeepsInv(states[i - 1], steps[i - 1]);
    }
  }

  lemma InitialHolds(s: State)
    requires Initial(s)
    ensures Inv(s)
  {
  }

  /** What a reader finds, whatever the writer was doing meanwhile: the first key at or behind its target
      among the keys published when it made its last load. */
  lemma ReadIsRight(s: State, r: nat)
    requires Inv(s) && Enabled(s, Load(r)) && After(s, Load(r)).readers[r].Found?
    ensures After(s, Load(r)).readers[r].result == Successor(s.levels[0], s.readers[r].target)
  {
    hide Chain, Sorted, Rank, Predecessor, Successor, WriterInv;
    var reader := s.readers[r];
    assert Stands(s, reader);
    StepOrFound(s.next[0], s.levels[0], reader.x, reader.target);
  }

  /** The successor is the least key at or behind the target. */
  lemma SuccessorIsLeast(s: seq<Key>, target: Key)
    requires Sorted(s)
    ensures var n := Successor(s, target);
      !n.Head? && (n.At? ==> n.key in s && target <= n.key) &&
      forall x :: x in s && target <= x ==> n.At? && n.key <= x
  {
    RankSplits(s, target);
  }

  /** A key that was published stays. */
  lemma KeysStay(s: State, step: Step, l: nat, k: Key)
    requires Inv(s) && Enabled(s, step) && l < MAX_HEIGHT && k in s.levels[l]
    ensures |After(s, step).levels| == MAX_HEIGHT && k in After(s, step).levels[l]
  {
    hide Chain, Rank, Predecessor, Successor, Nested, WithKey;
    if step.Publish? {
      WithKeyIsSorted(s.levels[s.writer.i], s.writer.key);
    }
  }

  /** A reader always has a next load: no search gets stuck on a pointer that is not there. */
  lemma ReaderCanLoad(s: State, r: nat)
    requires Inv(s) && r in s.readers && s.readers[r].Reading?
    ensures Enabled(s, Load(r))
  {
    hide Sorted, Rank, Predecessor, Successor, WriterInv;
    var reader := s.readers[r];
    assert Stands(s, reader);
    var i := LoadFinds(s.next[reader.level], s.levels[reader.level], reader.x);
  }
}
