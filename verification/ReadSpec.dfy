/** What a read means: the newest entry of a user key at or below a sequence number,
    a deletion standing for absence.  Nothing here mentions memtables, files or levels. */
module ReadSpec {
  import opened Options
  import opened InternalKeys

  /** The answer of one lookup, as enum SaverState of db/version_set.cc distinguishes it. */
  datatype Answer = Found(value: string) | Deleted | NotFound

  ghost predicate AtOrBelow(e: Entry, u: UserKey, s: nat) {
    e.key.user == u && e.key.sequence <= s
  }

  ghost predicate IsNewest(all: set<Entry>, u: UserKey, s: nat, e: Entry) {
    e in all && AtOrBelow(e, u, s) &&
    forall x :: x in all && AtOrBelow(x, u, s) ==> x.key.sequence <= e.key.sequence
  }

  ghost predicate NoneVisible(all: set<Entry>, u: UserKey, s: nat) {
    forall x :: x in all ==> !AtOrBelow(x, u, s)
  }

  /** Entries are identified by user key and sequence number. */
  ghost predicate Identified(all: set<Entry>) {
    forall x, y :: x in all && y in all && x.key.user == y.key.user && x.key.sequence == y.key.sequence ==> x == y
  }

  function AnswerOf(e: Entry): Answer {
    if e.key.kind.Value? then Found(e.value) else Deleted
  }

  ghost function Lookup(all: set<Entry>, u: UserKey, s: nat): Answer {
    if NoneVisible(all, u, s) then NotFound else AnswerOf(Newest(all, u, s))
  }

  ghost function Newest(all: set<Entry>, u: UserKey, s: nat): (e: Entry)
    requires !NoneVisible(all, u, s)
    ensures IsNewest(all, u, s, e)
  {
    NewestExists(all, u, s);
    var e :| IsNewest(all, u, s, e);
    e
  }

  ghost function Visible(all: set<Entry>, u: UserKey, s: nat): Option<string> {
    match Lookup(all, u, s)
    case Found(v) => Some(v)
    case Deleted => None
    case NotFound => None
  }

  lemma {:induction false} NewestExists(all: set<Entry>, u: UserKey, s: nat)
    requires !NoneVisible(all, u, s)
    ensures exists e :: IsNewest(all, u, s, e)
    decreases |all|
  {
    var x :| x in all && AtOrBelow(x, u, s);
    var rest := all - {x};
    if NoneVisible(rest, u, s) {
      assert IsNewest(all, u, s, x);
    } else {
      NewestExists(rest, u, s);
      var e :| IsNewest(rest, u, s, e);
      assert IsNewest(all, u, s, if x.key.sequence > e.key.sequence then x else e);
    }
  }

  /** The newest entry is unique, so it decides the answer. */
  lemma LookupIs(all: set<Entry>, u: UserKey, s: nat, e: Entry)
    requires Identified(all) && IsNewest(all, u, s, e)
    ensures Lookup(all, u, s) == AnswerOf(e)
  {
    assert AtOrBelow(e, u, s);
    var x := Newest(all, u, s);
    assert x.key.sequence == e.key.sequence;
  }
}
