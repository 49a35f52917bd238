/** Internal keys and the order on them: db/dbformat.h and db/dbformat.cc.

  A user key is a point of a total order, represented by an integer.  The program takes
  any comparator over byte strings; whatever one run of the program compares is a finite
  set of keys, and a finite total order embeds in the integers.  Two byte strings that the
  comparator calls equal are one user key. */
module InternalKeys {
  const MAX_SEQUENCE: nat := 0xFF_FFFF_FFFF_FFFF

  type UserKey = int

  datatype ValueType = Deletion | Value

  /** Sequence numbers share a 64-bit trailer with the type byte. */
  type SequenceNumber = n: nat | n <= MAX_SEQUENCE

  datatype IKey = IKey(user: UserKey, sequence: SequenceNumber, kind: ValueType)

  datatype Entry = Entry(key: IKey, value: string)

  /** The 64-bit trailer of an encoded internal key. */
  function Pack(sequence: SequenceNumber, kind: ValueType): nat {
    sequence * 256 + (if kind.Value? then 1 else 0)
  }

  /** The three-way comparison: user key ascending, then trailer descending. */
  function Compare(a: IKey, b: IKey): int {
    if a.user < b.user then -1
    else if a.user > b.user then 1
    else if Pack(a.sequence, a.kind) > Pack(b.sequence, b.kind) then -1
    else if Pack(a.sequence, a.kind) < Pack(b.sequence, b.kind) then 1
    else 0
  }

  predicate Less(a: IKey, b: IKey) {
    a.user < b.user ||
    (a.user == b.user && (a.sequence > b.sequence ||
                          (a.sequence == b.sequence && a.kind.Value? && b.kind.Deletion?)))
  }

  /** The order on the part of a key that identifies an entry of a database:
      no two writes share a sequence number. */
  predicate Before(a: IKey, b: IKey) {
    a.user < b.user || (a.user == b.user && a.sequence > b.sequence)
  }

  /** The key that LookupKey and InternalKey(user_key, s, kValueTypeForSeek) build. */
  function SeekKey(user: UserKey, sequence: SequenceNumber): IKey {
    IKey(user, sequence, Value)
  }

  /** Comparing the packed trailers is comparing (sequence, kind) in descending order,
      and a seek key sorts at or before every entry it must find and after every newer one. */
  lemma CompareIsLexicographic(a: IKey, b: IKey)
    ensures Compare(a, b) < 0 <==> Less(a, b)
    ensures Compare(a, b) == 0 <==> a == b
    ensures Compare(a, b) == -Compare(b, a)
    ensures a.user == b.user ==> (!Less(a, SeekKey(b.user, b.sequence)) <==> a.sequence <= b.sequence)
  {
    if a.sequence < b.sequence {
      assert Pack(a.sequence, a.kind) < Pack(b.sequence, b.kind);
    } else if a.sequence > b.sequence {
      assert Pack(a.sequence, a.kind) > Pack(b.sequence, b.kind);
    }
  }

  /** Entries in strictly increasing key order, the shape of a memtable or a table. */
  ghost predicate Sorted(s: seq<Entry>) {
    forall i, j :: 0 <= i < j < |s| ==> Before(s[i].key, s[j].key)
  }

  function Elements(s: seq<Entry>): set<Entry> {
    set e | e in s
  }
}
