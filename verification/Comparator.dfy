/** Byte-string order and shortened separators: util/comparator.cc, and the internal-key versions of
  db/dbformat.cc on encoded keys. */
module Comparator {
  import opened Coding

  /** Lexicographic order on unsigned bytes. */
  predicate Less(a: Bytes, b: Bytes) {
    |b| > 0 && (|a| == 0 || a[0] < b[0] || (a[0] == b[0] && Less(a[1..], b[1..])))
  }

  /** a and b first differ at index i. */
  ghost predicate DifferAt(a: Bytes, b: Bytes, i: nat) {
    i <= |a| && i <= |b| && a[..i] == b[..i] && i < |b| && (i < |a| ==> a[i] != b[i])
  }

  /** The order is decided where the strings first differ. */
  lemma {:induction false} LessAt(a: Bytes, b: Bytes, i: nat)
    requires DifferAt(a, b, i)
    ensures Less(a, b) <==> i == |a| || a[i] < b[i]
  {
    if i > 0 {
      assert a[..i][0] == a[0] && b[..i][0] == b[0];
      assert a[1..][..i - 1] == a[..i][1..] && b[1..][..i - 1] == b[..i][1..];
      LessAt(a[1..], b[1..], i - 1);
    }
  }

  lemma {:induction false} LessIsTransitive(a: Bytes, b: Bytes, c: Bytes)
    requires Less(a, b) && Less(b, c)
    ensures Less(a, c)
  {
    if |a| > 0 && a[0] == b[0] == c[0] {
      LessIsTransitive(a[1..], b[1..], c[1..]);
    }
  }

  lemma {:induction false} LessIsTotal(a: Bytes, b: Bytes)
    ensures !(Less(a, b) && Less(b, a)) && (Less(a, b) || Less(b, a) || a == b)
    ensures !Less(a, a)
  {
    if |a| > 0 && |b| > 0 && a[0] == b[0] {
      LessIsTotal(a[1..], b[1..]);
      assert a == [a[0]] + a[1..] && b == [b[0]] + b[1..];
    }
    Irreflexive(a);
  }

  lemma {:induction false} Irreflexive(a: Bytes)
    ensures !Less(a, a)
  {
    if |a| > 0 {
      Irreflexive(a[1..]);
    }
  }

  /** The first byte in which the two differ is less than the limit's by two or more. */
  predicate GapAt(start: Bytes, limit: Bytes, i: nat) {
    i < |start| && i < |limit| && start[..i] == limit[..i] && (start[i] as nat) + 1 < limit[i]
  }

  /** The key cut off behind that byte, which goes up by one. */
  function CutAfter(key: Bytes, i: nat): Bytes
    requires i < |key| && key[i] < 0xff
  {
    key[..i] + [key[i] + 1]
  }

  lemma OneGap(start: Bytes, limit: Bytes, i: nat, j: nat)
    requires j <= |start| && j <= |limit| && start[..j] == limit[..j] && GapAt(start, limit, i)
    ensures j <= i && (j < i ==> start[j] == limit[j])
  {
    assert forall k :: 0 <= k < j ==> start[k] == start[..j][k] && limit[k] == limit[..j][k];
    assert j < i ==> start[..i][j] == start[j] && limit[..i][j] == limit[j];
  }

  /** The key is cut off exactly if there is such a byte; what is left is larger, no longer, and still below the
    limit. */
  method FindShortestSeparator(start: Bytes, limit: Bytes) returns (r: Bytes)
    ensures r == start || (Less(start, r) && Less(r, limit) && |r| <= |start|)
    ensures r != start <==> exists i :: GapAt(start, limit, i)
    ensures forall i :: GapAt(start, limit, i) ==> r == CutAfter(start, i)
  {
    var minLength := if |start| < |limit| then |start| else |limit|;
    var diffIndex := 0;
    while diffIndex < minLength && start[diffIndex] == limit[diffIndex]
      invariant 0 <= diffIndex <= minLength && start[..diffIndex] == limit[..diffIndex]
    {
      diffIndex := diffIndex + 1;
    }
    r := start;
    forall i | GapAt(start, limit, i) ensures i == diffIndex {
      OneGap(start, limit, i, diffIndex);
    }
    if diffIndex < minLength {
      var diffByte := start[diffIndex];
      if diffByte < 0xff && diffByte + 1 < limit[diffIndex] {
        r := start[..diffIndex] + [diffByte + 1];
        assert GapAt(start, limit, diffIndex);
        assert r[..diffIndex] == start[..diffIndex];
        LessAt(start, r, diffIndex);
        LessAt(r, limit, diffIndex);
      }
    }
  }

  /** The first byte that is not 0xff. */
  predicate FirstLow(key: Bytes, i: nat) {
    i < |key| && (forall j :: 0 <= j < i ==> key[j] == 0xff) && key[i] != 0xff
  }

  /** Either every byte is 0xff, or the first other byte goes up by one and the rest is cut off. */
  method FindShortSuccessor(key: Bytes) returns (r: Bytes)
    ensures if forall b :: b in key ==> b == 0xff then r == key else Less(key, r) && |r| <= |key|
    ensures r != key <==> exists i :: FirstLow(key, i)
    ensures forall i :: FirstLow(key, i) ==> r == CutAfter(key, i)
  {
    for i := 0 to |key|
      invariant forall j :: 0 <= j < i ==> key[j] == 0xff
    {
      if key[i] != 0xff {
        r := key[..i] + [key[i] + 1];
        assert r[..i] == key[..i] && key[i] in key && FirstLow(key, i);
        LessAt(key, r, i);
        return;
      }
    }
    r := key;
  }

  // ---- encoded internal keys ------------------------------------------------------------------

  const MAX_TRAILER: nat := 0xFF_FFFF_FFFF_FFFF * 256 + 1

  function UserPart(key: Bytes): Bytes
    requires |key| >= 8
  {
    key[..|key| - 8]
  }

  function Trailer(key: Bytes): nat
    requires |key| >= 8
  {
    Unfixed(key[|key| - 8..])
  }

  function InternalKey(user: Bytes, trailer: nat): (r: Bytes)
    ensures |r| == |user| + 8
  {
    user + Fixed(trailer, 8)
  }

  /** User keys ascending, trailers descending; a key too short to be one sorts first. */
  predicate InternalLess(a: Bytes, b: Bytes) {
    if |a| < 8 || |b| < 8 then |a| < |b|
    else Less(UserPart(a), UserPart(b)) || (UserPart(a) == UserPart(b) && Trailer(a) > Trailer(b))
  }

  lemma InternalKeyParts(user: Bytes, trailer: nat)
    requires trailer < WORD64
    ensures UserPart(InternalKey(user, trailer)) == user && Trailer(InternalKey(user, trailer)) == trailer
  {
    Widths();
    FixedRoundTrip(trailer, 8);
    assert InternalKey(user, trailer)[|user|..] == Fixed(trailer, 8);
  }

  lemma InternalLessIsTransitive(a: Bytes, b: Bytes, c: Bytes)
    requires |a| >= 8 && |b| >= 8 && |c| >= 8 && InternalLess(a, b) && InternalLess(b, c)
    ensures InternalLess(a, c)
  {
    if Less(UserPart(a), UserPart(b)) && Less(UserPart(b), UserPart(c)) {
      LessIsTransitive(UserPart(a), UserPart(b), UserPart(c));
    }
  }

  lemma InternalLessIsTotal(a: Bytes, b: Bytes)
    requires |a| >= 8 && |b| >= 8
    ensures !(InternalLess(a, b) && InternalLess(b, a)) && (InternalLess(a, b) || InternalLess(b, a) || a == b)
  {
    LessIsTotal(UserPart(a), UserPart(b));
    UnfixedIsBounded(a[|a| - 8..]);
    UnfixedIsBounded(b[|b| - 8..]);
    assert a == UserPart(a) + a[|a| - 8..] && b == UserPart(b) + b[|b| - 8..];
  }

  /** A key that stands at or above start and strictly below whatever start's block is followed by.  It is
      either start itself, or its user key lies strictly above start's. */
  ghost predicate Separates(start: Bytes, r: Bytes) {
    |start| >= 8 && |r| >= 8 && (r == start || (Less(UserPart(start), UserPart(r)) && Trailer(r) == MAX_TRAILER))
  }

  lemma SeparatesIsAbove(start: Bytes, r: Bytes)
    requires Separates(start, r)
    ensures !InternalLess(r, start)
  {
    LessIsTotal(UserPart(start), UserPart(r));
  }

  method InternalShortestSeparator(start: Bytes, limit: Bytes) returns (r: Bytes)
    requires |start| >= 8 && |limit| >= 8 && InternalLess(start, limit)
    ensures Separates(start, r) && InternalLess(r, limit) && |r| <= |start|
    ensures r != start ==> Less(UserPart(r), UserPart(limit))
    ensures r != start <==> exists i: nat :: GapAt(UserPart(start), UserPart(limit), i) && i + 9 < |start|
  {
    var tmp := FindShortestSeparator(UserPart(start), UserPart(limit));
    assert forall i: nat :: GapAt(UserPart(start), UserPart(limit), i) ==> |tmp| == i + 1;
    if |tmp| < |UserPart(start)| && Less(UserPart(start), tmp) {
      InternalKeyParts(tmp, MAX_TRAILER);
      r := InternalKey(tmp, MAX_TRAILER);
      Irreflexive(UserPart(start));
    } else {
      r := start;
    }
  }

  method InternalShortSuccessor(key: Bytes) returns (r: Bytes)
    requires |key| >= 8
    ensures Separates(key, r) && |r| <= |key|
    ensures r != key <==> exists i: nat :: FirstLow(UserPart(key), i) && i + 9 < |key|
  {
    var tmp := FindShortSuccessor(UserPart(key));
    assert forall i: nat :: FirstLow(UserPart(key), i) ==> |tmp| == i + 1;
    if |tmp| < |UserPart(key)| && Less(UserPart(key), tmp) {
      InternalKeyParts(tmp, MAX_TRAILER);
      r := InternalKey(tmp, MAX_TRAILER);
    } else {
      r := key;
    }
  }
}
