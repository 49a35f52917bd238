/** Version::GetOverlappingInputs of db/version_set.cc. */
module Overlap {
  import opened Options
  import opened InternalKeys
  import opened Versions

  /** A closed user-key range; a missing bound is a null InternalKey pointer. */
  datatype Range = Range(lo: Option<UserKey>, hi: Option<UserKey>)

  predicate Meets(f: File, r: Range) {
    Touches(f, r.lo, r.hi)
  }

  predicate Inside(f: File, r: Range) {
    (r.lo.Some? ==> r.lo.value <= f.smallest.user) && (r.hi.Some? ==> f.largest.user <= r.hi.value)
  }

  predicate Within(inner: Range, outer: Range) {
    (outer.lo.Some? ==> inner.lo.Some? && outer.lo.value <= inner.lo.value) &&
    (outer.hi.Some? ==> inner.hi.Some? && inner.hi.value <= outer.hi.value)
  }

  /** No file reaches across the edge of the range. */
  ghost predicate Closed(files: seq<File>, r: Range) {
    forall f :: f in files && Meets(f, r) ==> Inside(f, r)
  }

  /** The least closed range that contains the request. */
  ghost predicate LeastClosed(files: seq<File>, request: Range, r: Range) {
    Closed(files, r) && Within(request, r) &&
    forall other :: Closed(files, other) && Within(request, other) ==> Within(r, other)
  }

  /** The files of the list that meet the range, in list order. */
  function Selected(files: seq<File>, r: Range): seq<File> {
    if |files| == 0 then []
    else
      var n := |files| - 1;
      Selected(files[..n], r) + (if Meets(files[n], r) then [files[n]] else [])
  }

  lemma {:induction false} SelectedMembers(files: seq<File>, r: Range)
    ensures forall f :: f in Selected(files, r) <==> f in files && Meets(f, r)
  {
    if |files| > 0 {
      var n := |files| - 1;
      SelectedMembers(files[..n], r);
      assert files == files[..n] + [files[n]];
    }
  }

  /** How many ends of f stick out of the range. */
  function EndsOutside(f: File, r: Range): nat {
    (if r.lo.Some? && f.smallest.user < r.lo.value then 1 else 0) +
    (if r.hi.Some? && f.largest.user > r.hi.value then 1 else 0)
  }

  /** What every restart of the search lowers. */
  ghost function Outside(files: seq<File>, r: Range): nat {
    if |files| == 0 then 0 else EndsOutside(files[0], r) + Outside(files[1..], r)
  }

  lemma {:induction false} WideningLowersOutside(files: seq<File>, r: Range, wider: Range, f: File)
    requires Within(r, wider)
    ensures Outside(files, wider) <= Outside(files, r)
    ensures f in files && EndsOutside(f, wider) < EndsOutside(f, r) ==> Outside(files, wider) < Outside(files, r)
  {
    if |files| > 0 {
      WideningLowersOutside(files[1..], r, wider, f);
    }
  }

  /** Collects the files that meet the request.  In level 0 every file taken widens the
      range to itself, one end at a time, and starts the search over. */
  method GetOverlappingInputs(level: nat, files: seq<File>, request: Range)
      returns (inputs: seq<File>, ghost range: Range)
    ensures inputs == Selected(files, range)
    ensures level > 0 ==> range == request
    ensures level == 0 ==> LeastClosed(files, request, range)
  {
    var lo, hi := request.lo, request.hi;
    inputs := [];
    var i := 0;
    while i < |files|
      invariant i <= |files|
      invariant inputs == Selected(files[..i], Range(lo, hi))
      invariant level > 0 ==> Range(lo, hi) == request
      invariant level == 0 ==> forall f :: f in inputs ==> Inside(f, Range(lo, hi))
      invariant Within(request, Range(lo, hi)) && lo.Some? == request.lo.Some? && hi.Some? == request.hi.Some?
      invariant forall other :: Closed(files, other) && Within(request, other) ==> Within(Range(lo, hi), other)
      decreases Outside(files, Range(lo, hi)), |files| - i
    {
      var f := files[i];
      assert files[..i + 1][..i] == files[..i];
      i := i + 1;
      if AfterFile(lo, f) || BeforeFile(hi, f) {
      } else {
        inputs := inputs + [f];
        if level == 0 {
          if lo.Some? && f.smallest.user < lo.value {
            WideningLowersOutside(files, Range(lo, hi), Range(Some(f.smallest.user), hi), f);
            MustWiden(files, request, Range(lo, hi), f);
            lo, inputs, i := Some(f.smallest.user), [], 0;
          } else if hi.Some? && f.largest.user > hi.value {
            WideningLowersOutside(files, Range(lo, hi), Range(lo, Some(f.largest.user)), f);
            MustWiden(files, request, Range(lo, hi), f);
            hi, inputs, i := Some(f.largest.user), [], 0;
          }
        }
      }
    }
    range := Range(lo, hi);
    assert files[..|files|] == files;
    SelectedMembers(files, range);
  }

  /** A file that meets the range so far lies inside every closed range around the request. */
  lemma MustWiden(files: seq<File>, request: Range, r: Range, f: File)
    requires f in files && Meets(f, r)
    requires forall other :: Closed(files, other) && Within(request, other) ==> Within(r, other)
    ensures forall other :: Closed(files, other) && Within(request, other) ==> Inside(f, other)
  {
    forall other | Closed(files, other) && Within(request, other) ensures Inside(f, other) {
      assert Within(r, other);
      assert Meets(f, other);
    }
  }
}
