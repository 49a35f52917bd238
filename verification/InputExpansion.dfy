/** When SetupOtherInputs takes more upper files, on files of any sizes: the neighbour in the upper level is taken along
  unless that is too much to compact, or brings one more lower file with it. */
module InputExpansion {
  import opened Options
  import opened InternalKeys
  import opened Versions
  import opened Overlap
  import opened CompactionInputs

  function Spanning(number: nat, size: nat, lo: UserKey, hi: UserKey): (f: File)
    requires lo < hi
    ensures ValidFile(f)
  {
    var first, last := Entry(IKey(lo, 1, Value), ""), Entry(IKey(hi, 1, Value), "");
    File(number, size, first.key, last.key, [first, last])
  }

  /** Two neighbours of level 1, and below them a file that meets both, and perhaps one that meets the second only. */
  function Tree(a: nat, b: nat, c: nat, more: bool): Version {
    [[], [Spanning(1, a, 1, 2), Spanning(2, b, 3, 5)],
     [Spanning(3, c, 1, 3)] + (if more then [Spanning(4, c, 4, 6)] else []), [], [], [], []]
  }

  lemma TreeIsValid(a: nat, b: nat, c: nat, more: bool)
    ensures LevelsValid(Tree(a, b, c, more))
  {
  }

  lemma NoBoundary(files: seq<File>, inputs: seq<File>, f: File)
    requires ValidFiles(files) && |inputs| > 0 && Largest(inputs, f.largest)
    requires forall g :: g in files ==> !Follows(g, f.largest)
    ensures Bounded(files, inputs) == inputs
  {
    TopIsUnique(inputs, f.largest);
  }

  lemma HullOfOne(f: File)
    requires ValidFile(f)
    ensures HullOf([f]) == UserRange(f.smallest, f.largest)
  {
  }

  lemma HullOfTwo(f: File, g: File)
    ensures HullOf([f, g]) ==
      Range(Some(if g.smallest.user < f.smallest.user then g.smallest.user else f.smallest.user),
            Some(if f.largest.user < g.largest.user then g.largest.user else f.largest.user))
  {
    assert [f, g][..1] == [f];
  }

  lemma SelectedOfOne(f: File, r: Range)
    ensures Selected([f], r) == if Meets(f, r) then [f] else []
  {
    assert [f][..0] == [];
  }

  lemma SelectedOfTwo(f: File, g: File, r: Range)
    ensures Selected([f, g], r) == (if Meets(f, r) then [f] else []) + if Meets(g, r) then [g] else []
  {
    assert [f, g][..1] == [f];
    SelectedOfOne(f, r);
  }

  lemma TotalOfTwo(f: File, g: File)
    ensures TotalFileSize([f]) == f.size && TotalFileSize([f, g]) == f.size + g.size
  {
    assert [f, g][1..] == [g] && [g][1..] == [] && [f][1..] == [];
  }

  /** Below the second file there is the other lower file too. */
  lemma LowerFiles(a: nat, b: nat, c: nat, more: bool)
    ensures var v := Tree(a, b, c, more);
      Lower(v, 1, [v[1][0]]) == [v[2][0]] && Lower(v, 1, v[1]) == v[2]
  {
    hide Selected, HullOf;
    var v := Tree(a, b, c, more);
    HullOfOne(v[1][0]);
    HullOfTwo(v[1][0], v[1][1]);
    if more {
      assert v[2] == [v[2][0], v[2][1]];
      SelectedOfTwo(v[2][0], v[2][1], HullOf([v[1][0]]));
      SelectedOfTwo(v[2][0], v[2][1], HullOf(v[1]));
    } else {
      assert v[2] == [v[2][0]];
      SelectedOfOne(v[2][0], HullOf([v[1][0]]));
      SelectedOfOne(v[2][0], HullOf(v[1]));
    }
  }

  /** The neighbour is taken along exactly if all three files have less than 25 file sizes and there is no second lower
    file. */
  lemma NeighbourIsTaken(a: nat, b: nat, c: nat, more: bool, maxFileSize: nat, inputs0: seq<File>, inputs1: seq<File>)
    requires LevelsValid(Tree(a, b, c, more))
    requires var v := Tree(a, b, c, more); ChosenFrom(v, 1, [v[1][0]], maxFileSize, inputs0, inputs1)
    ensures var v := Tree(a, b, c, more);
      inputs0 == (if !more && a + b + c < 25 * maxFileSize then v[1] else [v[1][0]]) && inputs1 == [v[2][0]]
  {
    hide HullOf, Selected, Bounded, TotalFileSize, ValidFiles, Lower, Tree, LevelsValid, ChosenFrom;
    var v := Tree(a, b, c, more);
    TreeFiles(a, b, c, more);
    var f, g := v[1][0], v[1][1];
    LowerFiles(a, b, c, more);
    BoundaryFiles(v, f, g);
    OverlapIsBoth(v, f, g, v[2][0]);
    ChoiceIs(v, 1, [f], maxFileSize, inputs0, inputs1, [v[2][0]], v[1]);
    TotalOfTwo(f, g);
    TotalOfTwo(v[2][0], g);
  }

  lemma TreeFiles(a: nat, b: nat, c: nat, more: bool)
    ensures var v := Tree(a, b, c, more);
      LevelsValid(v) && v[1] == [v[1][0], v[1][1]] && |v[2]| == (if more then 2 else 1) && |v| == NUM_LEVELS &&
      v[1][0] == Spanning(1, a, 1, 2) && v[1][1] == Spanning(2, b, 3, 5) && v[2][0] == Spanning(3, c, 1, 3)
    ensures Spanning(1, a, 1, 2).size == a && Spanning(2, b, 3, 5).size == b && Spanning(3, c, 1, 3).size == c
  {
  }

  lemma BoundaryFiles(v: Version, f: File, g: File)
    requires |v| == NUM_LEVELS && LevelsValid(v) && v[1] == [f, g] && f.smallest.user == 1 && f.largest.user == 2
    requires g.smallest.user == 3 && g.largest == IKey(5, 1, Value)
    ensures ValidFiles(v[1]) && Bounded(v[1], [f]) == [f] && Bounded(v[1], v[1]) == v[1]
  {
    hide Bounded;
    NoBoundary(v[1], [f], f);
    NoBoundary(v[1], v[1], g);
  }

  lemma OverlapIsBoth(v: Version, f: File, g: File, lower: File)
    requires |v| == NUM_LEVELS && v[1] == [f, g] && f.smallest.user == 1 && f.largest.user == 2
    requires g.smallest.user == 3 && g.largest.user == 5 && lower.smallest.user == 1 && lower.largest.user == 3
    ensures Overlapping(v, 1, HullOf([f] + [lower]), v[1])
  {
    hide HullOf, Selected;
    HullOfTwo(f, lower);
    assert [f] + [lower] == [f, lower];
    SelectedOfTwo(f, g, HullOf([f, lower]));
  }

  // ---- the choice, step by step ----------------------------------------------------------------

  /** What is chosen when the files to start from have no boundary files, nor have those that could be taken instead. */
  lemma ChoiceIs(v: Version, level: nat, seed: seq<File>, maxFileSize: nat, inputs0: seq<File>, inputs1: seq<File>,
                 lower: seq<File>, wide: seq<File>)
    requires LevelsValid(v) && level + 1 < |v| && |seed| > 0 && |lower| > 0 && |wide| > 0
    requires ChosenFrom(v, level, seed, maxFileSize, inputs0, inputs1)
    requires ValidFiles(v[level]) && Bounded(v[level], seed) == seed && Bounded(v[level], wide) == wide
    requires Lower(v, level, seed) == lower && Overlapping(v, level, HullOf(seed + lower), wide)
    ensures |inputs0| > 0 && inputs1 == Lower(v, level, inputs0)
    ensures inputs0 == if Widens(v, level, seed, lower, wide, maxFileSize) then wide else seed
  {
    hide HullOf, Bounded, Lower, Overlapping, Widens, ValidFiles;
    ThisIsWider(v, level, seed, lower, wide);
    var w :| Wider(v, level, seed, lower, w) &&
      inputs0 == if Widens(v, level, seed, lower, w, maxFileSize) then w else seed;
    var base :| |base| > 0 && Overlapping(v, level, HullOf(seed + lower), base) && w == Bounded(v[level], base);
    OverlappingIsUnique(v, level, HullOf(seed + lower), base, wide);
  }

  lemma ThisIsWider(v: Version, level: nat, seed: seq<File>, lower: seq<File>, wide: seq<File>)
    requires LevelsValid(v) && level + 1 < |v| && |seed| > 0 && |wide| > 0 && ValidFiles(v[level])
    requires Bounded(v[level], wide) == wide && Overlapping(v, level, HullOf(seed + lower), wide)
    ensures Wider(v, level, seed, lower, wide)
  {
    hide HullOf, Bounded, Overlapping, ValidFiles;
  }

  /** So files that the range of the compaction does not widen are chosen themselves. */
  lemma StaysAsItIs(v: Version, level: nat, seed: seq<File>, maxFileSize: nat, lower: seq<File>)
    requires LevelsValid(v) && level + 1 < |v| && |seed| > 0
    requires ValidFiles(v[level]) && Bounded(v[level], seed) == seed && Lower(v, level, seed) == lower
    requires |lower| > 0 ==> Overlapping(v, level, HullOf(seed + lower), seed)
    ensures ChosenFrom(v, level, seed, maxFileSize, seed, lower)
  {
    hide HullOf, Bounded, Lower, Overlapping, ValidFiles;
    if |lower| > 0 {
      ThisIsWider(v, level, seed, lower, seed);
    }
  }
}
