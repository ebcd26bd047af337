/** The shift-only (ungapped) aligner of aligner.py: overlap arithmetic,
    scoring masks, the masked scorer, the exhaustive offset scan and the choice
    of the best candidate. Layout of aligned sequences (format, length,
    enumerate) is in module AlignerLayout. */
module Aligner {
  import opened Common

  /** Fills positions of a generic sequence that lie between extracted ranges. */
  const GenericSequenceToken: char := '.'
  /** Marks, in a template, a position whose base is extracted. */
  const VariableRegionToken: char := '*'
  /** Template characters that do not count as anchor bases. */
  const NonScoredTokens: set<char> := {GenericSequenceToken, VariableRegionToken}

  /** A score, or the NO_SCORE sentinel (below every real score). */
  datatype AlignScore = NoScore | Scored(value: int)

  /** The constructor arguments of an Aligner; the source never changes them afterwards. */
  datatype Config = Config(
    mutationThreshold: int,
    identicalScore: int,
    differentScore: int,
    gapScore: int,
    gapCharacter: char)

  /** `Aligner()` with its default arguments. */
  const DefaultConfig: Config := Config(-1, 1, -1, 0, ' ')

  /** A half-open index range `(start, end)`. */
  type Range = (int, int)

  /** The two scoring masks of `score`: `None` means "score every position". */
  type Maps = (Option<seq<bool>>, Option<seq<bool>>)

  /** The order used by `align` and by `max(..., key=score)`: `a` is strictly
      better than `b`. NO_SCORE is below every real score. */
  predicate Beats(a: AlignScore, b: AlignScore) {
    a.Scored? && (b.NoScore? || a.value > b.value)
  }

  // ---------------------------------------------------------------------------
  // overlap, overlap_region

  /** Position `i` of `s1` faces a position of `s2` when `s2` starts at `offset`. */
  predicate Facing<T>(s1: seq<T>, s2: seq<T>, offset: int, i: int) {
    0 <= i < |s1| && 0 <= i - offset < |s2|
  }

  /** Number of overlapping bases when `s2` is shifted `offset` to the right of
      the start of `s1` (zero or negative when the two do not meet). */
  function Overlap<T>(s1: seq<T>, s2: seq<T>, offset: int): (r: int)
    ensures r == Min(|s1|, offset + |s2|) - Max(0, offset)
  {
    if offset < 0 then
      Min(|s1|, |s2| + offset)      // s2 hangs off the 5' end of s1
    else if offset + |s2| >= |s1| then
      |s1| - offset                 // s2 hangs off the 3' end of s1
    else
      |s2|                          // s2 lies inside s1
  }

  /** The overlapping positions, in the coordinates of `s1`. */
  function OverlapRegion<T>(s1: seq<T>, s2: seq<T>, offset: int): (r: (int, int))
    ensures r.1 - r.0 == Overlap(s1, s2, offset)
    ensures r.0 == Max(0, offset)
    ensures forall i :: r.0 <= i < r.1 <==> Facing(s1, s2, offset, i)
  {
    if offset < 0 then
      (0, Min(|s1|, |s2| + offset))
    else if offset + |s2| >= |s1| then
      (offset, |s1|)
    else
      (offset, |s2| + offset)
  }

  // ---------------------------------------------------------------------------
  // scoring_map

  /** Index `j` of a list of `length` is written by the range `rg`, counting
      Python's negative indices from the end of the list. */
  predicate Covers(rg: Range, length: nat, j: int) {
    rg.0 <= j < rg.1 || rg.0 <= j - length < rg.1
  }

  /** Every index each range writes exists in a list of `length`. */
  predicate RangesFit(length: nat, ranges: seq<Range>) {
    forall k :: 0 <= k < |ranges| && ranges[k].0 < ranges[k].1 ==>
      -(length as int) <= ranges[k].0 && ranges[k].1 <= length
  }

  /** The union of the ranges, as a boolean mask. */
  function Mask(length: nat, ranges: seq<Range>): seq<bool> {
    seq(length, j => exists k :: 0 <= k < |ranges| && Covers(ranges[k], length, j))
  }

  /** `scoring_map`: a mask that is true exactly on the union of the ranges;
      an index outside the list raises IndexError. */
  method ScoringMap(length: nat, ranges: seq<Range>) returns (r: Result<seq<bool>>)
    ensures r.Ok? <==> RangesFit(length, ranges)
    ensures r.Ok? ==> |r.value| == length
    ensures r.Ok? ==> forall j :: 0 <= j < length ==>
      (r.value[j] <==> exists k :: 0 <= k < |ranges| && Covers(ranges[k], length, j))
    ensures r.Ok? ==> r.value == Mask(length, ranges)
    ensures r.Err? ==> r.error == IndexError
  {
    var ret := new bool[length](_ => false);
    var k := 0;
    while k < |ranges|
      invariant 0 <= k <= |ranges|
      invariant RangesFit(length, ranges[..k])
      invariant forall j :: 0 <= j < length ==>
        (ret[j] <==> exists k' :: 0 <= k' < k && Covers(ranges[k'], length, j))
    {
      var start, end := ranges[k].0, ranges[k].1;
      var i := start;
      while i < end
        invariant start <= i <= Max(start, end)
        invariant i > start ==> -(length as int) <= start && i <= length
        invariant forall j :: 0 <= j < length ==>
          (ret[j] <==> (exists k' :: 0 <= k' < k && Covers(ranges[k'], length, j)) || Covers((start, i), length, j))
      {
        if i < -(length as int) || i >= length {
          assert ranges[k].0 < ranges[k].1;
          return Err(IndexError);
        }
        ret[if i >= 0 then i else i + length] := true;
        i := i + 1;
      }
      assert forall j :: Covers((start, i), length, j) <==> Covers(ranges[k], length, j);
      assert ranges[..k + 1] == ranges[..k] + [ranges[k]];
      k := k + 1;
    }
    assert ranges[..k] == ranges;
    assert ret[..] == Mask(length, ranges);
    r := Ok(ret[..]);
  }

  // ---------------------------------------------------------------------------
  // score

  /** Python's `xs[k]` on a list: a negative index counts from the end, any
      other index outside the list raises IndexError (`None` here). */
  function PyIndex<T>(xs: seq<T>, k: int): (r: Option<T>)
    ensures r.Some? <==> -|xs| <= k < |xs|
    ensures 0 <= k < |xs| ==> r == Some(xs[k])
  {
    if 0 <= k < |xs| then Some(xs[k])
    else if -|xs| <= k < 0 then Some(xs[|xs| + k])
    else None
  }

  /** The masks are as long as the sequences they belong to (as `align` builds them). */
  predicate MapsFit(s1: string, s2: string, maps: Maps) {
    && (maps.0.Some? ==> |maps.0.value| == |s1|)
    && (maps.1.Some? ==> |maps.1.value| == |s2|)
  }

  /** Overlap position `i` is compared: the first mask is read at `i`, the
      second (as the source does) at `i + offset`. */
  predicate Compared(s1: string, s2: string, offset: int, maps: Maps, i: int)
    requires MapsFit(s1, s2, maps) && 0 <= i < |s1|
  {
    && (maps.0.None? || maps.0.value[i])
    && (maps.1.None? || PyIndex(maps.1.value, i + offset) == Some(true))
  }

  /** Looking up the second mask at overlap position `i` raises IndexError. */
  predicate MaskLookupFails(s1: string, s2: string, offset: int, maps: Maps, i: int)
    requires MapsFit(s1, s2, maps) && 0 <= i < |s1|
  {
    && (maps.0.None? || maps.0.value[i])
    && maps.1.Some? && PyIndex(maps.1.value, i + offset).None?
  }

  /** Upper end of the overlap loop `for i in xrange(start, end)`. */
  function LoopEnd(s1: string, s2: string, offset: int): int {
    Max(Max(0, offset), Min(|s1|, offset + |s2|))
  }

  /** `joined_1`, `joined_2` after the overlap loop has run up to (excluding) `hi`. */
  function Joined(s1: string, s2: string, offset: int, maps: Maps, hi: int): (r: Result<(string, string)>)
    requires MapsFit(s1, s2, maps)
    requires Max(0, offset) <= hi <= LoopEnd(s1, s2, offset)
    ensures r.Ok? ==> |r.value.0| == |r.value.1| <= hi - Max(0, offset)
    decreases hi
  {
    if hi == Max(0, offset) then Ok(([], []))
    else
      var i := hi - 1;
      match Joined(s1, s2, offset, maps, i)
      case Err(e) => Err(e)
      case Ok(p) =>
        if MaskLookupFails(s1, s2, offset, maps, i) then Err(IndexError)
        else if Compared(s1, s2, offset, maps, i) then Ok((p.0 + [s1[i]], p.1 + [s2[i - offset]]))
        else Ok(p)
  }

  /** Without masks the joined strings are the two facing slices of the overlap. */
  lemma {:induction false} JoinedUnmasked(s1: string, s2: string, offset: int, hi: int)
    requires Max(0, offset) < hi <= LoopEnd(s1, s2, offset)
    ensures Joined(s1, s2, offset, (None, None), hi) ==
      Ok((s1[Max(0, offset)..hi], s2[Max(0, offset) - offset..hi - offset]))
    decreases hi
  {
    var lo, i := Max(0, offset), hi - 1;
    assert 0 <= lo <= i < |s1| && 0 <= lo - offset <= i - offset < |s2|;
    if i > lo {
      JoinedUnmasked(s1, s2, offset, i);
    } else {
      assert s1[lo..i] == [] && s2[lo - offset..i - offset] == [];
    }
    assert Joined(s1, s2, offset, (None, None), i) == Ok((s1[lo..i], s2[lo - offset..i - offset]));
    SliceExtend(s1, lo, hi);
    SliceExtend(s2, lo - offset, hi - offset);
  }

  /** A slice grows by its next element. */
  lemma SliceExtend(s: string, lo: int, hi: int)
    requires 0 <= lo < hi <= |s|
    ensures s[lo..hi] == s[lo..hi - 1] + [s[hi - 1]]
  {
  }

  /** numpy's `(arr_1 == arr_2).sum()`: positions where the two strings agree. */
  function CountEqual(a: string, b: string): (n: nat)
    requires |a| == |b|
    ensures n <= |a|
    ensures a == b ==> n == |a|
  {
    if a == [] then 0
    else CountEqual(a[..|a| - 1], b[..|b| - 1]) + if a[|a| - 1] == b[|b| - 1] then 1 else 0
  }

  /** The value `score` returns (or the error it raises). */
  function ScoreOf(cfg: Config, s1: string, s2: string, offset: int, maps: Maps): Result<AlignScore>
    requires MapsFit(s1, s2, maps)
  {
    var region := OverlapRegion(s1, s2, offset);
    var overlapLength := region.1 - region.0;
    match Joined(s1, s2, offset, maps, LoopEnd(s1, s2, offset))
    case Err(e) => Err(e)
    case Ok(j) =>
      var identical := CountEqual(j.0, j.1);
      var different := overlapLength - identical;
      if cfg.mutationThreshold >= 0 && different > cfg.mutationThreshold then Ok(NoScore)
      else
        var gaps := Max(|s1|, |s2| + offset) - overlapLength;
        Ok(Scored(identical * cfg.identicalScore + different * cfg.differentScore + gaps * cfg.gapScore))
  }

  /** The overlap positions up to `hi` that are compared. */
  ghost function ComparedBelow(s1: string, s2: string, offset: int, maps: Maps, hi: int): set<int>
    requires MapsFit(s1, s2, maps)
  {
    set i | Max(0, offset) <= i < hi && i < |s1| && Compared(s1, s2, offset, maps, i)
  }

  /** The compared positions up to `hi` whose two bases are identical. */
  ghost function IdenticalBelow(s1: string, s2: string, offset: int, maps: Maps, hi: int): set<int>
    requires MapsFit(s1, s2, maps)
  {
    set i | Max(0, offset) <= i < hi && i < |s1| && 0 <= i - offset < |s2|
      && Compared(s1, s2, offset, maps, i) && s1[i] == s2[i - offset]
  }

  lemma CardinalityStep(s: set<int>, t: set<int>, x: int)
    requires x !in s
    ensures t == s + {x} ==> |t| == |s| + 1
  {
  }

  /** One step of the overlap loop: position `hi - 1` is appended exactly
      when it is compared. */
  lemma JoinedStep(s1: string, s2: string, offset: int, maps: Maps, hi: int)
    requires MapsFit(s1, s2, maps)
    requires Max(0, offset) < hi <= LoopEnd(s1, s2, offset)
    ensures Joined(s1, s2, offset, maps, hi).Ok? ==>
      && Joined(s1, s2, offset, maps, hi - 1).Ok?
      && var p := Joined(s1, s2, offset, maps, hi - 1).value;
         Joined(s1, s2, offset, maps, hi).value ==
           if Compared(s1, s2, offset, maps, hi - 1) then (p.0 + [s1[hi - 1]], p.1 + [s2[hi - 1 - offset]]) else p
  {
  }

  /** The overlap loop raises exactly when a lookup of the second mask falls
      outside it. */
  lemma {:induction false} JoinedFails(s1: string, s2: string, offset: int, maps: Maps, hi: int)
    requires MapsFit(s1, s2, maps)
    requires Max(0, offset) <= hi <= LoopEnd(s1, s2, offset)
    ensures Joined(s1, s2, offset, maps, hi).Err? <==>
      exists i :: Max(0, offset) <= i < hi && MaskLookupFails(s1, s2, offset, maps, i)
    decreases hi
  {
    if hi > Max(0, offset) {
      JoinedFails(s1, s2, offset, maps, hi - 1);
    }
  }

  lemma ComparedStep(s1: string, s2: string, offset: int, maps: Maps, hi: int)
    requires MapsFit(s1, s2, maps)
    requires Max(0, offset) < hi <= LoopEnd(s1, s2, offset)
    ensures ComparedBelow(s1, s2, offset, maps, hi) ==
      ComparedBelow(s1, s2, offset, maps, hi - 1) + if Compared(s1, s2, offset, maps, hi - 1) then {hi - 1} else {}
    ensures IdenticalBelow(s1, s2, offset, maps, hi) ==
      IdenticalBelow(s1, s2, offset, maps, hi - 1)
      + if Compared(s1, s2, offset, maps, hi - 1) && s1[hi - 1] == s2[hi - 1 - offset] then {hi - 1} else {}
  {
  }

  /** The joined strings hold exactly the compared positions. */
  lemma {:induction false} JoinedLength(s1: string, s2: string, offset: int, maps: Maps, hi: int)
    requires MapsFit(s1, s2, maps)
    requires Max(0, offset) <= hi <= LoopEnd(s1, s2, offset)
    requires Joined(s1, s2, offset, maps, hi).Ok?
    ensures |Joined(s1, s2, offset, maps, hi).value.0| == |ComparedBelow(s1, s2, offset, maps, hi)|
    decreases hi
  {
    if hi == Max(0, offset) {
      assert ComparedBelow(s1, s2, offset, maps, hi) == {};
    } else {
      var i := hi - 1;
      JoinedStep(s1, s2, offset, maps, hi);
      JoinedLength(s1, s2, offset, maps, i);
      ComparedStep(s1, s2, offset, maps, hi);
      CardinalityStep(ComparedBelow(s1, s2, offset, maps, i), ComparedBelow(s1, s2, offset, maps, hi), i);
    }
  }

  /** The joined strings agree exactly at the identical compared positions. */
  lemma {:induction false} JoinedIdentical(s1: string, s2: string, offset: int, maps: Maps, hi: int)
    requires MapsFit(s1, s2, maps)
    requires Max(0, offset) <= hi <= LoopEnd(s1, s2, offset)
    requires Joined(s1, s2, offset, maps, hi).Ok?
    ensures
      var j := Joined(s1, s2, offset, maps, hi).value;
      CountEqual(j.0, j.1) == |IdenticalBelow(s1, s2, offset, maps, hi)|
    decreases hi
  {
    if hi == Max(0, offset) {
      assert IdenticalBelow(s1, s2, offset, maps, hi) == {};
    } else {
      var i := hi - 1;
      JoinedStep(s1, s2, offset, maps, hi);
      JoinedIdentical(s1, s2, offset, maps, i);
      ComparedStep(s1, s2, offset, maps, hi);
      CardinalityStep(IdenticalBelow(s1, s2, offset, maps, i), IdenticalBelow(s1, s2, offset, maps, hi), i);
      var p := Joined(s1, s2, offset, maps, i).value;
      if Compared(s1, s2, offset, maps, i) {
        var q := (p.0 + [s1[i]], p.1 + [s2[i - offset]]);
        assert q.0[..|q.0| - 1] == p.0 && q.1[..|q.1| - 1] == p.1;
      }
    }
  }

  /** `score` as a whole, stated on positions: `identical` counts compared
      positions with equal bases, every other overlap position (masked out or
      not) counts as different, gaps are the bases outside the overlap, and a
      non-negative mutation threshold turns too many differences into NO_SCORE. */
  lemma ScoreFormula(cfg: Config, s1: string, s2: string, offset: int, maps: Maps)
    requires MapsFit(s1, s2, maps)
    ensures
      var end := LoopEnd(s1, s2, offset);
      var overlapLength := Overlap(s1, s2, offset);
      var identical := |IdenticalBelow(s1, s2, offset, maps, end)|;
      var different := overlapLength - identical;
      ScoreOf(cfg, s1, s2, offset, maps) ==
        if exists i :: Max(0, offset) <= i < end && MaskLookupFails(s1, s2, offset, maps, i)
        then Err(IndexError)
        else if cfg.mutationThreshold >= 0 && different > cfg.mutationThreshold then Ok(NoScore)
        else Ok(Scored(identical * cfg.identicalScore + different * cfg.differentScore
                       + (Max(|s1|, |s2| + offset) - overlapLength) * cfg.gapScore))
  {
    var end := LoopEnd(s1, s2, offset);
    JoinedFails(s1, s2, offset, maps, end);
    var j := Joined(s1, s2, offset, maps, end);
    if j.Err? {
      JoinedErrIsIndexError(s1, s2, offset, maps, end);
    } else {
      JoinedIdentical(s1, s2, offset, maps, end);
    }
  }

  lemma {:induction false} JoinedErrIsIndexError(s1: string, s2: string, offset: int, maps: Maps, hi: int)
    requires MapsFit(s1, s2, maps)
    requires Max(0, offset) <= hi <= LoopEnd(s1, s2, offset)
    ensures Joined(s1, s2, offset, maps, hi).Err? ==> Joined(s1, s2, offset, maps, hi).error == IndexError
    decreases hi
  {
    if hi > Max(0, offset) {
      JoinedErrIsIndexError(s1, s2, offset, maps, hi - 1);
    }
  }

  /** Compared positions never outnumber the overlap, so `different` is at
      least the number of masked-out overlap positions. */
  lemma MaskedCountAsDifferent(s1: string, s2: string, offset: int, maps: Maps)
    requires MapsFit(s1, s2, maps)
    requires Overlap(s1, s2, offset) >= 0
    ensures
      var end := LoopEnd(s1, s2, offset);
      |IdenticalBelow(s1, s2, offset, maps, end)| <= |ComparedBelow(s1, s2, offset, maps, end)| <= Overlap(s1, s2, offset)
  {
    var end := LoopEnd(s1, s2, offset);
    var lo := Max(0, offset);
    var c := ComparedBelow(s1, s2, offset, maps, end);
    var d := IdenticalBelow(s1, s2, offset, maps, end);
    assert d <= c;
    assert c <= Interval(lo, end);
    SubsetCardinality(d, c);
    SubsetCardinality(c, Interval(lo, end));
  }

  /** Aligning a sequence with itself at offset 0 without masks scores every
      base as identical. */
  lemma ScoreSelf(cfg: Config, s: string)
    ensures ScoreOf(cfg, s, s, 0, (None, None)) == Ok(Scored(|s| * cfg.identicalScore))
  {
    var end := LoopEnd(s, s, 0);
    assert end == |s| && OverlapRegion(s, s, 0) == (0, |s|);
    var j := Joined(s, s, 0, (None, None), end);
    assert j == Ok((s, s)) by {
      if |s| > 0 {
        JoinedUnmasked(s, s, 0, |s|);
        assert s[0..|s|] == s;
      }
    }
    assert CountEqual(s, s) == |s|;
    assert Max(|s|, |s| + 0) - |s| == 0;
    assert |s| * cfg.identicalScore + 0 * cfg.differentScore + 0 * cfg.gapScore == |s| * cfg.identicalScore;
  }

  /** `score`: builds the joined strings of compared bases in a loop and applies
      the score formula. */
  method Score(cfg: Config, s1: string, s2: string, offset: int, maps: Maps) returns (r: Result<AlignScore>)
    requires MapsFit(s1, s2, maps)
    ensures r == ScoreOf(cfg, s1, s2, offset, maps)
  {
    var region := OverlapRegion(s1, s2, offset);
    var start, end := region.0, region.1;
    var overlapLength := end - start;
    var joined1, joined2 := "", "";
    var i := start;
    while i < end
      invariant start <= i <= LoopEnd(s1, s2, offset)
      invariant Joined(s1, s2, offset, maps, i) == Ok((joined1, joined2))
    {
      var use := maps.0.None? || maps.0.value[i];
      if use && maps.1.Some? {
        var m := PyIndex(maps.1.value, i + offset);
        if m.None? {
          assert MaskLookupFails(s1, s2, offset, maps, i);
          JoinedErrStays(s1, s2, offset, maps, i + 1, LoopEnd(s1, s2, offset));
          JoinedErrIsIndexError(s1, s2, offset, maps, LoopEnd(s1, s2, offset));
          return Err(IndexError);
        }
        use := m.value;
      }
      assert !MaskLookupFails(s1, s2, offset, maps, i);
      assert use == Compared(s1, s2, offset, maps, i);
      if use {
        joined1 := joined1 + [s1[i]];
        joined2 := joined2 + [s2[i - offset]];
      }
      i := i + 1;
    }
    assert i == LoopEnd(s1, s2, offset);
    var identical := CountEqual(joined1, joined2);
    var different := overlapLength - identical;
    if cfg.mutationThreshold >= 0 && different > cfg.mutationThreshold {
      return Ok(NoScore);
    }
    var gaps := Max(|s1|, |s2| + offset) - overlapLength;
    r := Ok(Scored(identical * cfg.identicalScore + different * cfg.differentScore + gaps * cfg.gapScore));
  }

  lemma {:induction false} JoinedErrStays(s1: string, s2: string, offset: int, maps: Maps, hi: int, hi': int)
    requires MapsFit(s1, s2, maps)
    requires Max(0, offset) <= hi <= hi' <= LoopEnd(s1, s2, offset)
    requires Joined(s1, s2, offset, maps, hi).Err?
    ensures Joined(s1, s2, offset, maps, hi').Err?
    decreases hi' - hi
  {
    if hi < hi' {
      JoinedErrStays(s1, s2, offset, maps, hi, hi' - 1);
    }
  }

  // ---------------------------------------------------------------------------
  // align

  /** First offset `align` tries (before an optional reversal). */
  function ScanStart(s2: string, unidirectional: bool): int {
    if unidirectional then 0 else -|s2| + 1
  }

  /** The offsets `align` visits, in visiting order. */
  function ScanOrder(s1: string, s2: string, unidirectional: bool, reverse: bool): (r: seq<int>)
    ensures forall o :: o in r <==> ScanStart(s2, unidirectional) <= o < |s1|
    ensures forall k, k' :: 0 <= k < k' < |r| ==> if reverse then r[k] > r[k'] else r[k] < r[k']
  {
    var lo := ScanStart(s2, unidirectional);
    var n := Max(0, |s1| - lo);
    var r := seq(n, k => if reverse then |s1| - 1 - k else lo + k);
    assert forall o :: lo <= o < |s1| ==> o in r by {
      forall o | lo <= o < |s1| ensures o in r {
        var k := if reverse then |s1| - 1 - o else o - lo;
        assert r[k] == o;
      }
    }
    r
  }

  /** What one scan step needs: the scorer and the overlap bounds. */
  datatype Scorer = Scorer(cfg: Config, s1: string, s2: string, maps: Maps, minOverlap: int, maxOverlap: int) {
    predicate Valid() { MapsFit(s1, s2, maps) }

    /** `align` does not skip this offset. */
    predicate Admits(offset: int) {
      var overlap := Overlap(s1, s2, offset);
      !((minOverlap >= 0 && overlap < minOverlap) || (maxOverlap >= 0 && overlap > maxOverlap))
    }

    function ScoreAt(offset: int): Result<AlignScore>
      requires Valid()
    {
      ScoreOf(cfg, s1, s2, offset, maps)
    }
  }

  /** The scan loop of `align` over the remaining `offsets`, from the best
      `(offset, score)` seen so far. */
  function Scan(sc: Scorer, offsets: seq<int>, best: (int, AlignScore)): Result<(int, AlignScore)>
    requires sc.Valid()
    decreases |offsets|
  {
    if offsets == [] then Ok(best)
    else if !sc.Admits(offsets[0]) then Scan(sc, offsets[1..], best)
    else
      match sc.ScoreAt(offsets[0])
      case Err(e) => Err(e)
      case Ok(s) => Scan(sc, offsets[1..], if Beats(s, best.1) then (offsets[0], s) else best)
  }

  /** The scoring masks `align` builds from the scoring ranges. */
  function MapsOf(s1: string, s2: string, ranges: (Option<seq<Range>>, Option<seq<Range>>)): (r: Result<Maps>)
    ensures r.Ok? ==> MapsFit(s1, s2, r.value)
    ensures ranges.1.None? ==> r.Ok? ==> r.value.1.None?
  {
    if ranges.0.Some? && !RangesFit(|s1|, ranges.0.value) then Err(IndexError)
    else if ranges.1.Some? && !RangesFit(|s2|, ranges.1.value) then Err(IndexError)
    else
      Ok((if ranges.0.Some? then Some(Mask(|s1|, ranges.0.value)) else None,
          if ranges.1.Some? then Some(Mask(|s2|, ranges.1.value)) else None))
  }

  /** The value `align` returns (or the error it raises). */
  function AlignOf(cfg: Config, s1: string, s2: string, minOverlap: int, maxOverlap: int,
                   unidirectional: bool, reverse: bool,
                   ranges: (Option<seq<Range>>, Option<seq<Range>>)): Result<(int, AlignScore)>
  {
    match MapsOf(s1, s2, ranges)
    case Err(e) => Err(e)
    case Ok(maps) =>
      Scan(Scorer(cfg, s1, s2, maps, minOverlap, maxOverlap),
           ScanOrder(s1, s2, unidirectional, reverse), (0, NoScore))
  }

  /** One pass of the search loop of `align`: skips `offset` when it is
      outside the overlap bounds, otherwise scores it and keeps it when it
      beats the best so far. */
  method ScanAt(sc: Scorer, offset: int, best: (int, AlignScore), ghost offsets: seq<int>)
    returns (r: Result<(int, AlignScore)>)
    requires sc.Valid() && offsets != [] && offsets[0] == offset
    ensures r.Err? ==> Scan(sc, offsets, best) == Err(r.error)
    ensures r.Ok? ==> Scan(sc, offsets, best) == Scan(sc, offsets[1..], r.value)
  {
    var overlap := Overlap(sc.s1, sc.s2, offset);
    if (sc.minOverlap >= 0 && overlap < sc.minOverlap) || (sc.maxOverlap >= 0 && overlap > sc.maxOverlap) {
      return Ok(best);
    }
    var score := Score(sc.cfg, sc.s1, sc.s2, offset, sc.maps);
    if score.Err? { return Err(score.error); }
    if score.value != NoScore && Beats(score.value, best.1) {
      return Ok((offset, score.value));
    }
    return Ok(best);
  }

  /** `align`: scans every offset in order, skipping those outside the overlap
      bounds, and keeps the first offset of strictly maximal score. */
  method Align(cfg: Config, s1: string, s2: string, minOverlap: int, maxOverlap: int,
               unidirectional: bool, reverse: bool,
               ranges: (Option<seq<Range>>, Option<seq<Range>>))
    returns (r: Result<(int, AlignScore)>)
    ensures r == AlignOf(cfg, s1, s2, minOverlap, maxOverlap, unidirectional, reverse, ranges)
  {
    var lo := ScanStart(s2, unidirectional);
    var n := Max(0, |s1| - lo);
    ghost var order := ScanOrder(s1, s2, unidirectional, reverse);

    var bestOffset, bestScore := 0, NoScore;
    var maps: Maps := (None, None);
    if ranges.0.Some? {
      var m := ScoringMap(|s1|, ranges.0.value);
      if m.Err? { return Err(m.error); }
      maps := (Some(m.value), maps.1);
    }
    if ranges.1.Some? {
      var m := ScoringMap(|s2|, ranges.1.value);
      if m.Err? { return Err(m.error); }
      maps := (maps.0, Some(m.value));
    }
    assert MapsOf(s1, s2, ranges) == Ok(maps);
    var sc := Scorer(cfg, s1, s2, maps, minOverlap, maxOverlap);

    var k := 0;
    while k < n
      invariant 0 <= k <= n == |order|
      invariant Scan(sc, order, (0, NoScore)) == Scan(sc, order[k..], (bestOffset, bestScore))
    {
      var offset := if reverse then |s1| - 1 - k else lo + k;
      assert order[k..][0] == offset && order[k..][1..] == order[k + 1..];
      var step := ScanAt(sc, offset, (bestOffset, bestScore), order[k..]);
      if step.Err? { return Err(step.error); }
      bestOffset, bestScore := step.value.0, step.value.1;
      k := k + 1;
    }
    r := Ok((bestOffset, bestScore));
  }

  /** Offset `order[k]` is the winner `res`: admitted, scored `res.1`, and
      strictly better than every admitted offset scanned before it. */
  ghost predicate WinsAt(sc: Scorer, order: seq<int>, k: int, res: (int, AlignScore))
    requires sc.Valid()
  {
    && 0 <= k < |order| && order[k] == res.0 && res.1.Scored?
    && sc.Admits(res.0) && sc.ScoreAt(res.0) == Ok(res.1)
    && forall k' :: 0 <= k' < k && sc.Admits(order[k']) && sc.ScoreAt(order[k']).Ok? ==>
         Beats(res.1, sc.ScoreAt(order[k']).value)
  }

  /** The scan keeps a maximum: no admitted offset beats its result, and the
      result is either the starting value or the first offset attaining it. */
  lemma {:induction false} ScanIsFirstMaximum(sc: Scorer, order: seq<int>, best: (int, AlignScore))
    requires sc.Valid() && Scan(sc, order, best).Ok?
    ensures var res := Scan(sc, order, best).value;
      && (forall k :: 0 <= k < |order| && sc.Admits(order[k]) ==>
            sc.ScoreAt(order[k]).Ok? && !Beats(sc.ScoreAt(order[k]).value, res.1))
      && !Beats(best.1, res.1)
      && (res == best || (Beats(res.1, best.1) && exists k :: WinsAt(sc, order, k, res)))
    decreases |order|
  {
    if order != [] {
      var o := order[0];
      var rest := order[1..];
      var res := Scan(sc, order, best).value;
      if !sc.Admits(o) {
        ScanIsFirstMaximum(sc, rest, best);
        assert forall k :: 1 <= k < |order| ==> order[k] == rest[k - 1];
        if res != best {
          var k :| WinsAt(sc, rest, k, res);
          assert WinsAt(sc, order, k + 1, res);
        }
      } else {
        var s := sc.ScoreAt(o).value;
        var best' := if Beats(s, best.1) then (o, s) else best;
        ScanIsFirstMaximum(sc, rest, best');
        assert forall k :: 1 <= k < |order| ==> order[k] == rest[k - 1];
        if res == best' {
          if Beats(s, best.1) {
            assert WinsAt(sc, order, 0, res);
          }
        } else {
          var k :| WinsAt(sc, rest, k, res);
          assert WinsAt(sc, order, k + 1, res);
        }
      }
    }
  }

  /** `align` returns a score at least that of every admitted offset, the first
      offset in scan order attaining it, and `(0, NO_SCORE)` when no admitted
      offset has a score. */
  lemma AlignIsFirstMaximum(cfg: Config, s1: string, s2: string, minOverlap: int, maxOverlap: int,
                            unidirectional: bool, reverse: bool,
                            ranges: (Option<seq<Range>>, Option<seq<Range>>))
    requires AlignOf(cfg, s1, s2, minOverlap, maxOverlap, unidirectional, reverse, ranges).Ok?
    ensures MapsOf(s1, s2, ranges).Ok?
    ensures
      var res := AlignOf(cfg, s1, s2, minOverlap, maxOverlap, unidirectional, reverse, ranges).value;
      var sc := Scorer(cfg, s1, s2, MapsOf(s1, s2, ranges).value, minOverlap, maxOverlap);
      var order := ScanOrder(s1, s2, unidirectional, reverse);
      && (forall k :: 0 <= k < |order| && sc.Admits(order[k]) ==>
            sc.ScoreAt(order[k]).Ok? && !Beats(sc.ScoreAt(order[k]).value, res.1))
      && (res.1.NoScore? ==> res.0 == 0)
      && (res.1.Scored? ==> exists k :: WinsAt(sc, order, k, res))
  {
    var sc := Scorer(cfg, s1, s2, MapsOf(s1, s2, ranges).value, minOverlap, maxOverlap);
    ScanIsFirstMaximum(sc, ScanOrder(s1, s2, unidirectional, reverse), (0, NoScore));
  }

  /** Tie-break of `align`: scanning forward, no admitted offset below the
      returned one reaches its score; scanning in reverse, none above it. */
  lemma AlignTieBreak(cfg: Config, s1: string, s2: string, minOverlap: int, maxOverlap: int,
                      unidirectional: bool, reverse: bool,
                      ranges: (Option<seq<Range>>, Option<seq<Range>>), other: int)
    requires AlignOf(cfg, s1, s2, minOverlap, maxOverlap, unidirectional, reverse, ranges).Ok?
    requires ScanStart(s2, unidirectional) <= other < |s1|
    ensures MapsOf(s1, s2, ranges).Ok?
    ensures
      var res := AlignOf(cfg, s1, s2, minOverlap, maxOverlap, unidirectional, reverse, ranges).value;
      var sc := Scorer(cfg, s1, s2, MapsOf(s1, s2, ranges).value, minOverlap, maxOverlap);
      res.1.Scored? && sc.Admits(other) && sc.ScoreAt(other) == Ok(res.1) ==>
        if reverse then other <= res.0 else res.0 <= other
  {
    var res := AlignOf(cfg, s1, s2, minOverlap, maxOverlap, unidirectional, reverse, ranges).value;
    var sc := Scorer(cfg, s1, s2, MapsOf(s1, s2, ranges).value, minOverlap, maxOverlap);
    var order := ScanOrder(s1, s2, unidirectional, reverse);
    AlignIsFirstMaximum(cfg, s1, s2, minOverlap, maxOverlap, unidirectional, reverse, ranges);
    if res.1.Scored? && sc.Admits(other) && sc.ScoreAt(other) == Ok(res.1) {
      var k :| WinsAt(sc, order, k, res);
      assert other in order;
      var k' :| 0 <= k' < |order| && order[k'] == other;
      assert !Beats(res.1, res.1);
      assert k <= k';
    }
  }

  /** Without a mask for the second sequence, scanning never raises. */
  lemma {:induction false} ScanOkWithoutSecondMask(sc: Scorer, order: seq<int>, best: (int, AlignScore))
    requires sc.Valid() && sc.maps.1.None?
    ensures Scan(sc, order, best).Ok?
    decreases |order|
  {
    if order != [] {
      ScanOrderStep(sc, order, best);
      var best' := if sc.Admits(order[0]) && Beats(sc.ScoreAt(order[0]).value, best.1)
                   then (order[0], sc.ScoreAt(order[0]).value) else best;
      ScanOkWithoutSecondMask(sc, order[1..], best');
    }
  }

  lemma ScanOrderStep(sc: Scorer, order: seq<int>, best: (int, AlignScore))
    requires sc.Valid() && sc.maps.1.None? && order != []
    ensures sc.ScoreAt(order[0]).Ok?
    ensures Scan(sc, order, best) ==
      Scan(sc, order[1..], if sc.Admits(order[0]) && Beats(sc.ScoreAt(order[0]).value, best.1)
                           then (order[0], sc.ScoreAt(order[0]).value) else best)
  {
    var o := order[0];
    JoinedFails(sc.s1, sc.s2, o, sc.maps, LoopEnd(sc.s1, sc.s2, o));
  }

  /** `align` only raises through a scoring range outside its sequence or a
      lookup of the second mask; without scoring ranges it always returns. */
  lemma AlignWithoutRangesReturns(cfg: Config, s1: string, s2: string, minOverlap: int, maxOverlap: int,
                                  unidirectional: bool, reverse: bool)
    ensures AlignOf(cfg, s1, s2, minOverlap, maxOverlap, unidirectional, reverse, (None, None)).Ok?
  {
    ScanOkWithoutSecondMask(Scorer(cfg, s1, s2, (None, None), minOverlap, maxOverlap),
                            ScanOrder(s1, s2, unidirectional, reverse), (0, NoScore));
  }

  // ---------------------------------------------------------------------------
  // best_alignment

  /** The alignment of candidate `i` (as `sequence_1`) against the target (as
      `sequence_2`), with the candidate's scoring ranges and none for the target. */
  function CandidateAlignment(cfg: Config, target: string, candidates: seq<string>,
                              candidateRanges: Option<seq<Option<seq<Range>>>>,
                              minOverlap: int, maxOverlap: int, unidirectional: bool, reverse: bool,
                              i: nat): Result<(int, AlignScore)>
    requires i < |candidates|
  {
    if candidateRanges.Some? && i >= |candidateRanges.value| then Err(IndexError)
    else
      var ranges := if candidateRanges.Some? then candidateRanges.value[i] else None;
      AlignOf(cfg, candidates[i], target, minOverlap, maxOverlap, unidirectional, reverse, (ranges, None))
  }

  /** The alignment of every candidate, in order. */
  function Alignments(cfg: Config, target: string, candidates: seq<string>,
                      candidateRanges: Option<seq<Option<seq<Range>>>>,
                      minOverlap: int, maxOverlap: int, unidirectional: bool, reverse: bool)
    : (r: seq<Result<(int, AlignScore)>>)
    ensures |r| == |candidates|
    ensures forall i :: 0 <= i < |candidates| ==>
      r[i] == CandidateAlignment(cfg, target, candidates, candidateRanges, minOverlap, maxOverlap, unidirectional, reverse, i)
  {
    seq(|candidates|, i requires 0 <= i < |candidates| =>
      CandidateAlignment(cfg, target, candidates, candidateRanges, minOverlap, maxOverlap, unidirectional, reverse, i))
  }

  /** The list comprehension of `best_alignment`: the values of the first `n`
      results, or the first error raised among them. */
  function Collect<A>(results: seq<Result<A>>, n: nat): (r: Result<seq<A>>)
    requires n <= |results|
    ensures r.Ok? <==> forall i :: 0 <= i < n ==> results[i].Ok?
    ensures r.Ok? ==> |r.value| == n && forall i :: 0 <= i < n ==> results[i] == Ok(r.value[i])
    ensures r.Err? ==> exists i :: 0 <= i < n && results[i] == Err(r.error) &&
                                   forall j :: 0 <= j < i ==> results[j].Ok?
  {
    if n == 0 then Ok([])
    else
      match Collect(results, n - 1)
      case Err(e) => Err(e)
      case Ok(prefix) =>
        match results[n - 1]
        case Err(e) => Err(e)
        case Ok(a) => Ok(prefix + [a])
  }

  /** `max(results, key=score)` over the first `n` results: the first index
      of maximal score. */
  function FirstMaximum(results: seq<(int, AlignScore)>, n: nat): (m: nat)
    requires 0 < n <= |results|
    ensures m < n
    ensures forall j :: 0 <= j < n ==> !Beats(results[j].1, results[m].1)
    ensures forall j :: 0 <= j < m ==> Beats(results[m].1, results[j].1)
  {
    if n == 1 then 0
    else
      var m := FirstMaximum(results, n - 1);
      if Beats(results[n - 1].1, results[m].1) then n - 1 else m
  }

  /** The choice `best_alignment` makes among the candidates' results: the
      first error raised, `ValueError` when there are none, otherwise
      `(index, offset, score)` of the lowest index of highest score. */
  function BestOf(alignments: seq<Result<(int, AlignScore)>>): (r: Result<(nat, int, AlignScore)>)
    ensures |alignments| == 0 ==> r == Err(ValueError)
    ensures r.Ok? <==> |alignments| > 0 && forall i :: 0 <= i < |alignments| ==> alignments[i].Ok?
    ensures r.Ok? ==>
      var best := r.value.0;
      && best < |alignments|
      && alignments[best] == Ok((r.value.1, r.value.2))
      && (forall i :: 0 <= i < |alignments| ==> !Beats(alignments[i].value.1, r.value.2))
      && (forall i :: 0 <= i < best ==> Beats(r.value.2, alignments[i].value.1))
  {
    match Collect(alignments, |alignments|)
    case Err(e) => Err(e)
    case Ok(results) =>
      if |results| == 0 then Err(ValueError)
      else
        var m := FirstMaximum(results, |results|);
        Ok((m, results[m].0, results[m].1))
  }

  /** `best_alignment`: `(index, offset, score)` of the lowest-index candidate
      whose alignment against the target scores highest. */
  function BestAlignment(cfg: Config, target: string, candidates: seq<string>,
                         candidateRanges: Option<seq<Option<seq<Range>>>>,
                         minOverlap: int, maxOverlap: int, unidirectional: bool, reverse: bool)
    : (r: Result<(nat, int, AlignScore)>)
    ensures |candidates| == 0 ==> r == Err(ValueError)
    ensures var alignments := Alignments(cfg, target, candidates, candidateRanges, minOverlap, maxOverlap, unidirectional, reverse);
      && (r.Ok? <==> |candidates| > 0 && forall i :: 0 <= i < |candidates| ==> alignments[i].Ok?)
      && (r.Ok? ==>
            && r.value.0 < |candidates|
            && alignments[r.value.0] == Ok((r.value.1, r.value.2))
            && (forall i :: 0 <= i < |candidates| ==> !Beats(alignments[i].value.1, r.value.2))
            && (forall i :: 0 <= i < r.value.0 ==> Beats(r.value.2, alignments[i].value.1)))
  {
    BestOf(Alignments(cfg, target, candidates, candidateRanges, minOverlap, maxOverlap, unidirectional, reverse))
  }
}
