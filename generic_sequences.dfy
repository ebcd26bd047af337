/** Extraction of the "generic sequence" of a read in count_sequences.py:
    either the bases at fixed positions (`get_generic_sequence_by_position`)
    or the bases a template marks as variable once the template is aligned to
    the read (`get_generic_sequence_by_alignment`). Bases between the
    extracted pieces become GENERIC_SEQUENCE_TOKEN ('.'). */
module GenericSequences {
  import opened Common
  import opened Aligner
  import opened AlignerLayout

  /** A read is discarded when its alignment score falls more than this below
      the number of anchor bases of the template. */
  const DiscardThreshold: int := 2

  /** One counting task: a fixed position range, or a template with its
      output template. */
  datatype MatchTask =
    | ByPosition(start: int, end: int)
    | ByAlignment(template: string, outputTemplate: string)

  /** The tasks the script counts by: one template of 31 characters whose
      every position is exported. */
  const SortingTasks: seq<MatchTask> :=
    [ByAlignment("*********CCT***GAA*********CCGG", Repeat(VariableRegionToken, 31))]

  lemma SortingTasksShape()
    ensures |SortingTasks| == 1
    ensures |SortingTasks[0].template| == |SortingTasks[0].outputTemplate| == 31
    ensures forall k :: 0 <= k < 31 ==> SortingTasks[0].outputTemplate[k] == VariableRegionToken
  {
  }

  // ---------------------------------------------------------------------------
  // get_generic_sequence_by_position

  /** Python's `s[a:b]` for indices already inside the string: empty when the
      range is reversed. */
  function PySlice(s: string, a: int, b: int): (r: string)
    requires 0 <= a <= |s| && 0 <= b <= |s|
    ensures |r| == Max(0, b - a)
    ensures a < b ==> r == s[a..b]
  {
    if a < b then s[a..b] else []
  }

  /** The ranges with both ends taken modulo the sequence length (Python's
      `%`, which for a positive divisor agrees with Dafny's). */
  function Normalize(length: int, ranges: seq<Range>): (r: seq<Range>)
    requires length > 0
    ensures |r| == |ranges|
    ensures forall k :: 0 <= k < |r| ==>
      r[k] == (ranges[k].0 % length, ranges[k].1 % length) && 0 <= r[k].0 < length && 0 <= r[k].1 < length
  {
    seq(|ranges|, k requires 0 <= k < |ranges| => (ranges[k].0 % length, ranges[k].1 % length))
  }

  /** Python's tuple order on ranges. */
  predicate RangeLe(a: Range, b: Range) {
    a.0 < b.0 || (a.0 == b.0 && a.1 <= b.1)
  }

  predicate SortedRanges(rs: seq<Range>) {
    forall i, j :: 0 <= i < j < |rs| ==> RangeLe(rs[i], rs[j])
  }

  /** Inserts `x` before the first range it precedes. */
  function Insert(x: Range, rs: seq<Range>): (r: seq<Range>)
    requires SortedRanges(rs)
    ensures SortedRanges(r)
    ensures multiset(r) == multiset(rs) + multiset{x}
    ensures forall y :: y in r <==> y == x || y in rs
    ensures |r| == |rs| + 1
  {
    if rs == [] then [x]
    else if RangeLe(x, rs[0]) then [x] + rs
    else
      var tail := Insert(x, rs[1..]);
      assert rs == [rs[0]] + rs[1..];
      assert forall y :: y in tail ==> RangeLe(rs[0], y);
      [rs[0]] + tail
  }

  /** Python's `sorted` on a list of ranges. */
  function SortRanges(rs: seq<Range>): (r: seq<Range>)
    ensures SortedRanges(r)
    ensures multiset(r) == multiset(rs)
    ensures forall y :: y in r <==> y in rs
    ensures |r| == |rs|
  {
    if rs == [] then []
    else
      assert rs == rs[..|rs| - 1] + [rs[|rs| - 1]];
      Insert(rs[|rs| - 1], SortRanges(rs[..|rs| - 1]))
  }

  /** There is only one sorted arrangement of a list of ranges, so the model
      of `sorted` is Python's. */
  lemma {:induction false} SortedUnique(a: seq<Range>, b: seq<Range>)
    requires SortedRanges(a) && SortedRanges(b) && multiset(a) == multiset(b)
    ensures a == b
    decreases |a|
  {
    assert |b| == |a| by {
      assert |multiset(a)| == |a| && |multiset(b)| == |b|;
    }
    if a != [] {
      SortedHeads(a, b);
      TailMultiset(a);
      TailMultiset(b);
      SortedUnique(a[1..], b[1..]);
      assert a == [a[0]] + a[1..] && b == [b[0]] + b[1..];
    }
  }

  /** Two sorted arrangements of one multiset start alike. */
  lemma SortedHeads(a: seq<Range>, b: seq<Range>)
    requires SortedRanges(a) && SortedRanges(b) && multiset(a) == multiset(b) && |a| > 0
    ensures |b| > 0 && a[0] == b[0]
  {
    assert a[0] in multiset(b);
    assert b[0] in multiset(a);
    var i :| 0 <= i < |b| && b[i] == a[0];
    var j :| 0 <= j < |a| && a[j] == b[0];
    assert RangeLe(a[0], a[j]) && RangeLe(b[0], b[i]);
  }

  lemma TailMultiset(a: seq<Range>)
    requires |a| > 0
    ensures multiset(a[1..]) == multiset(a) - multiset{a[0]}
  {
    assert a == [a[0]] + a[1..];
  }

  /** Every range lies inside a string of `length`. */
  predicate InBounds(length: int, rs: seq<Range>) {
    forall k :: 0 <= k < |rs| ==> 0 <= rs[k].0 < length && 0 <= rs[k].1 < length
  }

  /** `(ret, ret_start)` of the extraction loops. */
  type Extraction = (string, int)

  /** One iteration of the loop over ranges: the first piece fixes
      `ret_start`; a later piece is preceded by '.' up to its distance from
      `ret_start`. */
  function PositionStep(s: string, st: Extraction, rg: Range): Extraction
    requires 0 <= rg.0 < |s| && 0 <= rg.1 < |s|
  {
    if |st.0| == 0 then (PySlice(s, rg.0, rg.1), rg.0)
    else (st.0 + Repeat(GenericSequenceToken, rg.0 - st.1 - |st.0|) + PySlice(s, rg.0, rg.1), st.1)
  }

  /** The loop over ranges, from `("", 0)`. */
  function PositionFold(s: string, rs: seq<Range>): Extraction
    requires InBounds(|s|, rs)
  {
    if rs == [] then ([], 0)
    else PositionStep(s, PositionFold(s, rs[..|rs| - 1]), rs[|rs| - 1])
  }

  /** The ranges as the loop sees them: normalised, then sorted. */
  function NormalizedSorted(s: string, matchRanges: seq<Range>): (r: seq<Range>)
    requires |s| > 0
    ensures InBounds(|s|, r) && SortedRanges(r) && |r| == |matchRanges|
    ensures multiset(r) == multiset(Normalize(|s|, matchRanges))
  {
    var r := SortRanges(Normalize(|s|, matchRanges));
    assert forall k :: 0 <= k < |r| ==> r[k] in Normalize(|s|, matchRanges);
    r
  }

  lemma ModOfIndex(a: int, n: int)
    requires 0 <= a < n
    ensures a % n == a
  {
  }

  /** Both ranges of a single-range task after normalising and sorting. */
  lemma NormalizedSingle(s: string, rg: Range)
    requires |s| > 0
    ensures NormalizedSorted(s, [rg]) == [(rg.0 % |s|, rg.1 % |s|)]
  {
    var r := NormalizedSorted(s, [rg]);
    var x := (rg.0 % |s|, rg.1 % |s|);
    assert Normalize(|s|, [rg]) == [x];
    assert r == [r[0]];
    assert multiset{r[0]} == multiset{x};
    assert r[0] in multiset{x};
  }

  /** `while len(ret) < width: ret += GENERIC_SEQUENCE_TOKEN`. */
  method PadWithGeneric(ret: string, width: int) returns (r: string)
    ensures r == ret + Repeat(GenericSequenceToken, width - |ret|)
  {
    r := ret;
    while |r| < width
      invariant r == ret + Repeat(GenericSequenceToken, |r| - |ret|)
      invariant |ret| <= |r| <= Max(|ret|, width)
      decreases width - |r|
    {
      r := r + [GenericSequenceToken];
    }
  }

  lemma PositionFoldStep(s: string, rs: seq<Range>, k: int)
    requires InBounds(|s|, rs) && 0 <= k < |rs|
    ensures PositionFold(s, rs[..k + 1]) == PositionStep(s, PositionFold(s, rs[..k]), rs[k])
  {
    assert rs[..k + 1][..k] == rs[..k];
  }

  /** The value `get_generic_sequence_by_position` returns, or the error. */
  function GenericByPositionOf(s: string, matchRanges: seq<Range>): Result<string> {
    if |matchRanges| == 0 then Ok([])
    else if |s| == 0 then Err(ZeroDivisionError)
    else Ok(PositionFold(s, NormalizedSorted(s, matchRanges)).0)
  }

  /** `get_generic_sequence_by_position`. */
  method GenericByPosition(s: string, matchRanges: seq<Range>) returns (r: Result<string>)
    ensures r == GenericByPositionOf(s, matchRanges)
  {
    if |matchRanges| == 0 {
      return Ok([]);
    }
    if |s| == 0 {
      return Err(ZeroDivisionError);
    }
    var ranges := NormalizedSorted(s, matchRanges);
    var ret, retStart := [], 0;
    for k := 0 to |ranges|
      invariant (ret, retStart) == PositionFold(s, ranges[..k])
    {
      PositionFoldStep(s, ranges, k);
      ret, retStart := AppendRange(s, ret, retStart, ranges[k].0, ranges[k].1);
    }
    assert ranges[..|ranges|] == ranges;
    r := Ok(ret);
  }

  /** The body of the loop over ranges: the first range starts the
      extraction, a later one is appended after padding up to its start. */
  method AppendRange(s: string, ret: string, retStart: int, start: int, end: int) returns (ret': string, retStart': int)
    requires 0 <= start < |s| && 0 <= end < |s|
    ensures (ret', retStart') == PositionStep(s, (ret, retStart), (start, end))
  {
    if |ret| == 0 {
      retStart' := start;
      ret' := PySlice(s, start, end);
    } else {
      retStart' := retStart;
      ret' := PadWithGeneric(ret, start - retStart);
      ret' := ret' + PySlice(s, start, end);
    }
  }

  /** A single range inside the sequence is sliced out as is. */
  lemma PositionSingle(s: string, start: int, end: int)
    requires 0 <= start <= end < |s|
    ensures GenericByPositionOf(s, [(start, end)]) == Ok(s[start..end])
  {
    NormalizedSingle(s, (start, end));
    ModOfIndex(start, |s|);
    ModOfIndex(end, |s|);
    assert NormalizedSorted(s, [(start, end)]) == [(start, end)];
    assert [(start, end)][..0] == [];
    assert PositionFold(s, [(start, end)]) == (PySlice(s, start, end), start);
    assert PySlice(s, start, end) == s[start..end];
  }

  /** An end equal to the length wraps to 0, so the slice is empty whatever
      the start. */
  lemma PositionEndAtLength(s: string, start: int)
    requires |s| > 0
    ensures GenericByPositionOf(s, [(start, |s|)]) == Ok([])
  {
    NormalizedSingle(s, (start, |s|));
    var a := start % |s|;
    assert |s| % |s| == 0;
    assert NormalizedSorted(s, [(start, |s|)]) == [(a, 0)];
    assert [(a, 0)][..0] == [];
    assert PositionFold(s, [(a, 0)]) == (PySlice(s, a, 0), a);
  }

  /** Ranges that are non-empty, in order and disjoint are laid out at their
      distance from the first start, with '.' in the gaps between them. */
  predicate Spaced(rs: seq<Range>) {
    && (forall k :: 0 <= k < |rs| ==> rs[k].0 < rs[k].1)
    && (forall k :: 0 <= k < |rs| - 1 ==> rs[k].1 <= rs[k + 1].0)
  }

  /** What the extraction holds at position `p`: the read's base when a
      range covers it, the generic token otherwise. */
  function Expected(s: string, rs: seq<Range>, p: int): (c: char)
    requires 0 <= p < |s|
    ensures c == s[p] || c == GenericSequenceToken
  {
    if CoveredBy(rs, p) then s[p] else GenericSequenceToken
  }

  /** Position `p` of the sequence lies in one of the ranges. */
  predicate CoveredBy(rs: seq<Range>, p: int) {
    exists k :: 0 <= k < |rs| && rs[k].0 <= p < rs[k].1
  }

  lemma {:induction false} PositionLayout(s: string, rs: seq<Range>)
    requires InBounds(|s|, rs) && Spaced(rs) && |rs| > 0
    ensures
      var st := PositionFold(s, rs);
      var first, last := rs[0].0, rs[|rs| - 1].1;
      && st.1 == first
      && |st.0| == last - first
      && forall p :: first <= p < last ==> st.0[p - first] == Expected(s, rs, p)
    decreases |rs|
  {
    if |rs| == 1 {
      LayoutSingle(s, rs);
    } else {
      var prefix := rs[..|rs| - 1];
      PositionLayout(s, prefix);
      LayoutExtend(s, rs, prefix, PositionFold(s, prefix));
    }
  }

  /** `PositionLayout` for one range: the piece itself. */
  lemma LayoutSingle(s: string, rs: seq<Range>)
    requires InBounds(|s|, rs) && |rs| == 1 && rs[0].0 < rs[0].1
    ensures
      var st := PositionFold(s, rs);
      && st.1 == rs[0].0
      && |st.0| == rs[0].1 - rs[0].0
      && forall p :: rs[0].0 <= p < rs[0].1 ==> st.0[p - rs[0].0] == Expected(s, rs, p)
  {
    var first, rg := rs[0].0, rs[0];
    var piece := PySlice(s, rg.0, rg.1);
    assert rs[..0] == [];
    assert PositionFold(s, rs) == (piece, first);
    forall p | first <= p < rg.1
      ensures piece[p - first] == Expected(s, rs, p)
    {
      assert CoveredBy(rs, p) by {
        assert rs[0].0 <= p < rs[0].1;
      }
    }
  }

  /** `PositionLayout` carried from all ranges but the last to all of them:
      `st0` is the extraction of the others. */
  lemma LayoutExtend(s: string, rs: seq<Range>, prefix: seq<Range>, st0: Extraction)
    requires InBounds(|s|, rs) && Spaced(rs) && |rs| >= 2 && prefix == rs[..|rs| - 1]
    requires st0.1 == prefix[0].0
    requires |st0.0| == prefix[|prefix| - 1].1 - prefix[0].0
    requires forall p :: prefix[0].0 <= p < prefix[|prefix| - 1].1 ==> st0.0[p - prefix[0].0] == Expected(s, prefix, p)
    ensures
      var st := PositionStep(s, st0, rs[|rs| - 1]);
      && st.1 == rs[0].0
      && |st.0| == rs[|rs| - 1].1 - rs[0].0
      && forall p :: rs[0].0 <= p < rs[|rs| - 1].1 ==> st.0[p - rs[0].0] == Expected(s, rs, p)
  {
    var n := |rs|;
    assert prefix[0] == rs[0] && prefix[|prefix| - 1] == rs[n - 2];
    SpacedOrder(rs, 0, n - 2);
    LayoutStep(s, rs, prefix, st0.0);
  }

  /** The step of `PositionLayout`: appending the last range to the layout
      of the others. */
  lemma LayoutStep(s: string, rs: seq<Range>, prefix: seq<Range>, ret0: string)
    requires InBounds(|s|, rs) && Spaced(rs) && |rs| >= 2 && prefix == rs[..|rs| - 1]
    requires |ret0| == rs[|rs| - 2].1 - rs[0].0
    requires forall p :: rs[0].0 <= p < rs[|rs| - 2].1 ==>
      ret0[p - rs[0].0] == Expected(s, prefix, p)
    ensures
      var first, rg := rs[0].0, rs[|rs| - 1];
      var ret := ret0 + Repeat(GenericSequenceToken, rg.0 - first - |ret0|) + PySlice(s, rg.0, rg.1);
      && |ret| == rg.1 - first
      && forall p :: first <= p < rg.1 ==> ret[p - first] == Expected(s, rs, p)
  {
    var n := |rs|;
    var first, rg := rs[0].0, rs[n - 1];
    var mid := rs[n - 2].1;
    var dots := Repeat(GenericSequenceToken, rg.0 - first - |ret0|);
    var piece := PySlice(s, rg.0, rg.1);
    var ret := ret0 + dots + piece;
    SpacedOrder(rs, n - 2, n - 1);
    assert |dots| == rg.0 - mid && |piece| == rg.1 - rg.0;
    forall p | first <= p < rg.1
      ensures ret[p - first] == Expected(s, rs, p)
    {
      LayoutAt(s, rs, prefix, ret0, p);
    }
  }

  /** `LayoutStep` at one position. */
  lemma LayoutAt(s: string, rs: seq<Range>, prefix: seq<Range>, ret0: string, p: int)
    requires InBounds(|s|, rs) && Spaced(rs) && |rs| >= 2 && prefix == rs[..|rs| - 1]
    requires |ret0| == rs[|rs| - 2].1 - rs[0].0
    requires forall q :: rs[0].0 <= q < rs[|rs| - 2].1 ==>
      ret0[q - rs[0].0] == Expected(s, prefix, q)
    requires rs[0].0 <= p < rs[|rs| - 1].1
    ensures
      var first, rg := rs[0].0, rs[|rs| - 1];
      var ret := ret0 + Repeat(GenericSequenceToken, rg.0 - first - |ret0|) + PySlice(s, rg.0, rg.1);
      ret[p - first] == Expected(s, rs, p)
  {
    var n := |rs|;
    var first, rg := rs[0].0, rs[n - 1];
    var mid := rs[n - 2].1;
    var dots := Repeat(GenericSequenceToken, rg.0 - first - |ret0|);
    var piece := PySlice(s, rg.0, rg.1);
    var ret := ret0 + dots + piece;
    SpacedOrder(rs, n - 2, n - 1);
    assert |dots| == rg.0 - mid && |piece| == rg.1 - rg.0;
    if p < mid {
      CoveredBeforeLast(rs, p);
      assert ret[p - first] == ret0[p - first] == Expected(s, prefix, p);
    } else if p < rg.0 {
      CoveredBeforeLast(rs, p);
      NotCoveredAfter(prefix, p);
      assert ret[p - first] == dots[p - mid];
    } else {
      assert ret[p - first] == piece[p - rg.0] == s[p];
      assert CoveredBy(rs, p) by {
        assert rs[n - 1].0 <= p < rs[n - 1].1;
      }
    }
  }

  /** Before the last range starts, the ranges cover what the others cover. */
  lemma CoveredBeforeLast(rs: seq<Range>, p: int)
    requires Spaced(rs) && |rs| >= 1 && p < rs[|rs| - 1].0
    ensures CoveredBy(rs, p) <==> CoveredBy(rs[..|rs| - 1], p)
  {
    var prefix := rs[..|rs| - 1];
    if CoveredBy(rs, p) {
      var k :| 0 <= k < |rs| && rs[k].0 <= p < rs[k].1;
      assert k < |rs| - 1;
      assert prefix[k] == rs[k];
    }
    if CoveredBy(prefix, p) {
      var k :| 0 <= k < |prefix| && prefix[k].0 <= p < prefix[k].1;
      assert rs[k] == prefix[k];
    }
  }

  /** No range covers a position past the end of the last one. */
  lemma NotCoveredAfter(rs: seq<Range>, p: int)
    requires Spaced(rs) && |rs| >= 1 && p >= rs[|rs| - 1].1
    ensures !CoveredBy(rs, p)
  {
    forall k | 0 <= k < |rs| ensures !(rs[k].0 <= p < rs[k].1) {
      SpacedOrder(rs, k, |rs| - 1);
    }
  }

  /** In spaced ranges, an earlier range ends before a later one starts. */
  lemma {:induction false} SpacedOrder(rs: seq<Range>, i: int, j: int)
    requires Spaced(rs) && 0 <= i <= j < |rs|
    ensures rs[i].1 <= rs[j].1
    ensures i < j ==> rs[i].1 <= rs[j].0
    decreases j - i
  {
    if i < j {
      SpacedOrder(rs, i, j - 1);
    }
  }

  /** Overlapping ranges are not trimmed: both pieces appear in full. */
  lemma PositionOverlapNotTrimmed()
    ensures GenericByPositionOf("ABCDEF", [(1, 4), (0, 3)]) == Ok("ABCBCD")
  {
    OverlapSorted("ABCDEF", [(1, 4), (0, 3)]);
    OverlapFold("ABCDEF", [(0, 3), (1, 4)]);
  }

  lemma OverlapSorted(s: string, given: seq<Range>)
    requires s == "ABCDEF" && given == [(1, 4), (0, 3)]
    ensures NormalizedSorted(s, given) == [(0, 3), (1, 4)]
  {
    var sorted: seq<Range> := [(0, 3), (1, 4)];
    var rs := NormalizedSorted(s, given);
    assert Normalize(6, given) == given by {
      var norm := Normalize(6, given);
      assert norm[0] == (1 % 6, 4 % 6) && norm[1] == (0 % 6, 3 % 6);
    }
    assert multiset(given) == multiset(sorted) by {
      assert given == [sorted[1]] + [sorted[0]];
    }
    SortedUnique(rs, sorted);
  }

  lemma OverlapFold(s: string, sorted: seq<Range>)
    requires s == "ABCDEF" && sorted == [(0, 3), (1, 4)]
    ensures PositionFold(s, sorted).0 == "ABCBCD"
  {
    var first: seq<Range> := sorted[..1];
    assert first == [(0, 3)];
    assert first[..0] == [];
    assert PySlice(s, 0, 3) == "ABC";
    assert PositionFold(s, first) == ("ABC", 0);
    assert sorted[..|sorted| - 1] == first;
    var piece := PySlice(s, 1, 4);
    assert piece == "BCD";
    var gap := Repeat(GenericSequenceToken, 1 - 0 - 3);
    assert gap == [];
    assert PositionFold(s, sorted) == ("ABC" + gap + piece, 0);
  }

  // ---------------------------------------------------------------------------
  // get_generic_sequence_by_alignment

  /** `Aligner(different_score=0)`. */
  const ExtractionConfig: Config := DefaultConfig.(differentScore := 0)

  /** Number of template characters that are anchor bases (not '.' or '*'). */
  function CountScored(template: string): (n: nat)
    ensures n <= |template|
  {
    if template == [] then 0
    else CountScored(template[..|template| - 1]) + if template[|template| - 1] in NonScoredTokens then 0 else 1
  }

  /** `score < num_matching_bases - DISCARD_THRESHOLD`, where NO_SCORE is
      below every number. */
  predicate Rejected(score: AlignScore, numMatching: int) {
    score.NoScore? || score.value < numMatching - DiscardThreshold
  }

  /** The alignment `get_generic_sequence_by_alignment` makes: the template as
      `sequence_2`, required to overlap by its full length. */
  function TemplateAlignment(s: string, template: string): Result<(int, AlignScore)> {
    AlignOf(ExtractionConfig, s, template, |template|, -1, false, false, (None, None))
  }

  /** One iteration of the walk over the aligned frame: a column where the
      output template holds '*' appends the read's base (a missing base is
      `str + None`, a TypeError); the first such column fixes `ret_start`,
      later ones are preceded by '.' up to their distance from it. */
  function AlignmentStep(st: Extraction, i: int, item: (Option<char>, Option<char>)): Result<Extraction> {
    if item.1 != Some(VariableRegionToken) then Ok(st)
    else if item.0.None? then Err(TypeError)
    else if |st.0| == 0 then Ok(([item.0.value], i))
    else Ok((st.0 + Repeat(GenericSequenceToken, i - st.1 - |st.0|) + [item.0.value], st.1))
  }

  /** The walk over the first `n` columns, from `("", 0)`. */
  function AlignmentFold(items: seq<(Option<char>, Option<char>)>, n: nat): Result<Extraction>
    requires n <= |items|
  {
    if n == 0 then Ok(([], 0))
    else
      match AlignmentFold(items, n - 1)
      case Err(e) => Err(e)
      case Ok(st) => AlignmentStep(st, n - 1, items[n - 1])
  }

  /** The value `get_generic_sequence_by_alignment` returns (`None` for a
      discarded read), or the error it raises. */
  function GenericByAlignmentOf(s: string, template: string, outputTemplate: string): Result<Option<string>> {
    match TemplateAlignment(s, template)
    case Err(e) => Err(e)
    case Ok(a) =>
      if Rejected(a.1, CountScored(template)) then Ok(None)
      else
        var items := PairColumns(s, outputTemplate, a.0);
        match AlignmentFold(items, |items|)
        case Err(e) => Err(e)
        case Ok(st) => Ok(Some(st.0))
  }

  /** `get_generic_sequence_by_alignment`. */
  method GenericByAlignment(s: string, template: string, outputTemplate: string) returns (r: Result<Option<string>>)
    ensures r == GenericByAlignmentOf(s, template, outputTemplate)
  {
    var aligned := Align(ExtractionConfig, s, template, |template|, -1, false, false, (None, None));
    if aligned.Err? {
      return Err(aligned.error);
    }
    var offset, score := aligned.value.0, aligned.value.1;
    var numMatching := CountScored(template);
    if Rejected(score, numMatching) {
      return Ok(None);
    }
    var items := Enumerate(s, outputTemplate, offset);
    var walked := WalkColumns(items);
    if walked.Err? {
      return Err(walked.error);
    }
    r := Ok(Some(walked.value.0));
  }

  /** The loop of `get_generic_sequence_by_alignment` over the aligned
      columns. */
  method WalkColumns(items: seq<(Option<char>, Option<char>)>) returns (r: Result<Extraction>)
    ensures r == AlignmentFold(items, |items|)
  {
    var ret, retStart := [], 0;
    for i := 0 to |items|
      invariant AlignmentFold(items, i) == Ok((ret, retStart))
    {
      ghost var next := AlignmentStep((ret, retStart), i, items[i]);
      assert AlignmentFold(items, i + 1) == next;
      var base1, base2 := items[i].0, items[i].1;
      if base2 == Some(VariableRegionToken) {
        ghost var before := ret;
        var padded := ret;
        if |ret| == 0 {
          retStart := i;
        } else {
          padded := PadWithGeneric(ret, i - retStart);
        }
        if base1.None? {
          ExtractionErrStays(items, i + 1);
          AlignmentErrIsTypeError(items, |items|);
          return Err(TypeError);
        }
        ret := padded + [base1.value];
        assert |before| == 0 ==> ret == [base1.value];
      }
      assert Ok((ret, retStart)) == next;
    }
    r := Ok((ret, retStart));
  }

  /** Once the walk has raised, it stays raised. */
  lemma {:induction false} ExtractionErrStays(items: seq<(Option<char>, Option<char>)>, n: nat)
    requires n <= |items| && AlignmentFold(items, n).Err?
    ensures AlignmentFold(items, |items|).Err?
    decreases |items| - n
  {
    if n < |items| {
      ExtractionErrStays(items, n + 1);
    }
  }

  /** Aligning the template never raises, so the only error of the whole
      extraction is a '*' of the output template facing no base of the read. */
  lemma GenericByAlignmentErrors(s: string, template: string, outputTemplate: string)
    ensures TemplateAlignment(s, template).Ok?
    ensures GenericByAlignmentOf(s, template, outputTemplate).Err? ==>
      GenericByAlignmentOf(s, template, outputTemplate).error == TypeError
  {
    AlignWithoutRangesReturns(ExtractionConfig, s, template, |template|, -1, false, false);
    var a := TemplateAlignment(s, template).value;
    var items := PairColumns(s, outputTemplate, a.0);
    AlignmentErrIsTypeError(items, |items|);
  }

  lemma {:induction false} AlignmentErrIsTypeError(items: seq<(Option<char>, Option<char>)>, n: nat)
    requires n <= |items|
    ensures AlignmentFold(items, n).Err? ==> AlignmentFold(items, n).error == TypeError
  {
    if n > 0 {
      AlignmentErrIsTypeError(items, n - 1);
    }
  }

  /** The read is discarded exactly when the alignment score is NO_SCORE or
      below the number of anchor bases less DISCARD_THRESHOLD. */
  lemma DiscardedIff(s: string, template: string, outputTemplate: string)
    ensures TemplateAlignment(s, template).Ok?
    ensures GenericByAlignmentOf(s, template, outputTemplate) == Ok(None) <==>
      Rejected(TemplateAlignment(s, template).value.1, CountScored(template))
  {
    AlignWithoutRangesReturns(ExtractionConfig, s, template, |template|, -1, false, false);
  }

  /** A kept read was aligned with the whole (non-empty) template inside it:
      `min_overlap = len(template)` admits no other offset. */
  lemma AcceptedTemplateInside(s: string, template: string)
    requires |template| > 0
    requires TemplateAlignment(s, template).Ok?
    requires !Rejected(TemplateAlignment(s, template).value.1, CountScored(template))
    ensures var offset := TemplateAlignment(s, template).value.0;
      0 <= offset && offset + |template| <= |s|
  {
    var a := TemplateAlignment(s, template).value;
    AlignIsFirstMaximum(ExtractionConfig, s, template, |template|, -1, false, false, (None, None));
    var sc := Scorer(ExtractionConfig, s, template, (None, None), |template|, -1);
    var k :| WinsAt(sc, ScanOrder(s, template, false, false), k, a);
    assert sc.Admits(a.0);
  }

  // The extracted string in closed form.

  /** Index of the last '*' of `out` below `m`. */
  function LastStarBelow(out: string, m: int): (r: Option<nat>)
    requires 0 <= m <= |out|
    ensures r.Some? ==> r.value < m && out[r.value] == VariableRegionToken
    ensures r.Some? ==> forall j :: r.value < j < m ==> out[j] != VariableRegionToken
    ensures r.None? ==> forall j :: 0 <= j < m ==> out[j] != VariableRegionToken
  {
    if m == 0 then None
    else if out[m - 1] == VariableRegionToken then Some(m - 1)
    else LastStarBelow(out, m - 1)
  }

  /** Index of the first '*' of `out`, when there is one. */
  function FirstStar(out: string): (r: Option<nat>)
    ensures r.Some? ==> r.value < |out| && out[r.value] == VariableRegionToken
    ensures r.Some? ==> forall j :: 0 <= j < r.value ==> out[j] != VariableRegionToken
    ensures r.None? ==> forall j :: 0 <= j < |out| ==> out[j] != VariableRegionToken
  {
    if out == [] then None
    else if out[0] == VariableRegionToken then Some(0)
    else
      var r := FirstStar(out[1..]);
      if r.None? then None else Some(r.value + 1)
  }

  /** The output template's span from its first '*' to column `last`, with
      the read's base under each '*' and '.' elsewhere. */
  function Rendered(s: string, out: string, offset: int, first: nat, last: nat): (r: string)
    requires first <= last < |out| && 0 <= offset && offset + |out| <= |s|
    ensures |r| == last - first + 1
    ensures forall p :: 0 <= p < |r| ==>
      r[p] == if out[first + p] == VariableRegionToken then s[offset + first + p] else GenericSequenceToken
  {
    seq(last - first + 1, p requires 0 <= p < last - first + 1 =>
      if out[first + p] == VariableRegionToken then s[offset + first + p] else GenericSequenceToken)
  }

  /** The state of the walk once it has passed the first `m` columns of the
      output template. */
  function WalkState(s: string, out: string, offset: int, m: int): Extraction
    requires 0 <= m <= |out| && 0 <= offset && offset + |out| <= |s|
  {
    match LastStarBelow(out, m)
    case None => ([], 0)
    case Some(l) =>
      var f := FirstStar(out).value;
      assert f <= l;
      (Rendered(s, out, offset, f, l), offset + f)
  }

  /** One column of the walk inside the output template: the read's base
      at `offset + m` faces `out[m]`. */
  lemma WalkStateStep(s: string, out: string, offset: int, m: nat)
    requires m < |out| && 0 <= offset && offset + |out| <= |s|
    ensures AlignmentStep(WalkState(s, out, offset, m), offset + m, (Some(s[offset + m]), Some(out[m]))) ==
      Ok(WalkState(s, out, offset, m + 1))
  {
    var st := WalkState(s, out, offset, m);
    var st' := WalkState(s, out, offset, m + 1);
    if out[m] == VariableRegionToken {
      assert LastStarBelow(out, m + 1) == Some(m);
      var f := FirstStar(out).value;
      match LastStarBelow(out, m)
      case None =>
        assert f == m;
        assert st'.0 == [s[offset + m]];
      case Some(l) =>
        var dots := Repeat(GenericSequenceToken, offset + m - st.1 - |st.0|);
        assert |st.0| == l - f + 1 && |dots| == m - l - 1;
        var next := st.0 + dots + [s[offset + m]];
        assert next == st'.0 by {
          forall p | 0 <= p < |next| ensures next[p] == st'.0[p] {
            if |st.0| <= p < |st.0| + |dots| {
              assert out[f + p] != VariableRegionToken;
            }
          }
        }
    } else {
      assert LastStarBelow(out, m + 1) == LastStarBelow(out, m);
    }
  }

  /** The columns of the read against the output template placed at a
      non-negative `offset`, cell by cell. */
  predicate FacingColumns(items: seq<(Option<char>, Option<char>)>, s: string, out: string, offset: int) {
    forall i :: 0 <= i < |items| ==>
      items[i] == (if i < |s| then Some(s[i]) else None,
                   if offset <= i < offset + |out| then Some(out[i - offset]) else None)
  }

  /** When the output template lies inside the read, the walk yields the
      span from its first to its last '*' with the read's bases under the
      '*'s and '.' elsewhere (the empty string when it has no '*'). */
  lemma {:induction false} AlignmentWalk(s: string, out: string, offset: int, items: seq<(Option<char>, Option<char>)>, n: nat)
    requires 0 <= offset && offset + |out| <= |s|
    requires FacingColumns(items, s, out, offset) && n <= |items|
    ensures AlignmentFold(items, n) == Ok(WalkState(s, out, offset, Max(0, Min(n - offset, |out|))))
    decreases n
  {
    if n > 0 {
      var i := n - 1;
      AlignmentWalk(s, out, offset, items, i);
      var m := Max(0, Min(i - offset, |out|));
      if offset <= i < offset + |out| {
        assert items[i] == (Some(s[offset + m]), Some(out[m]));
        WalkStateStep(s, out, offset, m);
      } else {
        assert items[i].1 == None;
      }
    }
  }

  /** Everything the walk emits for an output template inside the read. */
  lemma AlignmentWalkComplete(s: string, out: string, offset: int)
    requires 0 <= offset && offset + |out| <= |s|
    ensures var items := PairColumns(s, out, offset);
      AlignmentFold(items, |items|) == Ok(WalkState(s, out, offset, |out|))
  {
    var items := PairColumns(s, out, offset);
    forall i | 0 <= i < |items|
      ensures items[i] == (if i < |s| then Some(s[i]) else None,
                           if offset <= i < offset + |out| then Some(out[i - offset]) else None)
    {
      PairCells(s, out, offset, i);
    }
    AlignmentWalk(s, out, offset, items, |items|);
    if |out| > 0 {
      EnumeratePairLength(s, out, offset);
      PairLength(s, out, offset);
      assert |items| >= offset + |out|;
    }
  }

  /** A kept read whose output template is no longer than the template yields
      the span of the output template from its first to its last '*', with
      the read's bases under the '*'s and '.' elsewhere. */
  lemma AcceptedShape(s: string, template: string, outputTemplate: string)
    requires 0 < |outputTemplate| <= |template|
    requires TemplateAlignment(s, template).Ok?
    requires !Rejected(TemplateAlignment(s, template).value.1, CountScored(template))
    ensures var offset := TemplateAlignment(s, template).value.0;
      && 0 <= offset && offset + |outputTemplate| <= |s|
      && GenericByAlignmentOf(s, template, outputTemplate) ==
         Ok(Some(WalkState(s, outputTemplate, offset, |outputTemplate|).0))
  {
    AcceptedTemplateInside(s, template);
    var offset := TemplateAlignment(s, template).value.0;
    AlignmentWalkComplete(s, outputTemplate, offset);
  }

  /** With an output template of '*' only, a kept read yields exactly the
      bases facing the output template. */
  lemma AcceptedAllStars(s: string, template: string, outputTemplate: string, offset: int)
    requires 0 < |outputTemplate| <= |template|
    requires forall k :: 0 <= k < |outputTemplate| ==> outputTemplate[k] == VariableRegionToken
    requires TemplateAlignment(s, template).Ok? && TemplateAlignment(s, template).value.0 == offset
    requires !Rejected(TemplateAlignment(s, template).value.1, CountScored(template))
    ensures 0 <= offset && offset + |outputTemplate| <= |s|
    ensures GenericByAlignmentOf(s, template, outputTemplate) == Ok(Some(s[offset..offset + |outputTemplate|]))
  {
    AcceptedTemplateInside(s, template);
    AcceptedShape(s, template, outputTemplate);
    AllStarsRendered(s, outputTemplate, offset);
  }

  /** An output template of one anchor base followed by '*'s, such as the
      "A*****" of the module's comments: a kept read yields the bases facing
      the '*'s and nothing for the anchor before them, so "ABCDEFGH" aligned
      at offset 0 gives "BCDEF", not ".BCDEF" or "CD.F". */
  lemma LeadingAnchorDropped(s: string, template: string, outputTemplate: string, offset: int)
    requires 1 < |outputTemplate| <= |template|
    requires outputTemplate[0] != VariableRegionToken
    requires forall k :: 1 <= k < |outputTemplate| ==> outputTemplate[k] == VariableRegionToken
    requires TemplateAlignment(s, template).Ok? && TemplateAlignment(s, template).value.0 == offset
    requires !Rejected(TemplateAlignment(s, template).value.1, CountScored(template))
    ensures 0 <= offset && offset + |outputTemplate| <= |s|
    ensures GenericByAlignmentOf(s, template, outputTemplate) == Ok(Some(s[offset + 1..offset + |outputTemplate|]))
  {
    AcceptedTemplateInside(s, template);
    AcceptedShape(s, template, outputTemplate);
    AnchorRendered(s, outputTemplate, offset);
  }

  lemma AnchorRendered(s: string, out: string, offset: int)
    requires 1 < |out| && 0 <= offset && offset + |out| <= |s|
    requires out[0] != VariableRegionToken
    requires forall k :: 1 <= k < |out| ==> out[k] == VariableRegionToken
    ensures WalkState(s, out, offset, |out|).0 == s[offset + 1..offset + |out|]
  {
    assert out[1..][0] == VariableRegionToken;
    assert FirstStar(out) == Some(1);
    assert LastStarBelow(out, |out|) == Some(|out| - 1);
    var r := Rendered(s, out, offset, 1, |out| - 1);
    forall p | 0 <= p < |r| ensures r[p] == s[offset + 1..offset + |out|][p] {
      assert out[1 + p] == VariableRegionToken;
    }
    assert r == s[offset + 1..offset + |out|];
  }

  lemma AllStarsRendered(s: string, out: string, offset: int)
    requires 0 < |out| && 0 <= offset && offset + |out| <= |s|
    requires forall k :: 0 <= k < |out| ==> out[k] == VariableRegionToken
    ensures WalkState(s, out, offset, |out|).0 == s[offset..offset + |out|]
  {
    assert FirstStar(out) == Some(0);
    assert LastStarBelow(out, |out|) == Some(|out| - 1);
    var r := Rendered(s, out, offset, 0, |out| - 1);
    assert r == s[offset..offset + |out|];
  }
}
