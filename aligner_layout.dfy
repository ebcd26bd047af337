/** Layout of aligned sequences in aligner.py: the common length of an
    alignment of several `(sequence, offset)` pairs, its rendering as padded
    strings (`format`, `format_multiple`) and its column-by-column walk
    (`enumerate`, `enumerate_multiple`). */
module AlignerLayout {
  import opened Common
  import opened Aligner

  /** A sequence together with its offset in the alignment. */
  type Placed<T> = (seq<T>, int)

  /** The `min(sequences, key=offset)` offset. */
  function MinOffset<T>(entries: seq<Placed<T>>): (m: int)
    requires |entries| > 0
    ensures forall k :: 0 <= k < |entries| ==> m <= entries[k].1
    ensures exists k :: 0 <= k < |entries| && m == entries[k].1
  {
    if |entries| == 1 then entries[0].1
    else
      var m := MinOffset(entries[1..]);
      assert forall k :: 1 <= k < |entries| ==> entries[k] == entries[1..][k - 1];
      if entries[0].1 <= m then entries[0].1 else m
  }

  /** The rescaled offset of entry `k`: its distance from the leftmost start. */
  function Shift<T>(entries: seq<Placed<T>>, k: int): (r: nat)
    requires 0 <= k < |entries|
  {
    entries[k].1 - MinOffset(entries)
  }

  /** Where entry `k` ends in the rescaled alignment. */
  function EndOf<T>(entries: seq<Placed<T>>, k: int): nat
    requires 0 <= k < |entries|
  {
    Shift(entries, k) + |entries[k].0|
  }

  /** Largest end among the first `n` entries. */
  function MaxEnd<T>(entries: seq<Placed<T>>, n: nat): (r: nat)
    requires 0 < n <= |entries|
    ensures forall k :: 0 <= k < n ==> EndOf(entries, k) <= r
    ensures exists k :: 0 <= k < n && EndOf(entries, k) == r
  {
    if n == 1 then EndOf(entries, 0)
    else Max(MaxEnd(entries, n - 1), EndOf(entries, n - 1))
  }

  /** `length`: the total length of the alignment, 0 for no sequences. */
  function Length<T>(entries: seq<Placed<T>>): (r: nat)
    ensures |entries| == 0 ==> r == 0
    ensures forall k :: 0 <= k < |entries| ==> EndOf(entries, k) <= r
    ensures |entries| > 0 ==> exists k :: 0 <= k < |entries| && EndOf(entries, k) == r
  {
    if |entries| == 0 then 0 else MaxEnd(entries, |entries|)
  }

  /** For two sequences, the alignment spans from the leftmost start to the
      rightmost end, and when they meet it is their total length less the
      overlap. */
  lemma PairLength<T>(s1: seq<T>, s2: seq<T>, offset: int)
    ensures Length([(s1, 0), (s2, offset)]) == Max(|s1|, offset + |s2|) - Min(0, offset)
    ensures Overlap(s1, s2, offset) >= 0 ==>
      Length([(s1, 0), (s2, offset)]) == |s1| + |s2| - Overlap(s1, s2, offset)
  {
    var e := [(s1, 0), (s2, offset)];
    assert MinOffset(e) == Min(0, offset);
  }

  /** Entry `k` of `format_multiple` once padded to `width`: gap characters up
      to its rescaled offset, the sequence, then gap characters. */
  function Padded(gap: char, entries: seq<Placed<char>>, k: int, width: int): string
    requires 0 <= k < |entries|
  {
    Repeat(gap, Shift(entries, k)) + entries[k].0 + Repeat(gap, width - EndOf(entries, k))
  }

  /** What a padded entry looks like: the sequence sits at its rescaled offset
      and every other column is a gap character. */
  lemma PaddedShape(gap: char, entries: seq<Placed<char>>, k: int, width: int)
    requires 0 <= k < |entries| && EndOf(entries, k) <= width
    ensures var p := Padded(gap, entries, k, width);
      && |p| == width
      && p[Shift(entries, k)..EndOf(entries, k)] == entries[k].0
      && forall c :: 0 <= c < width && !(Shift(entries, k) <= c < EndOf(entries, k)) ==> p[c] == gap
  {
    var p := Padded(gap, entries, k, width);
    var a, s := Repeat(gap, Shift(entries, k)), entries[k].0;
    assert p == a + s + Repeat(gap, width - EndOf(entries, k));
    assert p[|a|..|a| + |s|] == s;
  }

  /** Padding a padded entry further on the right is padding it to the new width. */
  lemma PadFurther(gap: char, entries: seq<Placed<char>>, k: int, width: int, width': int)
    requires 0 <= k < |entries| && EndOf(entries, k) <= width <= width'
    ensures Padded(gap, entries, k, width) + Repeat(gap, width' - width) == Padded(gap, entries, k, width')
  {
    RepeatAdd(gap, width - EndOf(entries, k), width' - width);
  }

  /** Every entry is padded on the right to some width between its own end
      and `total`. */
  ghost predicate PaddedUpTo(gap: char, entries: seq<Placed<char>>, rets: seq<string>, total: int) {
    && |rets| == |entries|
    && forall k :: 0 <= k < |rets| ==>
         EndOf(entries, k) <= |rets[k]| <= total && rets[k] == Padded(gap, entries, k, |rets[k]|)
  }

  /** One pass of the `while True` loop of `format_multiple`: pads every
      shorter entry to `maxLength` and raises `maxLength` to any longer one. */
  method PadPass(gap: char, entries: seq<Placed<char>>, rets: array<string>, maxLength: int, ghost total: int)
    returns (newMax: int, changed: bool)
    requires PaddedUpTo(gap, entries, rets[..], total) && maxLength <= total
    modifies rets
    ensures PaddedUpTo(gap, entries, rets[..], total)
    ensures maxLength <= newMax <= total
    ensures changed ==> newMax > maxLength
    ensures !changed ==> newMax == maxLength && forall k :: 0 <= k < rets.Length ==> |rets[k]| == newMax
  {
    newMax, changed := maxLength, false;
    var i := 0;
    while i < rets.Length
      invariant 0 <= i <= rets.Length
      invariant maxLength <= newMax <= total
      invariant changed ==> newMax > maxLength
      invariant !changed ==> newMax == maxLength && forall k :: 0 <= k < i ==> |rets[k]| == newMax
      invariant PaddedUpTo(gap, entries, rets[..], total)
    {
      if |rets[i]| < newMax {
        PadFurther(gap, entries, i, |rets[i]|, newMax);
        rets[i] := rets[i] + Repeat(gap, newMax - |rets[i]|);
      } else if |rets[i]| > newMax {
        newMax := |rets[i]|;
        changed := true;
      }
      i := i + 1;
    }
  }

  /** `format_multiple`: every sequence padded with the gap character to its
      rescaled offset on the left and to the common length on the right. */
  method FormatMultiple(cfg: Config, entries: seq<Placed<char>>) returns (r: seq<string>)
    ensures |r| == |entries|
    ensures forall k :: 0 <= k < |entries| ==> r[k] == Padded(cfg.gapCharacter, entries, k, Length(entries))
  {
    if |entries| == 0 {
      return [];
    }
    var gap := cfg.gapCharacter;
    var n := |entries|;
    ghost var total := Length(entries);
    var rets := LeftPadded(gap, entries);

    var maxLength := |rets[0]|;
    while true
      invariant maxLength <= total
      invariant PaddedUpTo(gap, entries, rets[..], total)
      decreases total - maxLength
    {
      var changed;
      maxLength, changed := PadPass(gap, entries, rets, maxLength, total);
      if !changed {
        break;
      }
    }
    assert maxLength == total by {
      var w :| 0 <= w < n && EndOf(entries, w) == total;
      assert |rets[w]| == maxLength;
    }
    r := rets[..];
  }

  /** The first loop of `format_multiple`: each sequence behind as many gap
      characters as its offset exceeds the smallest one. */
  method LeftPadded(gap: char, entries: seq<Placed<char>>) returns (rets: array<string>)
    requires |entries| > 0
    ensures fresh(rets) && rets.Length == |entries|
    ensures forall k :: 0 <= k < |entries| ==>
      rets[k] == Padded(gap, entries, k, EndOf(entries, k)) && |rets[k]| == EndOf(entries, k)
  {
    var n := |entries|;
    var minOffset := MinOffset(entries);
    rets := new string[n];
    var j := 0;
    while j < n
      invariant 0 <= j <= n
      invariant forall k :: 0 <= k < j ==>
        rets[k] == Padded(gap, entries, k, EndOf(entries, k)) && |rets[k]| == EndOf(entries, k)
    {
      rets[j] := Repeat(gap, entries[j].1 - minOffset) + entries[j].0;
      assert Repeat(gap, 0) == [];
      assert rets[j] == Padded(gap, entries, j, EndOf(entries, j));
      j := j + 1;
    }
  }

  /** `format`: the two sequences padded to the same length, the second
      starting `offset` columns after the first. */
  method Format(cfg: Config, s1: string, s2: string, offset: int) returns (r: (string, string))
    ensures var entries := [(s1, 0), (s2, offset)];
      r == (Padded(cfg.gapCharacter, entries, 0, Length(entries)), Padded(cfg.gapCharacter, entries, 1, Length(entries)))
  {
    var rets := FormatMultiple(cfg, [(s1, 0), (s2, offset)]);
    r := (rets[0], rets[1]);
  }

  /** The two formatted strings have the same length, the alignment's length,
      and show each sequence at its place: `s1` from column `-min(0, offset)`,
      `s2` from column `max(0, offset)` counted from `s1`'s start. */
  lemma FormatPlacesBoth(gap: char, s1: string, s2: string, offset: int)
    ensures
      var entries := [(s1, 0), (s2, offset)];
      var width := Length(entries);
      var p1, p2 := Padded(gap, entries, 0, width), Padded(gap, entries, 1, width);
      var a := -Min(0, offset);
      && |p1| == |p2| == Max(|s1|, offset + |s2|) - Min(0, offset)
      && p1[a..a + |s1|] == s1
      && p2[a + offset..a + offset + |s2|] == s2
  {
    var entries := [(s1, 0), (s2, offset)];
    var width := Length(entries);
    PairLength(s1, s2, offset);
    assert MinOffset(entries) == Min(0, offset);
    PaddedShape(gap, entries, 0, width);
    PaddedShape(gap, entries, 1, width);
  }

  // ---------------------------------------------------------------------------
  // enumerate, enumerate_multiple

  /** The element of entry `k` at column `index` of the alignment, or the
      `None` placeholder where the entry has no element. */
  function Cell<T>(entries: seq<Placed<T>>, k: int, index: int): (c: Option<T>)
    requires 0 <= k < |entries|
    ensures c.Some? <==> Shift(entries, k) <= index < EndOf(entries, k)
  {
    var i := index - Shift(entries, k);
    if 0 <= i < |entries[k].0| then Some(entries[k].0[i]) else None
  }

  /** The item `enumerate_multiple` builds for column `index`. */
  function Column<T>(entries: seq<Placed<T>>, index: int): (r: seq<Option<T>>)
    ensures |r| == |entries|
    ensures forall k :: 0 <= k < |entries| ==> r[k] == Cell(entries, k, index)
  {
    seq(|entries|, k requires 0 <= k < |entries| => Cell(entries, k, index))
  }

  /** Some sequence has an element at column `index`. */
  predicate AnyPresent<T>(entries: seq<Placed<T>>, index: int) {
    exists k :: 0 <= k < |entries| && Cell(entries, k, index).Some?
  }

  /** Past the alignment's length no sequence has an element. */
  lemma NothingPastLength<T>(entries: seq<Placed<T>>, index: int)
    requires index >= Length(entries)
    ensures !AnyPresent(entries, index)
  {
  }

  /** A column where some sequence has an element lies within the alignment. */
  lemma PresentWithinLength<T>(entries: seq<Placed<T>>, index: int)
    requires AnyPresent(entries, index)
    ensures 0 <= index < Length(entries)
  {
  }

  /** The columns `enumerate_multiple` yields from column `index` on: every
      column up to the first one where no sequence has an element. */
  function ColumnsFrom<T>(entries: seq<Placed<T>>, index: nat): (r: seq<seq<Option<T>>>)
    ensures forall i :: 0 <= i < |r| ==> r[i] == Column(entries, index + i)
    ensures forall j :: index <= j < index + |r| ==> AnyPresent(entries, j)
    ensures !AnyPresent(entries, index + |r|)
    decreases Length(entries) - index
  {
    if !AnyPresent(entries, index) then []
    else
      PresentWithinLength(entries, index);
      var rest := ColumnsFrom(entries, index + 1);
      var r := [Column(entries, index)] + rest;
      ColumnsPrepend(entries, index, rest, r);
      r
  }

  /** The walk from `index` is its column followed by the walk from `index + 1`. */
  lemma ColumnsPrepend<T>(entries: seq<Placed<T>>, index: nat, rest: seq<seq<Option<T>>>, r: seq<seq<Option<T>>>)
    requires AnyPresent(entries, index) && r == [Column(entries, index)] + rest
    requires forall i :: 0 <= i < |rest| ==> rest[i] == Column(entries, index + 1 + i)
    requires forall j :: index + 1 <= j < index + 1 + |rest| ==> AnyPresent(entries, j)
    requires !AnyPresent(entries, index + 1 + |rest|)
    ensures forall i :: 0 <= i < |r| ==> r[i] == Column(entries, index + i)
    ensures forall j :: index <= j < index + |r| ==> AnyPresent(entries, j)
    ensures !AnyPresent(entries, index + |r|)
  {
    forall i | 0 <= i < |r| ensures r[i] == Column(entries, index + i) {
      if i == 0 {
        assert r[i] == Column(entries, index) && index + i == index;
      } else {
        assert r[i] == rest[i - 1];
        assert index + 1 + (i - 1) == index + i;
      }
    }
    assert index + 1 + |rest| == index + |r|;
  }

  /** One step of the walk: a column with an element is yielded, the first
      one without ends the walk. */
  lemma ColumnsFromStep<T>(entries: seq<Placed<T>>, index: nat)
    ensures ColumnsFrom(entries, index) ==
      if AnyPresent(entries, index) then [Column(entries, index)] + ColumnsFrom(entries, index + 1) else []
  {
  }

  /** All the columns of the alignment that `enumerate_multiple` yields. */
  function Columns<T>(entries: seq<Placed<T>>): (r: seq<seq<Option<T>>>)
    ensures forall i :: 0 <= i < |r| ==> AnyPresent(entries, i) && r[i] == Column(entries, i)
    ensures !AnyPresent(entries, |r|)
  {
    var r := ColumnsFrom(entries, 0);
    assert forall i :: 0 <= i < |r| ==> AnyPresent(entries, i) && r[i] == Column(entries, i) by {
      forall i | 0 <= i < |r| ensures AnyPresent(entries, i) && r[i] == Column(entries, i) {
        assert r[i] == Column(entries, 0 + i);
      }
    }
    assert !AnyPresent(entries, 0 + |r|);
    r
  }

  /** The body of the `while added_element` loop of `enumerate_multiple`:
      the item of column `index` and whether any sequence has an element there. */
  method ColumnAt<T>(entries: seq<Placed<T>>, minOffset: int, index: int) returns (item: seq<Option<T>>, added: bool)
    requires |entries| > 0 && minOffset == MinOffset(entries)
    ensures item == Column(entries, index)
    ensures added == AnyPresent(entries, index)
  {
    item, added := [], false;
    var k := 0;
    while k < |entries|
      invariant 0 <= k <= |entries|
      invariant |item| == k && forall k' :: 0 <= k' < k ==> item[k'] == Cell(entries, k', index)
      invariant added <==> exists k' :: 0 <= k' < k && Cell(entries, k', index).Some?
    {
      var sequence, offset := entries[k].0, entries[k].1 - minOffset;
      assert offset == Shift(entries, k);
      if index - offset < |sequence| && index - offset >= 0 {
        assert Cell(entries, k, index).Some?;
        item := item + [Some(sequence[index - offset])];
        added := true;
      } else {
        item := item + [None];
      }
      k := k + 1;
    }
  }

  /** The walk after column `index`: extended by the column, or finished. */
  lemma WalkStep<T>(entries: seq<Placed<T>>, items: seq<seq<Option<T>>>, index: nat, item: seq<Option<T>>, added: bool)
    requires ColumnsFrom(entries, 0) == items + ColumnsFrom(entries, index)
    requires item == Column(entries, index) && added == AnyPresent(entries, index)
    ensures added ==> index < Length(entries) && ColumnsFrom(entries, 0) == (items + [item]) + ColumnsFrom(entries, index + 1)
    ensures !added ==> ColumnsFrom(entries, 0) == items
  {
    if added {
      PresentWithinLength(entries, index);
    }
    ColumnsFromStep(entries, index);
  }

  /** `enumerate_multiple`: walks the columns of the alignment from the
      leftmost start, stopping at the first column where no sequence has an
      element. */
  method EnumerateMultiple<T>(entries: seq<Placed<T>>) returns (items: seq<seq<Option<T>>>)
    ensures items == Columns(entries)
  {
    if |entries| == 0 {
      return [];
    }
    var minOffset := MinOffset(entries);
    ghost var all := ColumnsFrom(entries, 0);
    ghost var length := Length(entries);
    items := [];
    var index := 0;
    var added := true;
    while added
      invariant 0 <= index <= length + 1
      invariant added ==> index <= length && all == items + ColumnsFrom(entries, index)
      invariant !added ==> all == items
      decreases length + 1 - index
    {
      var item;
      item, added := ColumnAt(entries, minOffset, index);
      WalkStep(entries, items, index, item, added);
      if added {
        items := items + [item];
      }
      index := index + 1;
    }
    ColumnsStart(entries);
  }

  /** All the columns are the walk from column 0. */
  lemma ColumnsStart<T>(entries: seq<Placed<T>>)
    ensures Columns(entries) == ColumnsFrom(entries, 0)
  {
  }

  /** The two entries of a pairwise alignment, `sequence_1` at 0. */
  function Pair<T>(s1: seq<T>, s2: seq<T>, offset: int): seq<Placed<T>> {
    [(s1, 0), (s2, offset)]
  }

  /** The `(base_1, base_2)` items `enumerate` yields. */
  function PairColumns<T>(s1: seq<T>, s2: seq<T>, offset: int): (r: seq<(Option<T>, Option<T>)>)
    ensures |r| == |Columns(Pair(s1, s2, offset))|
    ensures forall i :: 0 <= i < |r| ==> r[i] == (Cell(Pair(s1, s2, offset), 0, i), Cell(Pair(s1, s2, offset), 1, i))
  {
    var columns := Columns(Pair(s1, s2, offset));
    seq(|columns|, i requires 0 <= i < |columns| => (columns[i][0], columns[i][1]))
  }

  /** `enumerate`: the columns of a pairwise alignment as `(base_1, base_2)`. */
  method Enumerate<T>(s1: seq<T>, s2: seq<T>, offset: int) returns (items: seq<(Option<T>, Option<T>)>)
    ensures items == PairColumns(s1, s2, offset)
  {
    var columns := EnumerateMultiple(Pair(s1, s2, offset));
    items := seq(|columns|, i requires 0 <= i < |columns| => (columns[i][0], columns[i][1]));
  }

  /** In a pairwise alignment with `offset >= 0`, `sequence_1` is not shifted
      and column `i` of the second entry is `s2[i - offset]`. */
  lemma PairCells<T>(s1: seq<T>, s2: seq<T>, offset: int, i: int)
    requires offset >= 0
    ensures Cell(Pair(s1, s2, offset), 0, i) == if 0 <= i < |s1| then Some(s1[i]) else None
    ensures Cell(Pair(s1, s2, offset), 1, i) == if 0 <= i - offset < |s2| then Some(s2[i - offset]) else None
  {
    assert MinOffset(Pair(s1, s2, offset)) == 0;
  }

  /** A pairwise column holds both bases exactly where the two sequences face
      each other, so the paired columns are the overlap of `overlap_region`. */
  lemma PairedColumnsAreOverlap<T>(s1: seq<T>, s2: seq<T>, offset: int, i: int)
    ensures
      var entries := Pair(s1, s2, offset);
      Cell(entries, 0, i).Some? && Cell(entries, 1, i).Some? <==> Facing(s1, s2, offset, i + Min(0, offset))
  {
    assert MinOffset(Pair(s1, s2, offset)) == Min(0, offset);
  }

  /** When the two sequences are non-empty and meet, `enumerate` covers every
      column of the alignment; when a gap separates them it stops at the end
      of the leftmost one. */
  lemma EnumeratePairLength<T>(s1: seq<T>, s2: seq<T>, offset: int)
    requires |s1| > 0 && |s2| > 0
    ensures Overlap(s1, s2, offset) >= 0 ==> |PairColumns(s1, s2, offset)| == Length(Pair(s1, s2, offset))
    ensures Overlap(s1, s2, offset) < 0 ==> |PairColumns(s1, s2, offset)| == if offset >= 0 then |s1| else |s2|
  {
    var entries := Pair(s1, s2, offset);
    var items := Columns(entries);
    assert MinOffset(entries) == Min(0, offset);
    PairLength(s1, s2, offset);
    var n := Length(entries);
    var stop := if Overlap(s1, s2, offset) >= 0 then n else if offset >= 0 then |s1| else |s2|;
    forall i | 0 <= i < stop ensures AnyPresent(entries, i) {
      if Cell(entries, 0, i).Some? {
        assert Cell(entries, 0, i).Some?;
      } else {
        assert Cell(entries, 1, i).Some?;
      }
    }
    assert !AnyPresent(entries, stop);
    assert |items| < stop ==> AnyPresent(entries, |items|);
    assert |items| > stop ==> AnyPresent(entries, stop);
  }
}
