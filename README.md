# TRAF6 NGS screen: alignment, sequence counting and statistics in Dafny

This project models the computational core of a pipeline that counts the
variable regions of merged sequencing reads from a TRAF6 library screen,
and proves properties of that model. The core has three parts.

- **The aligner** (`aligner.py`) slides one sequence along another and
  scores each offset. At each offset it counts identical and differing bases
  over the overlap, optionally restricted by scoring masks, and adds a
  score for gaps. A mutation threshold turns too many differences into
  `NO_SCORE`. `align` keeps the first offset with the highest score.
  `best_alignment` picks the first candidate with the highest score.
  `format`/`format_multiple` pad the sequences into equal-width rows, and
  `enumerate`/`enumerate_multiple` list the alignment column by column.
  Module `Aligner` holds the scoring and the search; module `AlignerLayout`
  holds the layout.
- **Sequence counting** (`count_sequences.py`) takes a generic sequence
  from each read. One way copies position ranges, with the bases between
  them shown as `.`. The other aligns a template to the read and keeps the
  bases under the `*` of an output template. The reads are grouped by that
  sequence, and a tab-indented hierarchy is written: groups by
  non-increasing population, each with its number of distinct
  sub-sequences under the next task. The modules are `GenericSequences`,
  `UniqueCounts`, `HierarchyReport` (what the report is) and `Hierarchy`
  (the recursive writer over two output sinks).
- **The statistics collector** (`stat_collector.py`) is a nested
  dictionary addressed by key paths, with `get`, `create`, `set`,
  `create_or_set` and `reset`. On top of it sit counters, unique counters,
  fractions, and counters applied to every combination of keys. Module
  `Stats` models it. The process-wide singleton becomes one `StatCollector`
  object whose `statistics` field the methods update.

Python exceptions are values of `Common.Result`: IndexError, KeyError,
TypeError, ValueError, ZeroDivisionError and AssertionError. The model
follows each of them where the code can raise it, and no caller is required
to avoid one. Loops become methods with loop invariants, proved equal to
specification functions. The lemmas then state what those functions
guarantee.

Modelling choices that follow the code rather than its comments:

- In the masked score, the second sequence's mask is read at `i + offset`
  (aligner.py line 47). Python list indexing applies: a negative index wraps
  and an index past the end raises IndexError. This is modelled as written.
  In this code the second mask is always absent: `best_alignment` and the
  template alignment pass no ranges for it.
- The comments of count_sequences.py give example outputs (`.BCDEF` and
  `CD.F`) that differ from each other. The model follows the code of
  `get_generic_sequence_by_alignment`, not either comment: for their
  example, with the template aligned at offset 0, the code yields `BCDEF`
  (`GenericSequences.LeadingAnchorDropped`).
- `enumerate_multiple` stops at the first column where no sequence is
  present. So when a gap separates two sequences, only the one placed first
  is listed. Adjacent sequences (overlap 0) are both listed (`AlignerLayout.EnumeratePairLength`).
- In `get_generic_sequence_by_position`, overlapping ranges are each copied
  in full rather than merged (`GenericSequences.PositionOverlapNotTrimmed`).

## Model

| member | source | states |
|---|---|---|
| Aligner.Overlap | TRAF6-NGS_data/src/aligner.py:67-80 | In each of the three branches the overlap is min(len1, offset + len2) - max(0, offset). It is negative when the sequences do not meet. |
| Aligner.OverlapRegion | TRAF6-NGS_data/src/aligner.py:82-96 | The region starts at max(0, offset) and its length is the overlap. An index lies in it exactly when both sequences have a base facing there. |
| Aligner.ScoringMap | TRAF6-NGS_data/src/aligner.py:22-31 | Succeeds exactly when every index of every range is a valid Python list index; otherwise IndexError. The mask has the given length, and position j is True exactly when some range covers j, counting negative indices from the end. |
| Aligner.PyIndex | TRAF6-NGS_data/src/aligner.py:47 | Python list indexing: defined exactly for -len <= k < len, and equal to the element for non-negative k. |
| Aligner.JoinedUnmasked | TRAF6-NGS_data/src/aligner.py:44-49 | With no masks, the joined strings are exactly the facing slices of the two sequences over the overlap. |
| Aligner.JoinedFails | TRAF6-NGS_data/src/aligner.py:46-49 | Building the joined strings raises exactly when some overlap position has a mask lookup out of range. |
| Aligner.JoinedErrIsIndexError | TRAF6-NGS_data/src/aligner.py:47 | The only error the joining loop raises is IndexError. |
| Aligner.JoinedErrStays | TRAF6-NGS_data/src/aligner.py:46-49 | Once the joining loop has raised, running it further still raises. |
| Aligner.JoinedLength | TRAF6-NGS_data/src/aligner.py:44-49 | The joined strings are as long as the number of overlap positions that both masks admit. |
| Aligner.JoinedIdentical | TRAF6-NGS_data/src/aligner.py:59 | The number of equal positions in the joined strings is the number of admitted overlap positions where the bases agree. |
| Aligner.CountEqual | TRAF6-NGS_data/src/aligner.py:59 | The count of equal positions is at most the length, and equals it for identical strings. |
| Aligner.ScoreFormula | TRAF6-NGS_data/src/aligner.py:41-65 | The score in closed form: IndexError when a mask lookup fails; NO_SCORE when a non-negative mutation threshold is exceeded by overlap minus identical; otherwise identical, different and gap counts weighted by the configured scores, with gaps = max(len1, len2 + offset) - overlap. |
| Aligner.MaskedCountAsDifferent | TRAF6-NGS_data/src/aligner.py:59-60 | identical <= compared <= overlap, so masked-out positions count as different. |
| Aligner.ScoreSelf | TRAF6-NGS_data/src/aligner.py:59-65 | A sequence scored against itself at offset 0 without masks scores len x identical_score, whatever the threshold. |
| Aligner.Score | TRAF6-NGS_data/src/aligner.py:33-65 | The scoring loop computes the score that ScoreFormula gives in closed form. |
| Aligner.ScanOrder | TRAF6-NGS_data/src/aligner.py:192-194 | The offsets tried are exactly 0 (when unidirectional) or 1 - len2, up to len1 - 1. Each is tried once, in increasing order, or decreasing when reverse. |
| Aligner.MapsOf | TRAF6-NGS_data/src/aligner.py:199-204 | Masks built from the ranges fit the sequences. Without ranges for the second sequence there is no second mask. |
| Aligner.Align | TRAF6-NGS_data/src/aligner.py:183-214 | The search loop returns what the scan specification gives. AlignIsFirstMaximum states what that is. |
| Aligner.ScanIsFirstMaximum | TRAF6-NGS_data/src/aligner.py:206-213 | No admitted offset of the scan beats its result. The result is either the starting best or the first admitted offset that attains it and strictly beats everything admitted before it. |
| Aligner.AlignIsFirstMaximum | TRAF6-NGS_data/src/aligner.py:196-214 | No offset allowed by the overlap bounds scores higher than the returned score. A NO_SCORE result has offset 0. A real score is attained first, in scan order, at the returned offset. |
| Aligner.AlignTieBreak | TRAF6-NGS_data/src/aligner.py:211 | Among admitted offsets with the winning score, the lowest wins, or the highest when reverse. |
| Aligner.ScanOkWithoutSecondMask | TRAF6-NGS_data/src/aligner.py:206-213 | With no second mask the scan never raises. |
| Aligner.AlignWithoutRangesReturns | TRAF6-NGS_data/src/aligner.py:183-214 | Without scoring ranges, align always returns. |
| Aligner.ScanAt | TRAF6-NGS_data/src/aligner.py:206-213 | One pass of the search loop: an error is the error of the scan from that offset on. Otherwise the scan continues from the next offset with the best so far it returns. |
| Aligner.Collect | TRAF6-NGS_data/src/aligner.py:226 | The list comprehension succeeds exactly when every element does, and then holds the elements' values in order. An error is the first element's error, and every element before it succeeded. |
| Aligner.FirstMaximum | TRAF6-NGS_data/src/aligner.py:227 | Python's max picks the first element with the maximal key: nothing beats it, and it beats every element before it. |
| Aligner.BestOf | TRAF6-NGS_data/src/aligner.py:226-227 | For any list of per-candidate results, an empty list raises ValueError. The choice exists exactly when every result does. Nothing beats the chosen score, which every earlier result falls short of. |
| Aligner.BestAlignment | TRAF6-NGS_data/src/aligner.py:216-227 | An empty list raises ValueError. The result exists exactly when every candidate aligns. The returned index has the best score, and it is the lowest index with that score. |
| AlignerLayout.MinOffset | TRAF6-NGS_data/src/aligner.py:112 | The smallest offset is at most every offset and is one of them. |
| AlignerLayout.MaxEnd | TRAF6-NGS_data/src/aligner.py:138 | The largest shifted end is at least every end and is one of them. |
| AlignerLayout.Length | TRAF6-NGS_data/src/aligner.py:129-138 | 0 with no sequences. Otherwise the largest end after shifting by the smallest offset, which bounds every sequence and is reached by one. |
| AlignerLayout.PairLength | TRAF6-NGS_data/src/aligner.py:129-138 | For two sequences the length is max(len1, offset + len2) - min(0, offset). When they overlap it is len1 + len2 - overlap. |
| AlignerLayout.PaddedShape | TRAF6-NGS_data/src/aligner.py:113-121 | A padded row has the full width, holds its sequence at its shift, and holds the gap character everywhere else. |
| AlignerLayout.PadFurther | TRAF6-NGS_data/src/aligner.py:120-121 | Padding a padded row further gives the row padded to the larger width. |
| AlignerLayout.PadPass | TRAF6-NGS_data/src/aligner.py:118-124 | One pass over the rows keeps every row a padded sequence no longer than the final width, and never lowers the running maximum. A pass that changes nothing leaves every row at the maximum. |
| AlignerLayout.FormatMultiple | TRAF6-NGS_data/src/aligner.py:105-127 | One row per sequence. Each row is its sequence placed at its offset minus the smallest offset, padded with the gap character to the alignment length. |
| AlignerLayout.LeftPadded | TRAF6-NGS_data/src/aligner.py:112-114 | Each sequence is preceded by as many gap characters as its offset exceeds the smallest one, so it ends at its own end column of the alignment. |
| AlignerLayout.Format | TRAF6-NGS_data/src/aligner.py:98-103 | The two rows are the padded layouts of (s1, 0) and (s2, offset). |
| AlignerLayout.FormatPlacesBoth | TRAF6-NGS_data/src/aligner.py:98-103 | Both rows are max(len1, offset + len2) - min(0, offset) long. s1 sits at -min(0, offset) and s2 sits offset further. |
| AlignerLayout.Cell | TRAF6-NGS_data/src/aligner.py:173-178 | A sequence contributes a base to a column exactly when the column lies within its shifted extent; otherwise the placeholder None. |
| AlignerLayout.Column | TRAF6-NGS_data/src/aligner.py:171-178 | A column holds one cell per sequence, in order. |
| AlignerLayout.NothingPastLength | TRAF6-NGS_data/src/aligner.py:129-181 | No column at or past the alignment length has a base. |
| AlignerLayout.PresentWithinLength | TRAF6-NGS_data/src/aligner.py:129-181 | A column with a base lies within the alignment length. |
| AlignerLayout.ColumnsFrom | TRAF6-NGS_data/src/aligner.py:168-181 | The columns from an index on are exactly the consecutive non-empty columns, stopping at the first empty one. |
| AlignerLayout.ColumnsFromStep | TRAF6-NGS_data/src/aligner.py:170-181 | One loop round either yields the current column and continues, or ends the enumeration. |
| AlignerLayout.Columns | TRAF6-NGS_data/src/aligner.py:153-181 | The yielded columns are the non-empty columns from 0 up to the first empty one. |
| AlignerLayout.ColumnAt | TRAF6-NGS_data/src/aligner.py:171-179 | The inner loop builds the column at the index and reports whether any sequence is present there. |
| AlignerLayout.WalkStep | TRAF6-NGS_data/src/aligner.py:168-181 | Each round of the generator loop extends the yielded prefix by the current column, or ends with the full list. |
| AlignerLayout.EnumerateMultiple | TRAF6-NGS_data/src/aligner.py:153-181 | The generator yields exactly the column list of the specification. |
| AlignerLayout.PairColumns | TRAF6-NGS_data/src/aligner.py:140-151 | The pairwise enumeration has as many items as the general one, and each item pairs the two sequences' cells. |
| AlignerLayout.Enumerate | TRAF6-NGS_data/src/aligner.py:140-151 | The pairwise generator yields exactly those pairs. |
| AlignerLayout.PairCells | TRAF6-NGS_data/src/aligner.py:140-151 | For a non-negative offset, column i holds s1[i] when it exists and s2[i - offset] when it exists. |
| AlignerLayout.PairedColumnsAreOverlap | TRAF6-NGS_data/src/aligner.py:140-151 | A column holds bases of both sequences exactly when it lies in the overlap region. |
| AlignerLayout.EnumeratePairLength | TRAF6-NGS_data/src/aligner.py:168-181 | Overlapping sequences give as many columns as the alignment length. Otherwise only the sequence placed first is listed. |
| GenericSequences.SortingTasksShape | data/src/count_sequences.py:91 | The configured task list is one template alignment whose output template is 31 '*' characters, as long as the template. |
| GenericSequences.PySlice | data/src/count_sequences.py:187 | A Python slice of in-range bounds is empty when they cross, and the substring otherwise. |
| GenericSequences.Normalize | data/src/count_sequences.py:178 | Each range is reduced modulo the sequence length into [0, length). |
| GenericSequences.Insert | data/src/count_sequences.py:178 | Insertion into a sorted list keeps it sorted and adds exactly the new range. |
| GenericSequences.SortRanges | data/src/count_sequences.py:178 | The sorted ranges are in lexicographic order and are a permutation of the input. |
| GenericSequences.SortedUnique | data/src/count_sequences.py:178 | Two sorted permutations of the same ranges are equal, so this sort agrees with Python's sorted. |
| GenericSequences.NormalizedSorted | data/src/count_sequences.py:178 | The normalized, sorted ranges are in bounds, sorted, and a permutation of the normalized ranges. |
| GenericSequences.NormalizedSingle | data/src/count_sequences.py:162 | A single task range normalizes to its bounds modulo the length. |
| GenericSequences.PadWithGeneric | data/src/count_sequences.py:185-186 | The padding loop appends '.' until the width is reached. |
| GenericSequences.GenericByPosition | data/src/count_sequences.py:173-188 | The loop computes the position-based generic sequence. No ranges give the empty sequence. An empty read with a range raises ZeroDivisionError from the modulo. |
| GenericSequences.AppendRange | data/src/count_sequences.py:182-187 | One loop round is one step of the position fold. The first range starts the result at its start. A later range is appended after padding with '.' up to its distance from that start. |
| GenericSequences.PositionSingle | data/src/count_sequences.py:173-188 | One in-range task (start, end) yields exactly the read's bases from start to end. |
| GenericSequences.PositionEndAtLength | data/src/count_sequences.py:178 | An end equal to the read length wraps to 0, so the task yields the empty sequence. |
| GenericSequences.Expected | data/src/count_sequences.py:181-187 | Each position of the result is either the read's base there or '.'. |
| GenericSequences.PositionLayout | data/src/count_sequences.py:179-188 | For non-overlapping sorted ranges, the result starts at the first range's start and ends at the last range's end. Each position holds the read's base when a range covers it and '.' otherwise. |
| GenericSequences.LayoutStep | data/src/count_sequences.py:181-187 | Appending one range keeps that layout. |
| GenericSequences.CoveredBeforeLast | data/src/count_sequences.py:181-187 | For non-overlapping sorted ranges, a position before the last range is covered exactly when an earlier range covers it. |
| GenericSequences.NotCoveredAfter | data/src/count_sequences.py:181-187 | No range covers a position past the last range's end. |
| GenericSequences.PositionOverlapNotTrimmed | data/src/count_sequences.py:173-188 | Overlapping ranges are each copied in full: "ABCDEF" with ranges (1,4) and (0,3) yields "ABCBCD". |
| GenericSequences.CountScored | data/src/count_sequences.py:200 | The number of scored template characters is at most the template length. |
| GenericSequences.GenericByAlignment | data/src/count_sequences.py:190-218 | The alignment-based extraction computes the specification: None when discarded, else the walk over the output template's columns. |
| GenericSequences.WalkColumns | data/src/count_sequences.py:205-217 | The loop over the enumerated columns computes the column fold. |
| GenericSequences.ExtractionErrStays | data/src/count_sequences.py:210-217 | Once the column walk has raised, the whole walk raises. |
| GenericSequences.GenericByAlignmentErrors | data/src/count_sequences.py:190-218 | The template alignment never raises. The only error of the extraction is the TypeError of appending a missing base. |
| GenericSequences.DiscardedIff | data/src/count_sequences.py:199-203 | A read is discarded exactly when its alignment score is NO_SCORE or below the number of scored template bases minus 2. |
| GenericSequences.AcceptedTemplateInside | data/src/count_sequences.py:199 | A read that is kept has the template aligned wholly inside it, because the minimum overlap is the template length. |
| GenericSequences.Rendered | data/src/count_sequences.py:210-217 | Between the first and last '*', the result holds the read's base under each '*' and '.' elsewhere. |
| GenericSequences.AlignmentWalk | data/src/count_sequences.py:210-217 | Walking the columns of a template placed inside the read gives, after any prefix, the rendering up to that point. |
| GenericSequences.AlignmentWalkComplete | data/src/count_sequences.py:210-217 | The full walk gives the rendering of the whole output template. |
| GenericSequences.AcceptedShape | data/src/count_sequences.py:205-218 | For a kept read whose output template is no longer than the template, the result is the read's bases under the '*'s from the first '*' to the last, with '.' between. |
| GenericSequences.AcceptedAllStars | data/src/count_sequences.py:205-218 | With an all-'*' output template (the configured task), a kept read yields exactly its bases facing the template. |
| GenericSequences.LeadingAnchorDropped | data/src/count_sequences.py:205-218 | Take an output template of one anchor base followed by '*'s, like the documented `A*****`. A kept read then yields exactly its bases under the '*'s, with no '.' for the anchor. So `ABCDEFGH` aligned at offset 0 gives `BCDEF`. |
| GenericSequences.AllStarsRendered | data/src/count_sequences.py:210-217 | The rendering of an all-'*' output template is the facing slice of the read. |
| UniqueCounts.ExtractKey | data/src/count_sequences.py:149-162 | Each line's key comes from the task's kind: the alignment extraction for a template task, the position extraction for a range task. |
| UniqueCounts.AddTo | data/src/count_sequences.py:166-169 | Recording a line adds its index to its key's set, creating the set when the key is new, and leaves other keys unchanged. |
| UniqueCounts.Record | data/src/count_sequences.py:166-169 | The recording step computes AddTo. |
| UniqueCounts.KeysOf | data/src/count_sequences.py:137-162 | There is one extraction result per line, in order. |
| UniqueCounts.FileLength | data/src/count_sequences.py:171 | The reported length is the number of lines, but at least 1: an empty input reports 1. |
| UniqueCounts.CountUniqueSequences | data/src/count_sequences.py:116-171 | Without ranks, the loop returns the grouping of the lines' keys and the reported length, or the first extraction error. |
| UniqueCounts.GroupingStep | data/src/count_sequences.py:137-169 | One more line extends the grouping by that line's key, skips it when discarded, or raises its error. |
| UniqueCounts.GroupingErrStays | data/src/count_sequences.py:137-169 | An error in a prefix of the lines is the error of the whole count. |
| UniqueCounts.GroupingErrIff | data/src/count_sequences.py:137-169 | Counting raises e exactly when the first line whose extraction raises, raises e. |
| UniqueCounts.GroupingOkAll | data/src/count_sequences.py:137-169 | Counting succeeds exactly when no line's extraction raises. |
| UniqueCounts.GroupingPartition | data/src/count_sequences.py:137-169 | Every group is non-empty and holds only line indices. Line i is in the group of key k exactly when line i yields k, so discarded lines are nowhere. |
| UniqueCounts.GroupingDisjoint | data/src/count_sequences.py:137-169 | No line lies in two groups. |
| UniqueCounts.CountUniqueSequencesRanked | data/src/count_sequences.py:116-171 | With ranks, the loop returns the per-rank grouping and the reported length, or the first error. |
| UniqueCounts.RankedStep | data/src/count_sequences.py:140-169 | One more line is skipped when it has no rank. Otherwise its rank's entry is created and it is grouped in that rank, or its error is raised. |
| UniqueCounts.RankedErrStays | data/src/count_sequences.py:140-169 | An error in a prefix is the error of the whole ranked count. |
| UniqueCounts.RankedShortRanks | data/src/count_sequences.py:141 | A rank list shorter than the input raises. |
| UniqueCounts.RankedOkAll | data/src/count_sequences.py:140-169 | The ranked count succeeds exactly when no ranked line's extraction raises. |
| UniqueCounts.RankedEntries | data/src/count_sequences.py:140-145 | There is an entry for exactly the ranks some line carries, empty when none of its lines yields a key. |
| UniqueCounts.RankedPartition | data/src/count_sequences.py:140-169 | Within each rank, line i is in the group of k exactly when it has that rank and yields k. |
| UniqueCounts.RankedDisjoint | data/src/count_sequences.py:140-169 | Within each rank no line lies in two groups. |
| HierarchyReport.LineOf | data/src/count_sequences.py:261 | A report line is two tabs per indent level, then the digits of the population, then a tab-separated count and the key, then a newline. |
| HierarchyReport.GroupSets | data/src/count_sequences.py:241-243 | The index sets of the groups, in report order. |
| HierarchyReport.RankOf | data/src/count_sequences.py:241-243 | A line's rank is the last group that holds it, or None when no group does. |
| HierarchyReport.RankTable | data/src/count_sequences.py:240-243 | The index list has one entry per line of the file, each the line's rank. An index past the file length raises IndexError. |
| HierarchyReport.ArrangedLength | data/src/count_sequences.py:235 | Sorting lists each group exactly once. |
| HierarchyReport.OutTextLastLevel | data/src/count_sequences.py:277-279 | The last level writes nothing to the main output. |
| HierarchyReport.LastLevelReport | data/src/count_sequences.py:255-264 | At the last task, each group's unique-submatch count is its population. The complete file gets one line per group and the main output gets nothing. |
| HierarchyReport.UniqueSubmatchesAreChildren | data/src/count_sequences.py:255-279 | Above the last level, a group's unique-submatch count is the number of sub-groups written under it. |
| HierarchyReport.PopulationSumIsUnion | data/src/count_sequences.py:255-259 | For disjoint groups, the populations add up to the size of their union. |
| HierarchyReport.ChildrenInside | data/src/count_sequences.py:255-279 | Sub-groups of a group's lines have populations adding up to at most its size. |
| HierarchyReport.RanksWithinGroups | data/src/count_sequences.py:240-244 | Each rank of the next level's count holds only lines of the group with that rank, and its groups are disjoint. |
| HierarchyReport.ChildrenWithinParent | data/src/count_sequences.py:255-279 | Above the last level, a group's sub-groups have populations adding up to at most its own. |
| HierarchyReport.RankTableCovers | data/src/count_sequences.py:240-243 | Over a disjoint grouping, the index list never raises and gives each line of group j the rank j. |
| HierarchyReport.EveryRankCounted | data/src/count_sequences.py:244-257 | The next-level count has an entry for every group, so the lookup of line 257 never raises KeyError. Each entry is again a disjoint grouping. |
| Hierarchy.Sink.Write | data/src/count_sequences.py:264 | Writing appends the line to the sink's text. |
| Hierarchy.TaskKeys | data/src/count_sequences.py:233-244 | For each task, the lines' extraction results under it. |
| Hierarchy.LargestExists | data/src/count_sequences.py:235 | Among any non-empty set of keys, one has a largest group. |
| Hierarchy.ArrangeByPopulation | data/src/count_sequences.py:235 | The sort lists every key once, by non-increasing population. |
| Hierarchy.SetsOf | data/src/count_sequences.py:241-243 | The index sets of the groups, in sorted order. |
| Hierarchy.FillRanks | data/src/count_sequences.py:240-243 | The loop that fills the index list computes the rank table, including its IndexError. |
| Hierarchy.MarkGroup | data/src/count_sequences.py:242-243 | Every line of the group receives the group's rank and every other entry is unchanged. It fails exactly when some line lies past the end of the index list. |
| Hierarchy.NextLevel | data/src/count_sequences.py:240-244 | The next level's ranked count, or the IndexError of the index list, or the count's error. |
| Hierarchy.NextLevelSucceeds | data/src/count_sequences.py:240-257 | Suppose the groups are a disjoint grouping of the lines and no line's extraction raises under the next task. Then filling `index_list` raises no IndexError and counting the next task raises nothing. `new_uniques[i]` exists for every group `i`, so no KeyError, and each is again a disjoint grouping of the lines. |
| Hierarchy.LevelReported | data/src/count_sequences.py:255-279 | A level written entry by entry in sorted order is the report of that level. |
| Hierarchy.WriteEntry | data/src/count_sequences.py:255-279 | Writing one group emits its line to the complete file. Above the last level it also emits it to the main output, followed by the report of its sub-groups. It succeeds whenever no extraction under the remaining tasks raises and the group's sub-grouping is a disjoint grouping of the lines. Both files only grow. |
| Hierarchy.WriteNested | data/src/count_sequences.py:277-279 | Above the last task, the group's line goes to the out file, followed by everything the next level writes for its sub-groups. The complete file receives that level's text, and the sub-report is the next level's report. It succeeds when no extraction under the later tasks raises and the sub-grouping is a disjoint grouping of the lines. |
| Hierarchy.WriteEntries | data/src/count_sequences.py:255-279 | The loop over the sorted groups writes each group's entry in turn. If no extraction under the later tasks raises, then two things hold. When every rank has a well-formed entry in `new_uniques`, the loop succeeds. When a rank is the first without an entry, the loop raises KeyError. |
| Hierarchy.WriteGroup | data/src/count_sequences.py:256-279 | One round of the loop over sorted groups. Above the last level, a rank missing from `new_uniques` raises KeyError. Otherwise the round appends that group's entry to the report and writes its text to both files. It succeeds when no later extraction raises and the rank's entry is a disjoint grouping of the lines. |
| Hierarchy.WriteLevel | data/src/count_sequences.py:235-279 | One level writes the report of its groups: the main output above the last level, every level to the complete file. It succeeds whenever no line's extraction raises under any remaining task and the groups are a disjoint grouping of the lines. Both files only grow. |
| Hierarchy.WriteHierarchicalUniqueSequences | data/src/count_sequences.py:220-279 | No tasks writes nothing. If the first task's grouping raises, that error is returned. If no line's extraction raises under any task, the call succeeds. On success both outputs received exactly the report's text, and the report satisfies the report specification. In every case both files only grow. |
| Stats.PathError | TRAF6-NGS_data/src/stat_collector.py:48 | A failing path assertion raises AssertionError exactly when every key is a string. Otherwise joining the message raises TypeError. |
| Stats.SetItem | TRAF6-NGS_data/src/stat_collector.py:69 | Storing into a dictionary updates that key. Lists take integer indexes; other containers raise. |
| Stats.PlaceLeaf | TRAF6-NGS_data/src/stat_collector.py:99-102 | The last step keeps the container's kind, and in a dictionary changes exactly the last key. |
| Stats.Walk | TRAF6-NGS_data/src/stat_collector.py:63-69 | Walking a dictionary gives a dictionary. |
| Stats.WalkThenLookup | TRAF6-NGS_data/src/stat_collector.py:56-102 | After create, set or create_or_set succeed, get at the same path returns the stored value. The step fails exactly with the item function's error. |
| Stats.WalkFrame | TRAF6-NGS_data/src/stat_collector.py:56-102 | Paths that branch away from the written path read the same as before. |
| Stats.SetNeedsPath | TRAF6-NGS_data/src/stat_collector.py:78-83 | set succeeds only when the parent of the path already exists. |
| Stats.SetIsCreate | TRAF6-NGS_data/src/stat_collector.py:63-83 | When the parent exists, set and create do the same thing. |
| Stats.Descend | TRAF6-NGS_data/src/stat_collector.py:63-68 | The walk down the path returns the dictionaries passed and the last container. Rebuilding upward after the last step gives Walk. A failing assertion fails for every leaf. |
| Stats.Rebuild | TRAF6-NGS_data/src/stat_collector.py:63-69 | Putting the changed container back along the path gives the nested update. |
| Stats.StatCollector.constructor | TRAF6-NGS_data/src/stat_collector.py:34-36 | A new collector is empty. |
| Stats.StatCollector.Get | TRAF6-NGS_data/src/stat_collector.py:41-54 | get follows the path: None at the first missing key, the path error on reaching a non-dictionary. |
| Stats.StatCollector.Place | TRAF6-NGS_data/src/stat_collector.py:56-102 | The shared walk stores the result on success and leaves the statistics unchanged on error. |
| Stats.StatCollector.Create | TRAF6-NGS_data/src/stat_collector.py:56-69 | create stores the item, creating missing dictionaries. An empty path fails the assertion. |
| Stats.StatCollector.Set | TRAF6-NGS_data/src/stat_collector.py:71-83 | set stores the item and fails when an intermediate key is missing. |
| Stats.StatCollector.CreateOrSet | TRAF6-NGS_data/src/stat_collector.py:85-102 | create_or_set stores f(old value), or f(None) when the key is absent. |
| Stats.StatCollector.Reset | TRAF6-NGS_data/src/stat_collector.py:199-203 | reset empties the statistics. |
| Stats.PlacedThenLookup | TRAF6-NGS_data/src/stat_collector.py:56-102 | On the collector's statistics, a successful store is read back by get at the same path. |
| Stats.PlacedFrame | TRAF6-NGS_data/src/stat_collector.py:56-102 | On the collector's statistics, a store leaves every branching path unchanged. |
| Stats.Counter | TRAF6-NGS_data/src/stat_collector.py:105-110 | counter is create_or_set with "old or 0, plus amount". |
| Stats.CounterStep | TRAF6-NGS_data/src/stat_collector.py:110 | An absent counter becomes the amount. An integer grows by the amount. Any other modelled value (a dictionary, set or list) raises TypeError. |
| Stats.CountersSum | TRAF6-NGS_data/src/stat_collector.py:105-110 | Counting amounts at a fresh path never fails and leaves their sum there, or nothing when there were none. |
| Stats.UniqueCounter | TRAF6-NGS_data/src/stat_collector.py:138-145 | unique_counter is create_or_set with "old set plus the item". |
| Stats.UniqueCounterStep | TRAF6-NGS_data/src/stat_collector.py:138-145 | An absent counter or a set gains the item, and its size grows by one exactly when the item is new. Any other modelled value (a dictionary, integer or list) raises TypeError. |
| Stats.ItemSet | TRAF6-NGS_data/src/stat_collector.py:144-145 | The set of the items counted: each of them and nothing else, no larger than their number. |
| Stats.UniqueCountersDistinct | TRAF6-NGS_data/src/stat_collector.py:138-145 | Unique-counting items at a fresh path never fails and leaves exactly the set of distinct items. |
| Common.NatToStringRoundTrip | TRAF6-NGS_data/src/stat_collector.py:171-172 | The decimal text `str` gives a non-negative integer reads back as that integer. |
| Common.IntToStringRoundTrip | TRAF6-NGS_data/src/stat_collector.py:175-176 | The decimal text `str` gives any integer, with its minus sign, reads back as that integer. |
| Stats.FormatValue | TRAF6-NGS_data/src/stat_collector.py:169-176 | A set formats as decimal digits that read back as its size. An integer formats as decimal text that reads back as the integer, and that text is all digits exactly when the integer is non-negative. |
| Stats.IntTextHasNoSeparator | TRAF6-NGS_data/src/stat_collector.py:174-176 | An integer's text holds no separator. |
| Stats.FormatFraction | TRAF6-NGS_data/src/stat_collector.py:169-176 | A fraction formats as numerator, ',', denominator. The only separator sits right after the numerator. The text before it reads back as the numerator and the text after it as the denominator. |
| Stats.Fraction | TRAF6-NGS_data/src/stat_collector.py:147-159 | fraction as written: a fresh path gets [amount, total]; an existing value fails the type assertion. |
| Stats.FractionIncrementFails | TRAF6-NGS_data/src/stat_collector.py:158 | After a successful first fraction at a path, a second one always raises and changes nothing. |
| Stats.CorrectedFraction | TRAF6-NGS_data/src/stat_collector.py:147-159 | fraction as intended: an existing two-integer list has both parts incremented. |
| Stats.FractionsAdd | TRAF6-NGS_data/src/stat_collector.py:147-159 | With the intended check, repeated fractions at a fresh path never fail and leave [sum of amounts, sum of totals]. |
| Stats.ApplyCounter | TRAF6-NGS_data/src/stat_collector.py:112-120 | apply_counter counts amount_function(key) at path + [key] for each key in turn, stopping at the first error. |
| Stats.ApplyAllConcat | TRAF6-NGS_data/src/stat_collector.py:119-120 | Applying counters for two key lists is applying the first and then, unless it failed, the second. |
| Stats.ApplyFrame | TRAF6-NGS_data/src/stat_collector.py:112-120 | Paths that branch away from every counted path read the same as before. |
| Stats.ApplyCountsEach | TRAF6-NGS_data/src/stat_collector.py:112-120 | For distinct keys at fresh paths, apply_counter never fails and leaves amount_function(key) under each key. |
| Stats.PermuteFrom | TRAF6-NGS_data/src/stat_collector.py:122-127 | The recursion applies counters for the combined keys in order: the prefix extended by one key from each remaining list. |
| Stats.PermuteApplyCounter | TRAF6-NGS_data/src/stat_collector.py:129-136 | As written, the counters land under the single key tuple(path) rather than under path. |
| Stats.CorrectedPermuteApplyCounter | TRAF6-NGS_data/src/stat_collector.py:129-136 | As intended, the counters land under path. |
| Stats.PermutedKeysSound | TRAF6-NGS_data/src/stat_collector.py:122-127 | Every combined key is a tuple of the prefix followed by one key from each list. |
| Stats.PermutedKeysComplete | TRAF6-NGS_data/src/stat_collector.py:122-127 | Every choice of one key from each list occurs as a combined key. |
| Stats.PermutedKeysDistinct | TRAF6-NGS_data/src/stat_collector.py:122-127 | Lists without repeats give combined keys without repeats. |
| Stats.CorrectedPermuteCountsEach | TRAF6-NGS_data/src/stat_collector.py:129-136 | With the intended path, every choice t of one key per list ends with amount_function(tuple(t)) at path + [tuple(t)], and nothing fails. |
| Stats.PermuteMissesPath | TRAF6-NGS_data/src/stat_collector.py:124 | As written, nothing under the first key of path changes. |

## Left out

- Reading input and writing files are not modelled. This covers `main_count_sequences`, argument parsing, directory creation, `seek`, the parameter file (`write_input_parameters`, evaluating `PARAMETER_LIST`) and stat_collector's `write`. Input is the list of reads with line ends already stripped. Output files are `Hierarchy.Sink` objects holding the lines written.
- The `sc.counter(1, "scores", score)` call inside `get_generic_sequence_by_alignment` is left out. It records a statistic and does not affect the extracted sequence.
- The unmasked branch of `score` (aligner.py lines 52-55) is left out: `align` always passes a pair of masks, so that branch is never reached from the modelled code. The `current_max` argument is unused by the code.
- NumPy's byte arrays are modelled as strings compared character by character.
- The aligner's gap character is one `char` (`Aligner.Config`). The source's `gap_character` is a string (aligner.py lines 15, 114 and 121). An empty or multi-character gap string would give rows of different widths, which the model does not cover.
- Aligner.Beats: `NO_SCORE` (-1e30) is a separate value below every real score. A configured score at or below -1e30 is not modelled.
- The dictionary order of `sorted(uniques.items(), ...)` among groups of equal population is left open. Any order by non-increasing population is accepted.
- Hierarchy.WriteHierarchicalUniqueSequences: the `complete_file` argument is optional (`Sink?`) but must be a different sink from the main output. On an error, the contract states which error a failed first grouping returns and that earlier output is kept (each sink's text only grows). It does not state which lines were written before the failure. Success is promised when no extraction raises under any task. That is sufficient, not necessary: lines outside every group are never extracted by later tasks.
- Stats.StatCollector.CreateOrSet: if the item function raises after missing intermediate dictionaries were created, Python keeps those empty dictionaries. The model restores the old statistics. The counters modelled here never raise on an absent value.
- Python values are shared by reference; the model's values are immutable. Aliasing between a stored list or set and a caller's copy is not modelled.
- The singleton decorator is not modelled. The single collector is an explicit `StatCollector` object passed to the module-level operations.
- Amounts are integers: `int()` of booleans and of other numeric types is not modelled.
- Stats.Value, Stats.Key: a statistic is only a dictionary, an integer, a set of keys or a list, and a key is only a string, an integer or a tuple of keys. In Python, `create`, `set` and `create_or_set` (stat_collector.py lines 56-102) store any object, and a key may be any hashable value. The one in-repository call with another key type is the float score passed by `get_generic_sequence_by_alignment` (count_sequences.py line 201), and that call is left out (above). The model therefore does not cover a stored None, float, bool, string or frozenset, or a float, bool or None key.
- Stats.CounterStep: states the outcome only for the modelled values. In Python, `counter` (stat_collector.py line 110) also treats a stored None as absent and adds the amount to a stored float or bool.
- Stats.UniqueCounterStep: states the outcome only for the modelled values. In Python, `unique_counter` (stat_collector.py line 145) also treats a stored None as absent and takes the union with a stored frozenset.
- Stats.FormatValue: a nested dictionary is not modelled (None), and neither is a list whose elements are not all integers (None). Python joins the `str` of any list's elements with ','. The formatting of dictionary keys is not modelled either: `_format_item` joins the `str` of a tuple key's elements with ','. `_is_iterable` is folded into the cases handled.

## Findings

| source | as written | input that shows it | evidently intended | confidence | as-written member | corrected member |
|---|---|---|---|---|---|---|
| TRAF6-NGS_data/src/stat_collector.py:158 | `old_value is list` compares the value with the type object, which is always false. So any second `fraction` at a path fails the assertion. | `fraction(1, 2, "f")` then `fraction(1, 3, "f")` raises AssertionError instead of storing [2, 5] | `type(old_value) is list`, so that fractions accumulate | not executed | Stats.FractionIncrementFails | Stats.FractionsAdd |
| TRAF6-NGS_data/src/stat_collector.py:124 | `_permute_apply_counter` passes the path tuple as one argument to `apply_counter`, so the counters are stored under the single key `tuple(path)` | `permute_apply_counter([["x"]], f, "p")` counts at [("p",), ("x",)] and leaves "p" untouched | `apply_counter(..., *path)`, counting at ["p", ("x",)] | not executed | Stats.PermuteMissesPath | Stats.CorrectedPermuteCountsEach |
