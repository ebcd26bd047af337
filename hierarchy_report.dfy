/** The report `write_hierarchical_unique_sequences` of count_sequences.py
    writes, as a value: one entry per group of a level (its key, how many
    lines it holds and how many distinct keys the next task finds among
    them), each carrying the entries of the next level for its lines. The
    module defines the lines written for a report and when a report is the
    one the program writes for given counts. */
module HierarchyReport {
  import opened Common
  import opened UniqueCounts

  /** `OUTPUT_DELIMITER`. */
  const OutputDelimiter: string := "\t"

  /** One group of a level and the report of the next level within it. */
  datatype Entry = Entry(key: string, population: nat, uniqueSubmatches: nat, children: seq<Entry>)

  /** The line written for a group: two tabs per level of indentation, then
      the population, the number of unique submatches and the key, separated
      by tabs. */
  function LineOf(indent: nat, key: string, population: nat, uniqueSubmatches: nat): (r: string)
    ensures |r| == 2 * indent + |NatToString(population)| + |NatToString(uniqueSubmatches)| + |key| + 3
    ensures forall k :: 0 <= k < 2 * indent ==> r[k] == '\t'
    ensures '0' <= r[2 * indent] <= '9'
    ensures r[|r| - |key| - 1..] == key + "\n"
  {
    var a, b := NatToString(population), NatToString(uniqueSubmatches);
    var fields := [a, b, key];
    assert fields[..2] == [a, b] && [a, b][..1] == [a];
    assert Join(OutputDelimiter, [a, b]) == a + "\t" + b;
    assert Join(OutputDelimiter, fields) == a + "\t" + b + "\t" + key;
    var r := Repeat('\t', 2 * indent) + Join(OutputDelimiter, fields) + "\n";
    assert r == Repeat('\t', 2 * indent) + (NatToString(population) + "\t" + NatToString(uniqueSubmatches) + "\t" + key) + "\n";
    assert r[2 * indent] == NatToString(population)[0];
    r
  }

  /** Everything written to `complete_file` for a list of entries: each
      entry's line followed by what its children write. */
  function CompleteText(es: seq<Entry>, indent: nat): seq<string>
    decreases es
  {
    if es == [] then []
    else CompleteText(es[..|es| - 1], indent) + EntryText(es[|es| - 1], indent)
  }

  function EntryText(e: Entry, indent: nat): seq<string>
    decreases e
  {
    [LineOf(indent, e.key, e.population, e.uniqueSubmatches)] + CompleteText(e.children, indent + 1)
  }

  /** Everything written to `out_file` for a list of entries when `levels`
      tasks remain: nothing at the last level, otherwise each entry's line
      followed by what its children write. */
  function OutText(es: seq<Entry>, indent: nat, levels: nat): seq<string>
    decreases es
  {
    if es == [] then []
    else OutText(es[..|es| - 1], indent, levels) + EntryOut(es[|es| - 1], indent, levels)
  }

  function EntryOut(e: Entry, indent: nat, levels: nat): seq<string>
    decreases e
  {
    if levels <= 1 then []
    else [LineOf(indent, e.key, e.population, e.uniqueSubmatches)] + OutText(e.children, indent + 1, levels - 1)
  }

  /** The entries list every group exactly once, with its population, in
      order of non-increasing population (`sorted(..., reverse=True,
      key=len)`; the order among equal populations is left open). */
  ghost predicate Arranged(groups: Groups, report: seq<Entry>) {
    && (forall j :: 0 <= j < |report| ==>
          report[j].key in groups && report[j].population == |groups[report[j].key]|)
    && (forall k :: k in groups ==> exists j :: 0 <= j < |report| && report[j].key == k)
    && (forall j, j' :: 0 <= j < j' < |report| ==>
          report[j].key != report[j'].key && report[j].population >= report[j'].population)
  }

  /** The index sets of the arranged groups, in report order. */
  function GroupSets(groups: Groups, report: seq<Entry>): (r: seq<set<nat>>)
    requires forall j :: 0 <= j < |report| ==> report[j].key in groups
    ensures |r| == |report|
    ensures forall j :: 0 <= j < |report| ==> r[j] == groups[report[j].key]
  {
    seq(|report|, j requires 0 <= j < |report| => groups[report[j].key])
  }

  /** The rank `index_list` ends up holding for line `x`: the last group
      containing it. */
  function RankOf(sets: seq<set<nat>>, x: nat): (r: Option<nat>)
    ensures r.Some? ==> r.value < |sets| && x in sets[r.value]
    ensures r.Some? ==> forall j :: r.value < j < |sets| ==> x !in sets[j]
    ensures r.None? ==> forall j :: 0 <= j < |sets| ==> x !in sets[j]
  {
    if sets == [] then None
    else if x in sets[|sets| - 1] then Some(|sets| - 1)
    else RankOf(sets[..|sets| - 1], x)
  }

  /** Some group holds a line index past the end of `index_list`. */
  predicate OutOfRange(sets: seq<set<nat>>, fileLength: nat) {
    exists j, x :: 0 <= j < |sets| && x in sets[j] && x >= fileLength
  }

  /** `index_list` after the loop that fills it: for each line, the rank of
      its group, or None; an index past its end raises IndexError. */
  function RankTable(sets: seq<set<nat>>, fileLength: nat): (r: Result<seq<Option<nat>>>)
    ensures r.Ok? ==> |r.value| == fileLength
    ensures r.Ok? ==> forall x :: 0 <= x < fileLength ==> r.value[x] == RankOf(sets, x)
  {
    if OutOfRange(sets, fileLength) then Err(IndexError)
    else Ok(seq(fileLength, x requires 0 <= x < fileLength => RankOf(sets, x)))
  }

  /** `report` is what `write_hierarchical_unique_sequences` reports for the
      groups `groups` of the first task, where `taskKeys[t]` holds every
      line's extraction result under task `t`. At each level the entries are
      the arranged groups; with another task to come, the next level's
      ranked grouping must succeed, each group's unique submatches are the
      number of keys of its rank and its children are the report for that
      rank's grouping; at the last level the unique submatches are the
      population. */
  ghost predicate Reported(taskKeys: seq<seq<Result<Option<string>>>>, groups: Groups, fileLength: nat, report: seq<Entry>)
    decreases |taskKeys|
  {
    if |taskKeys| == 0 then report == []
    else
      && Arranged(groups, report)
      && if |taskKeys| == 1 then
           forall j :: 0 <= j < |report| ==>
             report[j].uniqueSubmatches == report[j].population && report[j].children == []
         else
           var table := RankTable(GroupSets(groups, report), fileLength);
           && table.Ok?
           && var ranked := RankedGrouping(taskKeys[1], table.value);
           && ranked.Ok?
           && forall j :: 0 <= j < |report| ==>
                && j in ranked.value
                && report[j].uniqueSubmatches == |ranked.value[j]|
                && Reported(taskKeys[1..], ranked.value[j], fileLength, report[j].children)
  }

  // Properties of reports.

  /** The keys of a list of entries. */
  function KeySet(es: seq<Entry>): (r: set<string>)
    ensures forall k :: k in r <==> exists j :: 0 <= j < |es| && es[j].key == k
  {
    if es == [] then {} else KeySet(es[..|es| - 1]) + {es[|es| - 1].key}
  }

  /** Entries with distinct keys have as many keys as entries. */
  lemma {:induction false} DistinctKeys(es: seq<Entry>)
    requires forall j, j' :: 0 <= j < j' < |es| ==> es[j].key != es[j'].key
    ensures |KeySet(es)| == |es|
  {
    if es != [] {
      var prefix := es[..|es| - 1];
      DistinctKeys(prefix);
      assert es[|es| - 1].key !in KeySet(prefix);
    }
  }

  /** An arranged level has one entry per group. */
  lemma ArrangedLength(groups: Groups, report: seq<Entry>)
    requires Arranged(groups, report)
    ensures |report| == |groups|
  {
    DistinctKeys(report);
    assert KeySet(report) == groups.Keys by {
      forall k ensures k in KeySet(report) <==> k in groups {
        if k in KeySet(report) {
          var j :| 0 <= j < |report| && report[j].key == k;
        }
      }
    }
  }

  /** The last level writes nothing to `out_file`. */
  lemma {:induction false} OutTextLastLevel(es: seq<Entry>, indent: nat)
    ensures OutText(es, indent, 1) == []
  {
    if es != [] {
      OutTextLastLevel(es[..|es| - 1], indent);
    }
  }

  /** Entries without children write one line each to `complete_file`. */
  lemma {:induction false} CompleteTextFlat(es: seq<Entry>, indent: nat)
    requires forall j :: 0 <= j < |es| ==> es[j].children == []
    ensures |CompleteText(es, indent)| == |es|
    ensures forall j :: 0 <= j < |es| ==>
      CompleteText(es, indent)[j] == LineOf(indent, es[j].key, es[j].population, es[j].uniqueSubmatches)
  {
    if es != [] {
      var n := |es| - 1;
      var prefix := es[..n];
      CompleteTextFlat(prefix, indent);
      var line := LineOf(indent, es[n].key, es[n].population, es[n].uniqueSubmatches);
      assert EntryText(es[n], indent) == [line];
      assert CompleteText(es, indent) == CompleteText(prefix, indent) + [line];
      FlatStep(es, prefix, CompleteText(prefix, indent), line, indent);
    }
  }

  /** One more childless entry adds its own line. */
  lemma FlatStep(es: seq<Entry>, prefix: seq<Entry>, prev: seq<string>, line: string, indent: nat)
    requires |es| > 0 && prefix == es[..|es| - 1] && |prev| == |prefix|
    requires forall j :: 0 <= j < |prefix| ==>
      prev[j] == LineOf(indent, prefix[j].key, prefix[j].population, prefix[j].uniqueSubmatches)
    requires line == LineOf(indent, es[|es| - 1].key, es[|es| - 1].population, es[|es| - 1].uniqueSubmatches)
    ensures |prev + [line]| == |es|
    ensures forall j :: 0 <= j < |es| ==>
      (prev + [line])[j] == LineOf(indent, es[j].key, es[j].population, es[j].uniqueSubmatches)
  {
    forall j | 0 <= j < |es|
      ensures (prev + [line])[j] == LineOf(indent, es[j].key, es[j].population, es[j].uniqueSubmatches)
    {
      if j < |prefix| {
        assert prefix[j] == es[j];
      }
    }
  }

  /** At the last level, `out_file` receives nothing and `complete_file` one
      line per group, whose unique submatches are the group's population. */
  lemma LastLevelReport(taskKeys: seq<seq<Result<Option<string>>>>, groups: Groups, fileLength: nat, report: seq<Entry>, indent: nat)
    requires |taskKeys| == 1 && Reported(taskKeys, groups, fileLength, report)
    ensures OutText(report, indent, 1) == []
    ensures |report| == |groups|
    ensures |CompleteText(report, indent)| == |report|
    ensures forall j :: 0 <= j < |report| ==>
      CompleteText(report, indent)[j] == LineOf(indent, report[j].key, |groups[report[j].key]|, |groups[report[j].key]|)
  {
    OutTextLastLevel(report, indent);
    CompleteTextFlat(report, indent);
    ArrangedLength(groups, report);
  }

  /** Above the last level, a group's unique submatches are the number of
      entries its children have: the distinct keys the next task yields on
      its lines. */
  lemma UniqueSubmatchesAreChildren(taskKeys: seq<seq<Result<Option<string>>>>, groups: Groups, fileLength: nat, report: seq<Entry>)
    requires |taskKeys| > 1 && Reported(taskKeys, groups, fileLength, report)
    ensures forall j :: 0 <= j < |report| ==> report[j].uniqueSubmatches == |report[j].children|
  {
    var table := RankTable(GroupSets(groups, report), fileLength).value;
    var ranked := RankedGrouping(taskKeys[1], table).value;
    forall j | 0 <= j < |report| ensures report[j].uniqueSubmatches == |report[j].children| {
      assert Reported(taskKeys[1..], ranked[j], fileLength, report[j].children);
      ArrangedLength(ranked[j], report[j].children);
    }
  }

  /** Total population of a list of entries. */
  function PopulationSum(es: seq<Entry>): nat {
    if es == [] then 0 else PopulationSum(es[..|es| - 1]) + es[|es| - 1].population
  }

  /** The lines of the groups a list of entries names. */
  function UnionOf(groups: Groups, es: seq<Entry>): (r: set<nat>)
    requires forall j :: 0 <= j < |es| ==> es[j].key in groups
    ensures forall i :: i in r <==> exists j :: 0 <= j < |es| && i in groups[es[j].key]
  {
    if es == [] then {}
    else
      var r := UnionOf(groups, es[..|es| - 1]) + groups[es[|es| - 1].key];
      assert forall j :: 0 <= j < |es| - 1 ==> es[..|es| - 1][j] == es[j];
      r
  }

  /** Over disjoint groups, the populations of distinct keys add up to the
      size of the union of their lines. */
  lemma {:induction false} PopulationSumIsUnion(groups: Groups, es: seq<Entry>)
    requires Disjoint(groups)
    requires forall j :: 0 <= j < |es| ==> es[j].key in groups && es[j].population == |groups[es[j].key]|
    requires forall j, j' :: 0 <= j < j' < |es| ==> es[j].key != es[j'].key
    ensures PopulationSum(es) == |UnionOf(groups, es)|
  {
    if es != [] {
      var n := |es| - 1;
      var prefix := es[..n];
      PopulationSumIsUnion(groups, prefix);
      var a, b := UnionOf(groups, prefix), groups[es[n].key];
      assert a * b == {} by {
        forall i | i in a ensures i !in b {
          var j :| 0 <= j < n && i in groups[prefix[j].key];
          assert prefix[j].key != es[n].key;
        }
      }
      assert |a + b| == |a| + |b|;
    }
  }

  /** Entries for the groups of a disjoint grouping whose lines all lie in
      `lines` hold at most `|lines|` lines together. */
  lemma ChildrenInside(sub: Groups, children: seq<Entry>, lines: set<nat>)
    requires Disjoint(sub) && Arranged(sub, children)
    requires forall k, i :: k in sub && i in sub[k] ==> i in lines
    ensures PopulationSum(children) <= |lines|
  {
    PopulationSumIsUnion(sub, children);
    SubsetCardinality(UnionOf(sub, children), lines);
  }

  /** Every rank of the next level's grouping is a disjoint grouping of lines
      of the group with that rank. */
  lemma RanksWithinGroups(keys: seq<Result<Option<string>>>, sets: seq<set<nat>>, fileLength: nat)
    requires RankTable(sets, fileLength).Ok?
    requires RankedGrouping(keys, RankTable(sets, fileLength).value).Ok?
    ensures var m := RankedGrouping(keys, RankTable(sets, fileLength).value).value;
      forall j, k, i :: j in m && k in m[j] && i in m[j][k] ==> j < |sets| && i in sets[j]
    ensures var m := RankedGrouping(keys, RankTable(sets, fileLength).value).value;
      forall j :: j in m ==> Disjoint(m[j])
  {
    var table := RankTable(sets, fileLength).value;
    RankedPartition(keys, table);
    RankedDisjoint(keys, table);
    var m := RankedGrouping(keys, table).value;
    forall j, k, i | j in m && k in m[j] && i in m[j][k] ensures j < |sets| && i in sets[j] {
      assert table[i] == Some(j);
    }
  }

  /** Above the last level, the populations of a group's children add up to
      at most the group's population: the children split the group's lines
      that the next task does not discard. */
  lemma ChildrenWithinParent(taskKeys: seq<seq<Result<Option<string>>>>, groups: Groups, fileLength: nat, report: seq<Entry>)
    requires |taskKeys| > 1 && Reported(taskKeys, groups, fileLength, report)
    ensures forall j :: 0 <= j < |report| ==> PopulationSum(report[j].children) <= report[j].population
  {
    var sets := GroupSets(groups, report);
    var ranked := RankedGrouping(taskKeys[1], RankTable(sets, fileLength).value).value;
    RanksWithinGroups(taskKeys[1], sets, fileLength);
    forall j | 0 <= j < |report| ensures PopulationSum(report[j].children) <= report[j].population {
      assert Reported(taskKeys[1..], ranked[j], fileLength, report[j].children);
      ChildrenInside(ranked[j], report[j].children, sets[j]);
    }
  }

  /** Over a disjoint grouping of the first `n <= fileLength` lines,
      `index_list` raises no IndexError and gives each line of group `j`
      the rank `j`. */
  lemma RankTableCovers(groups: Groups, report: seq<Entry>, n: nat, fileLength: nat)
    requires Arranged(groups, report) && Disjoint(groups) && WellFormed(groups, n) && n <= fileLength
    ensures RankTable(GroupSets(groups, report), fileLength).Ok?
    ensures forall j, x :: 0 <= j < |report| && x in groups[report[j].key] ==>
      x < fileLength && RankTable(GroupSets(groups, report), fileLength).value[x] == Some(j)
  {
    var sets := GroupSets(groups, report);
    assert !OutOfRange(sets, fileLength);
    forall j, x | 0 <= j < |report| && x in groups[report[j].key]
      ensures x < fileLength && RankOf(sets, x) == Some(j)
    {
      var r := RankOf(sets, x);
      assert x in sets[j];
      var j' := r.value;
      assert report[j'].key == report[j].key;
    }
  }

  /** Over a disjoint grouping of the lines, counting the next task by
      `index_list` yields an entry for every group, so `new_uniques[i]`
      raises no KeyError, and each of its ranks is again a disjoint grouping
      of the lines. */
  lemma EveryRankCounted(keys: seq<Result<Option<string>>>, groups: Groups, report: seq<Entry>, fileLength: nat)
    requires Arranged(groups, report) && Disjoint(groups) && WellFormed(groups, |keys|) && |keys| <= fileLength
    requires RankTable(GroupSets(groups, report), fileLength).Ok?
    requires RankedGrouping(keys, RankTable(GroupSets(groups, report), fileLength).value).Ok?
    ensures var m := RankedGrouping(keys, RankTable(GroupSets(groups, report), fileLength).value).value;
      forall j :: 0 <= j < |report| ==> j in m
    ensures var m := RankedGrouping(keys, RankTable(GroupSets(groups, report), fileLength).value).value;
      forall j :: j in m ==> WellFormed(m[j], |keys|) && Disjoint(m[j])
  {
    var table := RankTable(GroupSets(groups, report), fileLength).value;
    RankTableCovers(groups, report, |keys|, fileLength);
    RankedEntries(keys, table);
    RankedPartition(keys, table);
    RankedDisjoint(keys, table);
    var m := RankedGrouping(keys, table).value;
    forall j | 0 <= j < |report| ensures j in m {
      var x :| x in groups[report[j].key];
      assert table[x] == Some(j);
    }
  }
}
