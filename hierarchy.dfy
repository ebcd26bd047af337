/** `write_hierarchical_unique_sequences` of count_sequences.py: the
    recursive writer of the sequence hierarchy, proved to write the lines of
    a report that `HierarchyReport.Reported` describes. */
module Hierarchy {
  import opened Common
  import opened GenericSequences
  import opened UniqueCounts
  import opened HierarchyReport

  /** A text file opened for writing: the lines written to it so far. */
  class Sink {
    var written: seq<string>

    constructor ()
      ensures written == []
    {
      written := [];
    }

    /** `file.write(line)`. */
    method Write(line: string)
      modifies this
      ensures written == old(written) + [line]
    {
      written := written + [line];
    }
  }

  /** Every line's extraction result under every task. */
  function TaskKeys(lines: seq<string>, tasks: seq<MatchTask>): (r: seq<seq<Result<Option<string>>>>)
    ensures |r| == |tasks|
    ensures forall t :: 0 <= t < |tasks| ==> r[t] == KeysOf(lines, tasks[t])
  {
    seq(|tasks|, t requires 0 <= t < |tasks| => KeysOf(lines, tasks[t]))
  }

  /** No line's extraction raises under any of `tasks`. */
  predicate NoneRaise(lines: seq<string>, tasks: seq<MatchTask>) {
    forall t, i :: 0 <= t < |tasks| && 0 <= i < |lines| ==> Extracts(lines[i], tasks[t])
  }

  /** Extracting a key from `line` under `task` does not raise. */
  predicate Extracts(line: string, task: MatchTask) {
    KeyOf(line, task).Ok?
  }

  /** `groups` is a disjoint grouping of some of the first `n` lines, with
      `n` at most `fileLength`: what counting the lines returns. */
  predicate LineGroups(groups: Groups, n: nat, fileLength: nat) {
    Disjoint(groups) && WellFormed(groups, n) && n <= fileLength
  }

  /** The ranks below `count` all have an entry in `new_uniques`, each a
      grouping of the `n` lines. */
  predicate RanksPresent(newUniques: RankedGroups, count: nat, n: nat, fileLength: nat) {
    forall j :: 0 <= j < count ==> j in newUniques && LineGroups(newUniques[j], n, fileLength)
  }

  /** Rank `j` is the first without an entry in `new_uniques`. */
  predicate FirstMissing(newUniques: RankedGroups, j: nat, n: nat, fileLength: nat) {
    j !in newUniques && RanksPresent(newUniques, j, n, fileLength)
  }

  /** When no extraction raises under `tasks`, none raises under its tail,
      nor under its first task. */
  lemma NoneRaiseTail(lines: seq<string>, tasks: seq<MatchTask>)
    requires |tasks| > 0 && NoneRaise(lines, tasks)
    ensures NoneRaise(lines, tasks[1..])
    ensures forall i :: 0 <= i < |lines| ==> KeysOf(lines, tasks[0])[i].Ok?
  {
    forall t, i | 0 <= t < |tasks| - 1 && 0 <= i < |lines| ensures Extracts(lines[i], tasks[1..][t]) {
      assert tasks[1..][t] == tasks[t + 1];
    }
    forall i | 0 <= i < |lines| ensures KeysOf(lines, tasks[0])[i].Ok? {
      assert Extracts(lines[i], tasks[0]);
    }
  }

  /** The keys of `groups` by non-increasing population, each exactly once. */
  predicate ByPopulation(groups: Groups, order: seq<string>) {
    && (forall j :: 0 <= j < |order| ==> order[j] in groups)
    && (forall k :: k in groups ==> k in order)
    && (forall j, j' :: 0 <= j < j' < |order| ==>
          order[j] != order[j'] && |groups[order[j]]| >= |groups[order[j']]|)
  }

  /** Among the keys `ks` of `groups`, one has a largest group. */
  lemma {:induction false} LargestExists(groups: Groups, ks: set<string>)
    requires ks != {} && ks <= groups.Keys
    ensures exists k :: k in ks && forall k' :: k' in ks ==> |groups[k']| <= |groups[k]|
    decreases |ks|
  {
    var k0 :| k0 in ks;
    var rest := ks - {k0};
    if rest == {} {
      forall k' | k' in ks ensures k' == k0 {
        assert k' !in rest;
      }
    } else {
      LargestExists(groups, rest);
      var k1 :| k1 in rest && forall k' :: k' in rest ==> |groups[k']| <= |groups[k1]|;
      if |groups[k1]| >= |groups[k0]| {
        assert forall k' :: k' in ks ==> k' == k0 || k' in rest;
      } else {
        assert forall k' :: k' in ks ==> k' == k0 || k' in rest;
      }
    }
  }

  /** `sorted(uniques.items(), reverse=True, key=lambda x: len(x[1]))`,
      keeping the keys: repeatedly takes a largest remaining group. */
  method ArrangeByPopulation(groups: Groups) returns (order: seq<string>)
    ensures ByPopulation(groups, order)
  {
    var rest := groups.Keys;
    order := [];
    while rest != {}
      invariant rest <= groups.Keys
      invariant forall j :: 0 <= j < |order| ==> order[j] in groups && order[j] !in rest
      invariant forall k :: k in groups ==> k in rest || k in order
      invariant forall j, j' :: 0 <= j < j' < |order| ==>
        order[j] != order[j'] && |groups[order[j]]| >= |groups[order[j']]|
      invariant forall j, k :: 0 <= j < |order| && k in rest ==> |groups[order[j]]| >= |groups[k]|
      decreases |rest|
    {
      LargestExists(groups, rest);
      var k :| k in rest && forall k' :: k' in rest ==> |groups[k']| <= |groups[k]|;
      order := order + [k];
      rest := rest - {k};
    }
  }

  /** The groups of `order`, in order. */
  function SetsOf(groups: Groups, order: seq<string>): (r: seq<set<nat>>)
    requires forall j :: 0 <= j < |order| ==> order[j] in groups
    ensures |r| == |order|
    ensures forall j :: 0 <= j < |order| ==> r[j] == groups[order[j]]
  {
    seq(|order|, j requires 0 <= j < |order| => groups[order[j]])
  }

  /** The loop filling `index_list`: an array of `file_length` Nones in
      which each line of group `j` receives `j`, raising IndexError for a
      line past its end. */
  method FillRanks(sets: seq<set<nat>>, fileLength: nat) returns (r: Result<seq<Option<nat>>>)
    ensures r == RankTable(sets, fileLength)
  {
    var index := new Option<nat>[fileLength](_ => None);
    for j := 0 to |sets|
      invariant forall x :: 0 <= x < fileLength ==> index[x] == RankOf(sets[..j], x)
      invariant forall y, x :: 0 <= y < j && x in sets[y] ==> x < fileLength
    {
      var ok := MarkGroup(index, sets[j], j);
      if !ok {
        assert OutOfRange(sets, fileLength) by {
          var x :| x in sets[j] && x >= fileLength;
        }
        return Err(IndexError);
      }
      forall x | 0 <= x < fileLength ensures index[x] == RankOf(sets[..j + 1], x) {
        RankOfExtend(sets, j, x);
      }
    }
    assert sets[..|sets|] == sets;
    assert !OutOfRange(sets, fileLength);
    assert index[..] == seq(fileLength, x requires 0 <= x < fileLength => RankOf(sets, x));
    return Ok(index[..]);
  }

  /** The inner loop of `index_list`'s filling: every line of `group`
      receives the rank `j`, or IndexError (`ok` false) for a line past the
      end of the array. */
  method MarkGroup(index: array<Option<nat>>, group: set<nat>, j: nat) returns (ok: bool)
    modifies index
    ensures ok <==> forall x :: x in group ==> x < index.Length
    ensures ok ==> forall x :: 0 <= x < index.Length ==> index[x] == if x in group then Some(j) else old(index[x])
  {
    var rest := group;
    ghost var done: set<nat> := {};
    while rest != {}
      invariant rest + done == group
      invariant forall x :: x in done ==> x < index.Length
      invariant forall x :: 0 <= x < index.Length ==> index[x] == if x in done then Some(j) else old(index[x])
      decreases |rest|
    {
      var x :| x in rest;
      if x >= index.Length {
        return false;
      }
      index[x] := Some(j);
      rest := rest - {x};
      done := done + {x};
    }
    return true;
  }

  /** The rank of a line among the first `j + 1` groups. */
  lemma RankOfExtend(sets: seq<set<nat>>, j: nat, x: nat)
    requires j < |sets|
    ensures RankOf(sets[..j + 1], x) == if x in sets[j] then Some(j) else RankOf(sets[..j], x)
  {
    assert sets[..j + 1][..j] == sets[..j];
  }

  /** Over a grouping of the lines, when no line's extraction raises
      under the next task, filling `index_list` raises no IndexError,
      counting the next task by it raises nothing, and `new_uniques` has an
      entry for every group, itself a grouping of the lines: the loop over
      the groups meets no KeyError. */
  lemma NextLevelSucceeds(lines: seq<string>, task: MatchTask, uniques: Groups, order: seq<string>, fileLength: nat)
    requires ByPopulation(uniques, order) && LineGroups(uniques, |lines|, fileLength)
    requires forall i :: 0 <= i < |lines| ==> KeysOf(lines, task)[i].Ok?
    ensures RankTable(SetsOf(uniques, order), fileLength).Ok?
    ensures var m := RankedGrouping(KeysOf(lines, task), RankTable(SetsOf(uniques, order), fileLength).value);
      m.Ok? && RanksPresent(m.value, |order|, |lines|, fileLength)
  {
    var report := seq(|order|, j requires 0 <= j < |order| => Entry(order[j], |uniques[order[j]]|, 0, []));
    assert GroupSets(uniques, report) == SetsOf(uniques, order);
    assert Arranged(uniques, report) by {
      forall k | k in uniques ensures exists j :: 0 <= j < |report| && report[j].key == k {
        var j :| 0 <= j < |order| && order[j] == k;
        assert report[j].key == k;
      }
    }
    var keys := KeysOf(lines, task);
    RankTableCovers(uniques, report, |lines|, fileLength);
    RankedOkAll(keys, RankTable(SetsOf(uniques, order), fileLength).value);
    EveryRankCounted(keys, uniques, report, fileLength);
  }

  /** `TaskKeys` of the remaining tasks is the tail of `TaskKeys`. */
  lemma TaskKeysTail(lines: seq<string>, tasks: seq<MatchTask>)
    requires |tasks| > 0
    ensures TaskKeys(lines, tasks[1..]) == TaskKeys(lines, tasks)[1..]
  {
  }

  /** Writing a line and then `rest` extends a file by the line followed
      by `rest`. */
  lemma WrittenAfter(before: seq<string>, line: string, rest: seq<string>, after: seq<string>)
    requires after == before + [line] + rest
    ensures after == before + ([line] + rest)
  {
  }

  /** Writing `first` and then `second` extends a file by both. */
  lemma WrittenInTurn(before: seq<string>, first: seq<string>, middle: seq<string>, second: seq<string>, after: seq<string>)
    requires middle == before + first && after == middle + second
    ensures after == before + (first + second)
  {
  }

  /** Appending an entry appends what it writes to `out_file`. */
  lemma OutTextAppend(es: seq<Entry>, e: Entry, indent: nat, levels: nat)
    ensures OutText(es + [e], indent, levels) == OutText(es, indent, levels) + EntryOut(e, indent, levels)
  {
    assert (es + [e])[..|es|] == es;
  }

  /** Appending an entry appends what it writes to `complete_file`. */
  lemma CompleteTextAppend(es: seq<Entry>, e: Entry, indent: nat)
    ensures CompleteText(es + [e], indent) == CompleteText(es, indent) + EntryText(e, indent)
  {
    assert (es + [e])[..|es|] == es;
  }

  /** The entries of `report` are those of the first `|report|` keys of
      `order`: each with its group's population, and with `levels` tasks
      left, either the last level (unique submatches are the population, no
      children) or counting and reporting its rank of the next level, whose
      extraction results are `next`. */
  ghost predicate LevelSoFar(levels: nat, next: seq<seq<Result<Option<string>>>>, uniques: Groups, order: seq<string>,
                             newUniques: RankedGroups, fileLength: nat, report: seq<Entry>) {
    && |report| <= |order|
    && (forall i :: 0 <= i < |report| ==>
          order[i] in uniques && report[i].key == order[i] && report[i].population == |uniques[order[i]]|)
    && (levels == 1 ==> forall i :: 0 <= i < |report| ==>
          report[i].uniqueSubmatches == report[i].population && report[i].children == [])
    && (levels > 1 ==> forall i :: 0 <= i < |report| ==>
          && i in newUniques
          && report[i].uniqueSubmatches == |newUniques[i]|
          && Reported(next, newUniques[i], fileLength, report[i].children))
  }

  /** `LevelSoFar` grows by the entry of the next key of `order`. */
  lemma LevelSoFarAppend(levels: nat, next: seq<seq<Result<Option<string>>>>, uniques: Groups, order: seq<string>,
                         newUniques: RankedGroups, fileLength: nat, report: seq<Entry>, e: Entry)
    requires LevelSoFar(levels, next, uniques, order, newUniques, fileLength, report)
    requires |report| < |order| && order[|report|] in uniques
    requires e.key == order[|report|] && e.population == |uniques[order[|report|]]|
    requires levels == 1 ==> e.uniqueSubmatches == e.population && e.children == []
    requires levels > 1 ==>
      && |report| in newUniques
      && e.uniqueSubmatches == |newUniques[|report|]|
      && Reported(next, newUniques[|report|], fileLength, e.children)
    ensures LevelSoFar(levels, next, uniques, order, newUniques, fileLength, report + [e])
  {
    var r := report + [e];
    assert forall i :: 0 <= i < |report| ==> r[i] == report[i];
    assert r[|report|] == e;
  }

  /** A complete level whose entries follow `order`, over the next level's
      ranked grouping, is the reported level. */
  lemma LevelReported(taskKeys: seq<seq<Result<Option<string>>>>, uniques: Groups, fileLength: nat,
                      order: seq<string>, report: seq<Entry>, newUniques: RankedGroups)
    requires |taskKeys| > 0 && ByPopulation(uniques, order) && |report| == |order|
    requires LevelSoFar(|taskKeys|, taskKeys[1..], uniques, order, newUniques, fileLength, report)
    requires |taskKeys| > 1 ==>
      && RankTable(SetsOf(uniques, order), fileLength).Ok?
      && RankedGrouping(taskKeys[1], RankTable(SetsOf(uniques, order), fileLength).value) == Ok(newUniques)
    ensures Reported(taskKeys, uniques, fileLength, report)
  {
    assert Arranged(uniques, report) by {
      forall k | k in uniques ensures exists j :: 0 <= j < |report| && report[j].key == k {
        var j :| 0 <= j < |order| && order[j] == k;
        assert report[j].key == k;
      }
    }
    assert GroupSets(uniques, report) == SetsOf(uniques, order);
  }

  /** One iteration of the loop over `sorted_uniques`: writes the group's
      line to the complete file and, above the last level, to the out file
      followed by the next level within the group. */
  method WriteEntry(lines: seq<string>, tasks: seq<MatchTask>, out: Sink, complete: Sink?, indent: nat,
                    key: string, population: nat, uniqueSubmatches: nat, sub: Groups, fileLength: nat)
    returns (r: Result<()>, ghost e: Entry)
    requires |tasks| > 0 && complete != out
    modifies out, complete
    decreases |tasks|, 1
    ensures NoneRaise(lines, tasks[1..]) && (|tasks| > 1 ==> LineGroups(sub, |lines|, fileLength)) ==> r.Ok?
    ensures r.Ok? ==> e.key == key && e.population == population && e.uniqueSubmatches == uniqueSubmatches
    ensures r.Ok? && |tasks| == 1 ==> e.children == []
    ensures r.Ok? && |tasks| > 1 ==> Reported(TaskKeys(lines, tasks[1..]), sub, fileLength, e.children)
    ensures r.Ok? ==> out.written == old(out.written) + EntryOut(e, indent, |tasks|)
    ensures r.Ok? && complete != null ==> complete.written == old(complete.written) + EntryText(e, indent)
    ensures old(out.written) <= out.written
    ensures complete != null ==> old(complete.written) <= complete.written
  {
    var line := LineOf(indent, key, population, uniqueSubmatches);
    if complete != null {
      complete.Write(line);
    }
    ghost var completeBefore := if complete != null then complete.written else [];
    ghost var children := [];
    r := Ok(());
    if |tasks| > 1 {
      r, children := WriteNested(lines, tasks, out, complete, indent, line, sub, fileLength);
      if r.Ok? && complete != null {
        WrittenInTurn(old(complete.written), [line], completeBefore, CompleteText(children, indent + 1), complete.written);
      }
    } else if complete != null {
      assert complete.written == old(complete.written) + [line] + CompleteText([], indent + 1);
    }
    e := Entry(key, population, uniqueSubmatches, children);
  }

  /** Above the last level: the group's line to the out file, then the next
      level within the group. */
  method WriteNested(lines: seq<string>, tasks: seq<MatchTask>, out: Sink, complete: Sink?, indent: nat,
                     line: string, sub: Groups, fileLength: nat)
    returns (r: Result<()>, ghost children: seq<Entry>)
    requires |tasks| > 1 && complete != out
    modifies out, complete
    decreases |tasks|, 0
    ensures NoneRaise(lines, tasks[1..]) && LineGroups(sub, |lines|, fileLength) ==> r.Ok?
    ensures r.Ok? ==> Reported(TaskKeys(lines, tasks[1..]), sub, fileLength, children)
    ensures r.Ok? ==> out.written == old(out.written) + ([line] + OutText(children, indent + 1, |tasks| - 1))
    ensures r.Ok? && complete != null ==> complete.written == old(complete.written) + CompleteText(children, indent + 1)
    ensures old(out.written) <= out.written
    ensures complete != null ==> old(complete.written) <= complete.written
  {
    out.Write(line);
    ghost var outMiddle := out.written;
    var rest := tasks[1..];
    r, children := WriteLevel(lines, rest, out, complete, indent + 1, sub, fileLength);
    if r.Ok? {
      WrittenInTurn(old(out.written), [line], outMiddle, OutText(children, indent + 1, |rest|), out.written);
    }
  }

  /** The precomputation of the next level: `index_list` from the arranged
      groups, then `count_unique_sequences` of the next task by it. */
  method NextLevel(lines: seq<string>, task: MatchTask, sets: seq<set<nat>>, fileLength: nat)
    returns (r: Result<RankedGroups>)
    ensures var table := RankTable(sets, fileLength);
      && (table.Err? ==> r == Err(table.error))
      && (table.Ok? ==> var m := RankedGrouping(KeysOf(lines, task), table.value);
            && (m.Err? ==> r == Err(m.error))
            && (m.Ok? ==> r == Ok(m.value)))
  {
    var table := FillRanks(sets, fileLength);
    if table.Err? {
      return Err(table.error);
    }
    var counted := CountUniqueSequencesRanked(lines, task, table.value);
    if counted.Err? {
      return Err(counted.error);
    }
    r := Ok(counted.value.0);
  }

  /** The loop over `sorted_uniques`: one entry per key of `order`, the
      unique submatches of entry `j` being the size of `new_uniques[j]`
      above the last level (KeyError when it is missing). */
  method WriteEntries(lines: seq<string>, tasks: seq<MatchTask>, out: Sink, complete: Sink?, indent: nat,
                      uniques: Groups, order: seq<string>, newUniques: RankedGroups, fileLength: nat)
    returns (r: Result<()>, ghost report: seq<Entry>)
    requires |tasks| > 0 && complete != out
    requires forall j :: 0 <= j < |order| ==> order[j] in uniques
    modifies out, complete
    decreases |tasks|, 3
    ensures NoneRaise(lines, tasks[1..]) && (|tasks| > 1 ==> RanksPresent(newUniques, |order|, |lines|, fileLength)) ==> r.Ok?
    ensures var raises := |tasks| > 1 && NoneRaise(lines, tasks[1..]);
      forall j0 :: 0 <= j0 < |order| && raises && FirstMissing(newUniques, j0, |lines|, fileLength) ==> r == Err(KeyError)
    ensures r.Ok? ==> |report| == |order|
    ensures r.Ok? ==> LevelSoFar(|tasks|, TaskKeys(lines, tasks[1..]), uniques, order, newUniques, fileLength, report)
    ensures r.Ok? ==> out.written == old(out.written) + OutText(report, indent, |tasks|)
    ensures r.Ok? && complete != null ==> complete.written == old(complete.written) + CompleteText(report, indent)
    ensures old(out.written) <= out.written
    ensures complete != null ==> old(complete.written) <= complete.written
  {
    report := [];
    r := Ok(());
    var j := 0;
    ghost var raiseFree := NoneRaise(lines, tasks[1..]);
    ghost var next := TaskKeys(lines, tasks[1..]);
    while j < |order| && r.Ok?
      invariant 0 <= j <= |order|
      invariant r.Ok? ==> |report| == j
      invariant raiseFree && (|tasks| > 1 ==> RanksPresent(newUniques, j, |lines|, fileLength)) ==> r.Ok?
      invariant forall j0 :: 0 <= j0 < j && |tasks| > 1 && raiseFree && FirstMissing(newUniques, j0, |lines|, fileLength) ==> r == Err(KeyError)
      invariant r.Ok? ==> LevelSoFar(|tasks|, next, uniques, order, newUniques, fileLength, report)
      invariant r.Ok? ==> out.written == old(out.written) + OutText(report, indent, |tasks|)
      invariant r.Ok? && complete != null ==> complete.written == old(complete.written) + CompleteText(report, indent)
      invariant old(out.written) <= out.written
      invariant complete != null ==> old(complete.written) <= complete.written
      decreases |order| - j
    {
      ghost var before := r;
      r, report := WriteGroup(lines, tasks, out, complete, indent, uniques, order, newUniques, fileLength, j, report,
                              old(out.written), if complete != null then old(complete.written) else []);
      KeyErrorKept(|tasks| > 1 && raiseFree, newUniques, |lines|, fileLength, j, before, r);
      j := j + 1;
    }
    KeyErrorAfter(|tasks| > 1 && NoneRaise(lines, tasks[1..]), newUniques, |order|, |lines|, fileLength, j, r);
  }

  /** One more group of the loop keeps "the first missing rank raises
      KeyError". */
  lemma KeyErrorKept(raises: bool, newUniques: RankedGroups, n: nat, fileLength: nat, j: nat, before: Result<()>, r: Result<()>)
    requires before.Ok?
    requires forall j0 :: 0 <= j0 < j && raises && FirstMissing(newUniques, j0, n, fileLength) ==> before == Err(KeyError)
    requires raises && j !in newUniques ==> r == Err(KeyError)
    ensures forall j0 :: 0 <= j0 < j + 1 && raises && FirstMissing(newUniques, j0, n, fileLength) ==> r == Err(KeyError)
  {
  }

  /** When the loop stops, either every group was written or the first
      missing rank was met. */
  lemma KeyErrorAfter(raises: bool, newUniques: RankedGroups, count: nat, n: nat, fileLength: nat, j: nat, r: Result<()>)
    requires j <= count && (j == count || r.Err?)
    requires raises && RanksPresent(newUniques, j, n, fileLength) ==> r.Ok?
    requires forall j0 :: 0 <= j0 < j && raises && FirstMissing(newUniques, j0, n, fileLength) ==> r == Err(KeyError)
    ensures forall j0 :: 0 <= j0 < count && raises && FirstMissing(newUniques, j0, n, fileLength) ==> r == Err(KeyError)
  {
    forall j0 | 0 <= j0 < count && raises && FirstMissing(newUniques, j0, n, fileLength) ensures r == Err(KeyError) {
      if j0 >= j {
        assert RanksPresent(newUniques, j, n, fileLength);
      }
    }
  }

  /** One iteration of the loop over `sorted_uniques`, for the group of
      `order[j]`: the KeyError of a missing `new_uniques` entry, or
      the entry written and appended to the report. */
  method WriteGroup(lines: seq<string>, tasks: seq<MatchTask>, out: Sink, complete: Sink?, indent: nat,
                    uniques: Groups, order: seq<string>, newUniques: RankedGroups, fileLength: nat,
                    j: nat, ghost report: seq<Entry>, ghost outBase: seq<string>, ghost completeBase: seq<string>)
    returns (r: Result<()>, ghost report': seq<Entry>)
    requires |tasks| > 0 && complete != out
    requires j == |report| < |order| && order[j] in uniques
    requires LevelSoFar(|tasks|, TaskKeys(lines, tasks[1..]), uniques, order, newUniques, fileLength, report)
    requires out.written == outBase + OutText(report, indent, |tasks|)
    requires complete != null ==> complete.written == completeBase + CompleteText(report, indent)
    modifies out, complete
    decreases |tasks|, 2
    ensures |tasks| > 1 && j !in newUniques ==> r == Err(KeyError)
    ensures NoneRaise(lines, tasks[1..]) && (|tasks| > 1 ==> RanksPresent(newUniques, j + 1, |lines|, fileLength)) ==> r.Ok?
    ensures r.Ok? ==> |report'| == |report| + 1
    ensures r.Ok? ==> LevelSoFar(|tasks|, TaskKeys(lines, tasks[1..]), uniques, order, newUniques, fileLength, report')
    ensures r.Ok? ==> report' == report + [report'[|report|]]
    ensures r.Ok? ==> out.written == outBase + OutText(report', indent, |tasks|)
    ensures r.Ok? && complete != null ==> complete.written == completeBase + CompleteText(report', indent)
    ensures outBase <= out.written
    ensures complete != null ==> completeBase <= complete.written
  {
    report' := report;
    var population := |uniques[order[j]]|;
    var uniqueSubmatches := population;
    var sub: Groups := map[];
    if |tasks| > 1 {
      if j in newUniques {
        sub := newUniques[j];
        uniqueSubmatches := |sub|;
      } else {
        return Err(KeyError), report';
      }
    }
    ghost var e;
    ghost var outMiddle := out.written;
    ghost var completeMiddle := if complete != null then complete.written else [];
    r, e := WriteEntry(lines, tasks, out, complete, indent, order[j], population, uniqueSubmatches, sub, fileLength);
    if r.Ok? {
      LevelSoFarAppend(|tasks|, TaskKeys(lines, tasks[1..]), uniques, order, newUniques, fileLength, report, e);
      report' := report + [e];
      assert report'[|report|] == e;
      OutTextAppend(report, e, indent, |tasks|);
      WrittenInTurn(outBase, OutText(report, indent, |tasks|), outMiddle, EntryOut(e, indent, |tasks|), out.written);
      if complete != null {
        CompleteTextAppend(report, e, indent);
        WrittenInTurn(completeBase, CompleteText(report, indent), completeMiddle, EntryText(e, indent), complete.written);
      }
    }
  }

  /** `write_hierarchical_unique_sequences(in_file, match_ranges, out_file,
      indent, complete_file, uniques, file_length)` once `uniques` is known:
      writes the report of `uniques` under `tasks`, the out file receiving
      every level but the last and the complete file (when there is one)
      every level. On an error the lines written before it stay. */
  method WriteLevel(lines: seq<string>, tasks: seq<MatchTask>, out: Sink, complete: Sink?, indent: nat,
                    uniques: Groups, fileLength: nat)
    returns (r: Result<()>, ghost report: seq<Entry>)
    requires complete != out
    modifies out, complete
    decreases |tasks|, 4
    ensures NoneRaise(lines, tasks) && LineGroups(uniques, |lines|, fileLength) ==> r.Ok?
    ensures r.Ok? ==> Reported(TaskKeys(lines, tasks), uniques, fileLength, report)
    ensures r.Ok? ==> out.written == old(out.written) + OutText(report, indent, |tasks|)
    ensures r.Ok? && complete != null ==> complete.written == old(complete.written) + CompleteText(report, indent)
    ensures old(out.written) <= out.written
    ensures complete != null ==> old(complete.written) <= complete.written
  {
    report := [];
    r := Ok(());
    if |tasks| == 0 {
      return;
    }
    var order := ArrangeByPopulation(uniques);
    var newUniques: RankedGroups := map[];
    if |tasks| > 1 {
      if NoneRaise(lines, tasks) && LineGroups(uniques, |lines|, fileLength) {
        NoneRaiseTail(lines, tasks[1..]);
        NextLevelSucceeds(lines, tasks[1], uniques, order, fileLength);
      }
      var next := NextLevel(lines, tasks[1], SetsOf(uniques, order), fileLength);
      if next.Err? {
        r := Err(next.error);
      } else {
        newUniques := next.value;
      }
    }
    if NoneRaise(lines, tasks) {
      NoneRaiseTail(lines, tasks);
    }
    if r.Ok? {
      r, report := WriteEntries(lines, tasks, out, complete, indent, uniques, order, newUniques, fileLength);
      if r.Ok? {
        TaskKeysTail(lines, tasks);
        assert TaskKeys(lines, tasks)[1..] == TaskKeys(lines, tasks[1..]);
        LevelReported(TaskKeys(lines, tasks), uniques, fileLength, order, report, newUniques);
      }
    }
  }

  /** `write_hierarchical_unique_sequences(in_file, match_ranges, out_file,
      complete_file=complete)`: nothing for no tasks; otherwise the lines are
      counted by the first task and the report of those groups is written. */
  method WriteHierarchicalUniqueSequences(lines: seq<string>, tasks: seq<MatchTask>, out: Sink, complete: Sink?)
    returns (r: Result<()>, ghost report: seq<Entry>)
    requires complete != out
    modifies out, complete
    ensures NoneRaise(lines, tasks) ==> r.Ok?
    ensures tasks != [] && Grouping(KeysOf(lines, tasks[0])).Err? ==> r == Err(Grouping(KeysOf(lines, tasks[0])).error)
    ensures old(out.written) <= out.written
    ensures complete != null ==> old(complete.written) <= complete.written
    ensures tasks == [] ==> r == Ok(()) && out.written == old(out.written)
    ensures tasks == [] && complete != null ==> complete.written == old(complete.written)
    ensures r.Ok? && tasks != [] ==>
      && Grouping(KeysOf(lines, tasks[0])).Ok?
      && Reported(TaskKeys(lines, tasks), Grouping(KeysOf(lines, tasks[0])).value, FileLength(|lines|), report)
      && out.written == old(out.written) + OutText(report, 0, |tasks|)
      && (complete != null ==> complete.written == old(complete.written) + CompleteText(report, 0))
  {
    report := [];
    if |tasks| == 0 {
      return Ok(()), report;
    }
    if NoneRaise(lines, tasks) {
      NoneRaiseTail(lines, tasks);
      GroupingOkAll(KeysOf(lines, tasks[0]));
    }
    var counted := CountUniqueSequences(lines, tasks[0]);
    if counted.Err? {
      return Err(counted.error), report;
    }
    GroupingPartition(KeysOf(lines, tasks[0]));
    GroupingDisjoint(KeysOf(lines, tasks[0]));
    r, report := WriteLevel(lines, tasks, out, complete, 0, counted.value.0, counted.value.1);
  }
}
