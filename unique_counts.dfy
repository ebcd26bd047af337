/** `count_unique_sequences` of count_sequences.py: the lines of the input
    (one read each, already stripped) grouped by the generic sequence a task
    extracts from them. Without ranks the result maps each key to the set of
    line indices that yield it; with ranks (a list giving each line the index
    of its group at the previous level, or None) the grouping is done within
    each rank separately. */
module UniqueCounts {
  import opened Common
  import opened GenericSequences

  /** Line indices grouped by the key extracted from each line. */
  type Groups = map<string, set<nat>>

  /** Per rank of the previous level, the grouping of that rank's lines. */
  type RankedGroups = map<nat, Groups>

  /** The key a line yields under a task: the generic sequence, None when the
      read is discarded, or the error the extraction raises. */
  function KeyOf(line: string, task: MatchTask): Result<Option<string>> {
    match task
    case ByAlignment(template, outputTemplate) => GenericByAlignmentOf(line, template, outputTemplate)
    case ByPosition(start, end) =>
      match GenericByPositionOf(line, [(start, end)])
      case Err(e) => Err(e)
      case Ok(g) => Ok(Some(g))
  }

  /** `type(match_task[0]) is str`: align a template, or else slice the one
      position range. */
  method ExtractKey(line: string, task: MatchTask) returns (r: Result<Option<string>>)
    ensures r == KeyOf(line, task)
  {
    match task
    case ByAlignment(template, outputTemplate) =>
      r := GenericByAlignment(line, template, outputTemplate);
    case ByPosition(start, end) =>
      var g := GenericByPosition(line, [(start, end)]);
      if g.Err? {
        return Err(g.error);
      }
      r := Ok(Some(g.value));
  }

  /** `ret[generic].add(i)`, creating the set when the key is new. */
  function AddTo(g: Groups, key: string, i: nat): (r: Groups)
    ensures r.Keys == g.Keys + {key}
    ensures r[key] == (if key in g then g[key] else {}) + {i}
    ensures forall k :: k in g && k != key ==> r[k] == g[k]
  {
    g[key := (if key in g then g[key] else {}) + {i}]
  }

  /** The update of the counting loop: `ret[generic].add(i)` when the key is
      known, `ret[generic] = set([i])` otherwise. */
  method Record(g: Groups, key: string, i: nat) returns (r: Groups)
    ensures r == AddTo(g, key, i)
  {
    if key in g {
      r := g[key := g[key] + {i}];
    } else {
      r := g[key := {i}];
      assert {} + {i} == {i};
    }
  }

  /** The extraction result of every line. */
  function KeysOf(lines: seq<string>, task: MatchTask): (keys: seq<Result<Option<string>>>)
    ensures |keys| == |lines|
    ensures forall i :: 0 <= i < |lines| ==> keys[i] == KeyOf(lines[i], task)
  {
    seq(|lines|, i requires 0 <= i < |lines| => KeyOf(lines[i], task))
  }

  /** The grouping of lines whose extraction results are `keys`, or the first
      error raised. */
  function Grouping(keys: seq<Result<Option<string>>>): Result<Groups> {
    if keys == [] then Ok(map[])
    else
      var i := |keys| - 1;
      match Grouping(keys[..i])
      case Err(e) => Err(e)
      case Ok(g) =>
        match keys[i]
        case Err(e) => Err(e)
        case Ok(key) => if key.None? then Ok(g) else Ok(AddTo(g, key.value, i))
  }

  /** The second value `count_unique_sequences` returns: the last line index
      plus one, which is 1 for an empty input. */
  function FileLength(n: nat): (r: nat)
    ensures r >= 1 && r >= n
    ensures n > 0 ==> r == n
  {
    if n == 0 then 1 else n
  }

  /** `count_unique_sequences(input_file, match_task)`. */
  method CountUniqueSequences(lines: seq<string>, task: MatchTask) returns (r: Result<(Groups, nat)>)
    ensures var g := Grouping(KeysOf(lines, task));
      && (g.Err? ==> r == Err(g.error))
      && (g.Ok? ==> r == Ok((g.value, FileLength(|lines|))))
  {
    ghost var keys := KeysOf(lines, task);
    var ret: Groups := map[];
    var numLines := 0;
    for i := 0 to |lines|
      invariant Grouping(keys[..i]) == Ok(ret)
      invariant numLines == Max(0, i - 1)
    {
      numLines := i;
      var generic := ExtractKey(lines[i], task);
      assert generic == keys[i];
      GroupingStep(keys, i, ret);
      if generic.Err? {
        GroupingErrStays(keys, i + 1);
        return Err(generic.error);
      }
      if generic.value.Some? {
        ret := Record(ret, generic.value.value, i);
      }
    }
    assert keys[..|lines|] == keys;
    return Ok((ret, numLines + 1));
  }

  /** One line of the counting loop. */
  lemma GroupingStep(keys: seq<Result<Option<string>>>, i: nat, g: Groups)
    requires i < |keys| && Grouping(keys[..i]) == Ok(g)
    ensures Grouping(keys[..i + 1]) ==
      match keys[i]
      case Err(e) => Err(e)
      case Ok(key) => if key.None? then Ok(g) else Ok(AddTo(g, key.value, i))
  {
    assert keys[..i + 1][..i] == keys[..i];
  }

  /** Once a line has raised, the result is that error. */
  lemma {:induction false} GroupingErrStays(keys: seq<Result<Option<string>>>, n: nat)
    requires n <= |keys| && Grouping(keys[..n]).Err?
    ensures Grouping(keys) == Grouping(keys[..n])
    decreases |keys| - n
  {
    if n < |keys| {
      assert keys[..|keys| - 1][..n] == keys[..n];
      GroupingErrStays(keys[..|keys| - 1], n);
    } else {
      assert keys[..n] == keys;
    }
  }

  /** Counting raises exactly the error of the first line whose extraction
      raises. */
  lemma {:induction false} GroupingErrIff(keys: seq<Result<Option<string>>>, e: PyError)
    ensures Grouping(keys) == Err(e) <==>
      exists i :: 0 <= i < |keys| && keys[i] == Err(e) && forall j :: 0 <= j < i ==> keys[j].Ok?
  {
    if keys != [] {
      var n := |keys| - 1;
      var prefix := keys[..n];
      GroupingErrIff(prefix, e);
      GroupingOkAll(prefix);
      if Grouping(keys) == Err(e) {
        if Grouping(prefix) == Err(e) {
          var i :| 0 <= i < n && prefix[i] == Err(e) && forall j :: 0 <= j < i ==> prefix[j].Ok?;
          assert keys[i] == Err(e) && forall j :: 0 <= j < i ==> keys[j].Ok?;
        } else {
          assert keys[n] == Err(e) && forall j :: 0 <= j < n ==> keys[j].Ok?;
        }
      }
      if exists i :: 0 <= i < |keys| && keys[i] == Err(e) && forall j :: 0 <= j < i ==> keys[j].Ok? {
        var i :| 0 <= i < |keys| && keys[i] == Err(e) && forall j :: 0 <= j < i ==> keys[j].Ok?;
        if i < n {
          assert prefix[i] == Err(e) && forall j :: 0 <= j < i ==> prefix[j].Ok?;
        }
      }
    }
  }

  /** Counting succeeds exactly when no line's extraction raises. */
  lemma {:induction false} GroupingOkAll(keys: seq<Result<Option<string>>>)
    ensures Grouping(keys).Ok? <==> forall i :: 0 <= i < |keys| ==> keys[i].Ok?
  {
    if keys != [] {
      var n := |keys| - 1;
      GroupingOkAll(keys[..n]);
      assert forall i :: 0 <= i < n ==> keys[..n][i] == keys[i];
    }
  }

  /** Every key names a non-empty set of indices below `n`. */
  predicate WellFormed(g: Groups, n: nat) {
    forall k :: k in g ==> g[k] != {} && forall i :: i in g[k] ==> i < n
  }

  /** No line index lies in two groups. */
  predicate Disjoint(g: Groups) {
    forall k, k', i :: k in g && k' in g && i in g[k] && i in g[k'] ==> k == k'
  }

  /** The line `i` yields the key `k`. */
  predicate Yields(keys: seq<Result<Option<string>>>, i: int, k: string) {
    0 <= i < |keys| && keys[i] == Ok(Some(k))
  }

  /** The grouping is a partition of the lines that yield a key: a line lies
      in the group of its key and in no other, and discarded lines lie
      nowhere. */
  lemma {:induction false} GroupingPartition(keys: seq<Result<Option<string>>>)
    requires Grouping(keys).Ok?
    ensures var g := Grouping(keys).value;
      && WellFormed(g, |keys|)
      && forall k, i :: (k in g && i in g[k]) <==> Yields(keys, i, k)
  {
    if keys != [] {
      var n := |keys| - 1;
      var prefix := keys[..n];
      GroupingPartition(prefix);
      var g := Grouping(keys).value;
      forall k, i ensures (k in g && i in g[k]) <==> Yields(keys, i, k) {
        if i < n {
          assert Yields(keys, i, k) <==> Yields(prefix, i, k);
        }
      }
    }
  }

  /** Consequently the groups are disjoint. */
  lemma GroupingDisjoint(keys: seq<Result<Option<string>>>)
    requires Grouping(keys).Ok?
    ensures Disjoint(Grouping(keys).value)
  {
    GroupingPartition(keys);
  }

  // With `indexes`.

  /** The ranked grouping of lines whose extraction results are `keys`, or the
      first error raised: a line whose rank is None is skipped, the rank's
      entry is created before the key is extracted, and reading a rank past
      the end of the list raises IndexError. */
  function RankedGrouping(keys: seq<Result<Option<string>>>, ranks: seq<Option<nat>>): Result<RankedGroups> {
    if keys == [] then Ok(map[])
    else
      var i := |keys| - 1;
      match RankedGrouping(keys[..i], ranks)
      case Err(e) => Err(e)
      case Ok(m) =>
        if i >= |ranks| then Err(IndexError)
        else if ranks[i].None? then Ok(m)
        else
          var rank := ranks[i].value;
          var m1 := if rank in m then m else m[rank := map[]];
          match keys[i]
          case Err(e) => Err(e)
          case Ok(key) => if key.None? then Ok(m1) else Ok(m1[rank := AddTo(m1[rank], key.value, i)])
  }

  /** `count_unique_sequences(input_file, match_task, indexes)`. */
  method CountUniqueSequencesRanked(lines: seq<string>, task: MatchTask, ranks: seq<Option<nat>>)
    returns (r: Result<(RankedGroups, nat)>)
    ensures var m := RankedGrouping(KeysOf(lines, task), ranks);
      && (m.Err? ==> r == Err(m.error))
      && (m.Ok? ==> r == Ok((m.value, FileLength(|lines|))))
  {
    ghost var keys := KeysOf(lines, task);
    var ret: RankedGroups := map[];
    var numLines := 0;
    for i := 0 to |lines|
      invariant RankedGrouping(keys[..i], ranks) == Ok(ret)
      invariant numLines == Max(0, i - 1)
    {
      numLines := i;
      RankedStep(keys, ranks, i, ret);
      if i >= |ranks| {
        RankedErrStays(keys, ranks, i + 1);
        return Err(IndexError);
      }
      if ranks[i].Some? {
        var rank := ranks[i].value;
        if rank !in ret {
          ret := ret[rank := map[]];
        }
        var generic := ExtractKey(lines[i], task);
        assert generic == keys[i];
        if generic.Err? {
          RankedErrStays(keys, ranks, i + 1);
          return Err(generic.error);
        }
        if generic.value.Some? {
          var toWrite := Record(ret[rank], generic.value.value, i);
          ret := ret[rank := toWrite];
        }
      }
    }
    assert keys[..|lines|] == keys;
    return Ok((ret, numLines + 1));
  }

  /** One line of the ranked counting loop. */
  lemma RankedStep(keys: seq<Result<Option<string>>>, ranks: seq<Option<nat>>, i: nat, m: RankedGroups)
    requires i < |keys| && RankedGrouping(keys[..i], ranks) == Ok(m)
    ensures RankedGrouping(keys[..i + 1], ranks) ==
      if i >= |ranks| then Err(IndexError)
      else if ranks[i].None? then Ok(m)
      else
        var rank := ranks[i].value;
        var m1 := if rank in m then m else m[rank := map[]];
        match keys[i]
        case Err(e) => Err(e)
        case Ok(key) => if key.None? then Ok(m1) else Ok(m1[rank := AddTo(m1[rank], key.value, i)])
  {
    assert keys[..i + 1][..i] == keys[..i];
  }

  lemma {:induction false} RankedErrStays(keys: seq<Result<Option<string>>>, ranks: seq<Option<nat>>, n: nat)
    requires n <= |keys| && RankedGrouping(keys[..n], ranks).Err?
    ensures RankedGrouping(keys, ranks) == RankedGrouping(keys[..n], ranks)
    decreases |keys| - n
  {
    if n < |keys| {
      assert keys[..|keys| - 1][..n] == keys[..n];
      RankedErrStays(keys[..|keys| - 1], ranks, n);
    } else {
      assert keys[..n] == keys;
    }
  }

  /** A rank list shorter than the input always raises. */
  lemma RankedShortRanks(keys: seq<Result<Option<string>>>, ranks: seq<Option<nat>>)
    requires |ranks| < |keys|
    ensures RankedGrouping(keys, ranks).Err?
  {
    var n := |ranks| + 1;
    assert keys[..n][..n - 1] == keys[..n - 1];
    RankedErrStays(keys, ranks, n);
  }

  /** With enough ranks, ranked counting succeeds exactly when no ranked
      line's extraction raises. */
  lemma {:induction false} RankedOkAll(keys: seq<Result<Option<string>>>, ranks: seq<Option<nat>>)
    requires |keys| <= |ranks|
    ensures RankedGrouping(keys, ranks).Ok? <==>
      forall i :: 0 <= i < |keys| && ranks[i].Some? ==> keys[i].Ok?
  {
    if keys != [] {
      var n := |keys| - 1;
      RankedOkAll(keys[..n], ranks);
      assert forall i :: 0 <= i < n ==> keys[..n][i] == keys[i];
    }
  }

  /** The ranked grouping has an entry for every rank some line carries (an
      empty one when none of its lines yields a key) and for no other. */
  lemma {:induction false} RankedEntries(keys: seq<Result<Option<string>>>, ranks: seq<Option<nat>>)
    requires RankedGrouping(keys, ranks).Ok?
    ensures |keys| <= |ranks|
    ensures var m := RankedGrouping(keys, ranks).value;
      forall rank :: rank in m <==> exists i :: 0 <= i < |keys| && ranks[i] == Some(rank)
  {
    if keys != [] {
      var n := |keys| - 1;
      RankedEntries(keys[..n], ranks);
      var m := RankedGrouping(keys, ranks).value;
      forall rank ensures rank in m <==> exists i :: 0 <= i < |keys| && ranks[i] == Some(rank) {
        if rank in m && ranks[n] != Some(rank) {
          var i :| 0 <= i < n && ranks[i] == Some(rank);
        }
      }
    }
  }

  /** Within each rank, the ranked grouping is the partition of that rank's
      lines by key. */
  lemma {:induction false} RankedPartition(keys: seq<Result<Option<string>>>, ranks: seq<Option<nat>>)
    requires RankedGrouping(keys, ranks).Ok?
    ensures var m := RankedGrouping(keys, ranks).value;
      && (forall rank :: rank in m ==> WellFormed(m[rank], |keys|))
      && (forall rank, k, i :: (rank in m && k in m[rank] && i in m[rank][k]) <==>
            (Yields(keys, i, k) && 0 <= i < |ranks| && ranks[i] == Some(rank)))
  {
    if keys != [] {
      var n := |keys| - 1;
      var prefix := keys[..n];
      RankedPartition(prefix, ranks);
      var mp := RankedGrouping(prefix, ranks).value;
      assert keys[..n + 1] == keys;
      RankedStep(keys, ranks, n, mp);
      RankedPartitionStep(keys, prefix, ranks, mp, RankedGrouping(keys, ranks).value);
    }
  }

  /** `RankedPartition` carried from all lines but the last (grouped in `mp`)
      to all of them (grouped in `m`). */
  lemma RankedPartitionStep(keys: seq<Result<Option<string>>>, prefix: seq<Result<Option<string>>>, ranks: seq<Option<nat>>,
                            mp: RankedGroups, m: RankedGroups)
    requires 0 < |keys| <= |ranks| && prefix == keys[..|keys| - 1]
    requires forall rank :: rank in mp ==> WellFormed(mp[rank], |keys| - 1)
    requires forall rank, k, i :: (rank in mp && k in mp[rank] && i in mp[rank][k]) <==>
      (Yields(prefix, i, k) && 0 <= i < |ranks| && ranks[i] == Some(rank))
    requires ranks[|keys| - 1].None? ==> m == mp
    requires ranks[|keys| - 1].Some? ==>
      var n, rank := |keys| - 1, ranks[|keys| - 1].value;
      var m1 := if rank in mp then mp else mp[rank := map[]];
      && keys[n].Ok?
      && m == if keys[n].value.None? then m1 else m1[rank := AddTo(m1[rank], keys[n].value.value, n)]
    ensures forall rank :: rank in m ==> WellFormed(m[rank], |keys|)
    ensures forall rank, k, i :: (rank in m && k in m[rank] && i in m[rank][k]) <==>
      (Yields(keys, i, k) && 0 <= i < |ranks| && ranks[i] == Some(rank))
  {
    var n := |keys| - 1;
    forall rank, k, i ensures (rank in m && k in m[rank] && i in m[rank][k]) <==>
      (Yields(keys, i, k) && 0 <= i < |ranks| && ranks[i] == Some(rank))
    {
      if i < n {
        assert Yields(keys, i, k) <==> Yields(prefix, i, k);
      }
      if rank in mp && k in mp[rank] && i in mp[rank][k] {
        assert WellFormed(mp[rank], n);
        assert i < n;
      }
      if ranks[n].Some? && ranks[n].value == rank {
        var m1 := if rank in mp then mp else mp[rank := map[]];
        assert m1[rank] == if rank in mp then mp[rank] else map[];
        if keys[n].value.Some? {
          var g := AddTo(m1[rank], keys[n].value.value, n);
          assert m[rank] == g;
          assert (k in g && i in g[k]) <==>
            ((k in m1[rank] && i in m1[rank][k]) || (k == keys[n].value.value && i == n));
        } else {
          assert m[rank] == m1[rank];
        }
      } else {
        assert rank in m <==> rank in mp;
        assert rank in m ==> m[rank] == mp[rank];
      }
    }
    forall rank | rank in m ensures WellFormed(m[rank], |keys|) {
      if rank in mp {
        assert WellFormed(mp[rank], n);
      }
    }
  }

  /** Consequently the groups within each rank are disjoint. */
  lemma RankedDisjoint(keys: seq<Result<Option<string>>>, ranks: seq<Option<nat>>)
    requires RankedGrouping(keys, ranks).Ok?
    ensures var m := RankedGrouping(keys, ranks).value;
      forall rank :: rank in m ==> Disjoint(m[rank])
  {
    RankedPartition(keys, ranks);
    var m := RankedGrouping(keys, ranks).value;
    forall rank | rank in m ensures Disjoint(m[rank]) {
      forall k, k', i | k in m[rank] && k' in m[rank] && i in m[rank][k] && i in m[rank][k'] ensures k == k' {
        assert Yields(keys, i, k) && Yields(keys, i, k');
      }
    }
  }
}
