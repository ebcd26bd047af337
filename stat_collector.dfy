/** stat_collector.py: a collector of statistics held in a nested
    dictionary addressed by key paths, with counters, unique counters and
    fractions on top. The process-wide singleton becomes one `StatCollector`
    object that the module-level operations receive. */
module Stats {
  import opened Common

  /** A dictionary key: a string, an integer or a tuple of keys. */
  datatype Key = Text(s: string) | Number(n: int) | Tuple(items: seq<Key>)

  /** A statistic: a nested dictionary, an integer count, the set of a unique
      counter, or a list (a fraction's `[numerator, denominator]`). */
  datatype Value = Dict(entries: map<Key, Value>) | Int(n: int) | Items(members: set<Key>) | List(elems: seq<Value>)

  /** The error a failed `assert` on a key path raises: its message joins the
      path with "->", which raises TypeError unless every key is a string. */
  function PathError(path: seq<Key>): (e: PyError)
    ensures e == AssertionError <==> forall i :: 0 <= i < |path| ==> path[i].Text?
  {
    if forall i :: 0 <= i < |path| ==> path[i].Text? then AssertionError else TypeError
  }

  /** `get(*path)` from `v`: follows the keys in order, None at the first
      missing key, the error `e` on reaching a non-dictionary with keys left. */
  function Lookup(v: Value, path: seq<Key>, e: PyError): Result<Option<Value>>
    decreases |path|
  {
    if path == [] then Ok(Some(v))
    else if !v.Dict? then Err(e)
    else if path[0] in v.entries then Lookup(v.entries[path[0]], path[1..], e)
    else Ok(None)
  }

  /** Python's `current[key] = item`: a dictionary stores it, a list replaces
      the element at an integer index (negative from the end, IndexError out
      of range, TypeError for another key), anything else raises TypeError. */
  function SetItem(c: Value, key: Key, item: Value): (r: Result<Value>)
    ensures c.Dict? ==> r == Ok(Dict(c.entries[key := item]))
    ensures r.Ok? ==> r.value.Dict? == c.Dict?
  {
    match c
    case Dict(m) => Ok(Dict(m[key := item]))
    case List(xs) =>
      if !key.Number? then Err(TypeError)
      else if -|xs| <= key.n < 0 then Ok(List(xs[key.n + |xs| := item]))
      else if 0 <= key.n < |xs| then Ok(List(xs[key.n := item]))
      else Err(IndexError)
    case _ => Err(TypeError)
  }

  /** Python's `key in current`: dictionary keys, set members, list
      elements equal to the key (an integer key equals an integer element);
      an integer is not iterable. */
  function Contains(c: Value, key: Key): Result<bool> {
    match c
    case Dict(m) => Ok(key in m)
    case Items(s) => Ok(key in s)
    case List(xs) => Ok(key.Number? && Int(key.n) in xs)
    case Int(_) => Err(TypeError)
  }

  /** Python's `current[key]`: dictionaries and integer indexes of lists;
      sets and integers are not subscriptable. */
  function GetItem(c: Value, key: Key): Result<Value> {
    match c
    case Dict(m) => if key in m then Ok(m[key]) else Err(KeyError)
    case List(xs) =>
      if !key.Number? then Err(TypeError)
      else if -|xs| <= key.n < 0 then Ok(xs[key.n + |xs|])
      else if 0 <= key.n < |xs| then Ok(xs[key.n])
      else Err(IndexError)
    case _ => Err(TypeError)
  }

  /** What is done at the last key: `create`/`set` store an item,
      `create_or_set` stores `f(old)` (`f(None)` when the key is absent). */
  datatype Leaf = Put(item: Value) | Apply(f: Option<Value> -> Result<Value>)

  /** The last step of `create`, `set` and `create_or_set` on the container
      `c` reached by the walk. */
  function PlaceLeaf(c: Value, key: Key, leaf: Leaf): (r: Result<Value>)
    ensures r.Ok? ==> r.value.Dict? == c.Dict?
    ensures c.Dict? && r.Ok? ==> key in r.value.entries && r.value == Dict(c.entries[key := r.value.entries[key]])
  {
    match leaf
    case Put(item) => SetItem(c, key, item)
    case Apply(f) =>
      var present := Contains(c, key);
      if present.Err? then Err(present.error)
      else if present.value then
        var previous := GetItem(c, key);
        if previous.Err? then Err(previous.error)
        else
          var n := f(Some(previous.value));
          if n.Err? then Err(n.error) else SetItem(c, key, n.value)
      else
        var n := f(None);
        if n.Err? then Err(n.error) else SetItem(c, key, n.value)
  }

  /** The value the leaf stores given the old value at the path. */
  function LeafValue(previous: Option<Value>, leaf: Leaf): Result<Value> {
    match leaf
    case Put(item) => Ok(item)
    case Apply(f) => f(previous)
  }

  /** `v` after walking `path[..|path| - 1]` (each container must be a
      dictionary; a missing key becomes a new empty dictionary when
      `creating`, an assertion failure otherwise) and applying `leaf` at the
      last key. */
  function Walk(v: Value, path: seq<Key>, creating: bool, leaf: Leaf, e: PyError): (r: Result<Value>)
    requires |path| > 0
    ensures v.Dict? && r.Ok? ==> r.value.Dict?
    decreases |path|
  {
    if |path| == 1 then PlaceLeaf(v, path[0], leaf)
    else if !v.Dict? then Err(e)
    else if path[0] !in v.entries && !creating then Err(e)
    else
      var child := if path[0] in v.entries then v.entries[path[0]] else Dict(map[]);
      var sub := Walk(child, path[1..], creating, leaf, e);
      if sub.Err? then sub else Ok(Dict(v.entries[path[0] := sub.value]))
  }

  /** The statistics after `create`, `set` (not `creating`) or
      `create_or_set` at `path`: an empty path fails the assertion. */
  function Placed(root: map<Key, Value>, path: seq<Key>, creating: bool, leaf: Leaf): Result<map<Key, Value>> {
    if |path| == 0 then Err(AssertionError)
    else
      var w := Walk(Dict(root), path, creating, leaf, PathError(path));
      if w.Err? then Err(w.error) else Ok(w.value.entries)
  }

  /** The dictionaries `chain` passed on the way down `keys`, with `v` put
      back at the bottom. */
  ghost function Wrap(chain: seq<map<Key, Value>>, keys: seq<Key>, v: Value): (r: Value)
    requires |chain| == |keys|
    ensures chain != [] ==> r.Dict?
  {
    if chain == [] then v
    else Wrap(chain[..|chain| - 1], keys[..|keys| - 1], Dict(chain[|chain| - 1][keys[|keys| - 1] := v]))
  }

  ghost function WrapResult(chain: seq<map<Key, Value>>, keys: seq<Key>, r: Result<Value>): Result<Value>
    requires |chain| == |keys|
  {
    if r.Err? then r else Ok(Wrap(chain, keys, r.value))
  }

  lemma WrapAppend(chain: seq<map<Key, Value>>, keys: seq<Key>, m: map<Key, Value>, key: Key, v: Value)
    requires |chain| == |keys|
    ensures Wrap(chain + [m], keys + [key], v) == Wrap(chain, keys, Dict(m[key := v]))
  {
    assert (chain + [m])[..|chain|] == chain;
    assert (keys + [key])[..|keys|] == keys;
  }

  /** `q` leaves `path` at some key both have. */
  predicate Diverges(q: seq<Key>, path: seq<Key>) {
    |q| > 0 && |path| > 0 && (q[0] != path[0] || Diverges(q[1..], path[1..]))
  }

  /** Two paths ending in different keys after a common prefix diverge. */
  lemma {:induction false} SiblingsDiverge(path: seq<Key>, k: Key, k': Key)
    requires k != k'
    ensures Diverges(path + [k], path + [k'])
  {
    if path != [] {
      assert (path + [k])[1..] == path[1..] + [k];
      assert (path + [k'])[1..] == path[1..] + [k'];
      SiblingsDiverge(path[1..], k, k');
    }
  }

  /** Placing a leaf in a dictionary and looking its key up. */
  lemma LeafThenLookup(c: Value, key: Key, leaf: Leaf, e': PyError)
    requires c.Dict?
    ensures var n := LeafValue(if key in c.entries then Some(c.entries[key]) else None, leaf);
      var w := PlaceLeaf(c, key, leaf);
      && (n.Err? ==> w == Err(n.error))
      && (n.Ok? ==> w.Ok? && Lookup(w.value, [key], e') == Ok(Some(n.value)))
  {
    assert [key][1..] == [];
  }

  /** After a successful walk, looking the path up gives what the leaf
      stored, computed from what the lookup gave before. */
  lemma {:induction false} WalkThenLookup(v: Value, path: seq<Key>, creating: bool, leaf: Leaf, e: PyError, e': PyError)
    requires |path| > 0 && Lookup(v, path, e').Ok?
    requires creating || Lookup(v, path, e').value.Some?
    ensures var w := Walk(v, path, creating, leaf, e);
      var n := LeafValue(Lookup(v, path, e').value, leaf);
      && (n.Err? ==> w == Err(n.error))
      && (n.Ok? ==> w.Ok? && Lookup(w.value, path, e') == Ok(Some(n.value)))
    decreases |path|, 1
  {
    if |path| == 1 {
      assert path[1..] == [];
      LeafThenLookup(v, path[0], leaf, e');
    } else {
      DeeperThenLookup(v, path, creating, leaf, e, e');
    }
  }

  /** The step of `WalkThenLookup` through one dictionary. */
  lemma {:induction false} DeeperThenLookup(v: Value, path: seq<Key>, creating: bool, leaf: Leaf, e: PyError, e': PyError)
    requires |path| > 1 && Lookup(v, path, e').Ok?
    requires creating || Lookup(v, path, e').value.Some?
    ensures var w := Walk(v, path, creating, leaf, e);
      var n := LeafValue(Lookup(v, path, e').value, leaf);
      && (n.Err? ==> w == Err(n.error))
      && (n.Ok? ==> w.Ok? && Lookup(w.value, path, e') == Ok(Some(n.value)))
    decreases |path|, 0
  {
    var m := v.entries;
    var child := if path[0] in m then m[path[0]] else Dict(map[]);
    assert Lookup(v, path, e') == Lookup(child, path[1..], e');
    WalkThenLookup(child, path[1..], creating, leaf, e, e');
    var sub := Walk(child, path[1..], creating, leaf, e);
    if sub.Ok? {
      assert Walk(v, path, creating, leaf, e) == Ok(Dict(m[path[0] := sub.value]));
    }
  }

  /** Placing a leaf at `key` leaves the paths starting with another key as
      they were. */
  lemma LeafFrame(c: Value, key: Key, leaf: Leaf, q: seq<Key>, e': PyError)
    requires PlaceLeaf(c, key, leaf).Ok? && |q| > 0 && q[0] != key
    ensures Lookup(PlaceLeaf(c, key, leaf).value, q, e') == Lookup(c, q, e')
  {
  }

  /** A successful walk leaves every path that diverges from it as it was. */
  lemma {:induction false} WalkFrame(v: Value, path: seq<Key>, creating: bool, leaf: Leaf, e: PyError, q: seq<Key>, e': PyError)
    requires |path| > 0 && Walk(v, path, creating, leaf, e).Ok? && Diverges(q, path)
    ensures Lookup(Walk(v, path, creating, leaf, e).value, q, e') == Lookup(v, q, e')
    decreases |path|
  {
    if |path| == 1 {
      assert !Diverges(q[1..], path[1..]);
      LeafFrame(v, path[0], leaf, q, e');
    } else if q[0] == path[0] {
      var m := v.entries;
      var child := if path[0] in m then m[path[0]] else Dict(map[]);
      WalkFrame(child, path[1..], creating, leaf, e, q[1..], e');
      if path[0] !in m {
        assert Lookup(child, q[1..], e') == Ok(None);
      }
    }
  }

  /** `set` succeeds only where every key before the last exists. */
  lemma {:induction false} SetNeedsPath(v: Value, path: seq<Key>, leaf: Leaf, e: PyError, e': PyError)
    requires |path| > 0 && Walk(v, path, false, leaf, e).Ok?
    ensures Lookup(v, path[..|path| - 1], e').Ok? && Lookup(v, path[..|path| - 1], e').value.Some?
    decreases |path|
  {
    if |path| > 1 {
      SetNeedsPath(v.entries[path[0]], path[1..], leaf, e, e');
      assert path[..|path| - 1][1..] == path[1..][..|path| - 2];
    }
  }

  /** Where every key before the last exists, `set` does what `create`
      does. */
  lemma {:induction false} SetIsCreate(v: Value, path: seq<Key>, leaf: Leaf, e: PyError, e': PyError)
    requires |path| > 0 && Lookup(v, path[..|path| - 1], e').Ok? && Lookup(v, path[..|path| - 1], e').value.Some?
    ensures Walk(v, path, false, leaf, e) == Walk(v, path, true, leaf, e)
    decreases |path|
  {
    if |path| > 1 {
      assert path[..|path| - 1][1..] == path[1..][..|path| - 2];
      SetIsCreate(v.entries[path[0]], path[1..], leaf, e, e');
    }
  }

  /** The walk of `create`, `set` and `create_or_set` down
      `path[..|path| - 1]`: the dictionaries passed and the container
      reached, or the assertion failure. */
  method Descend(root: Value, path: seq<Key>, creating: bool, e: PyError)
    returns (r: Result<(seq<map<Key, Value>>, Value)>)
    requires |path| > 0
    ensures r.Err? ==> r == Err(e) && forall leaf :: Walk(root, path, creating, leaf, e) == Err(e)
    ensures r.Ok? ==> |r.value.0| == |path| - 1
    ensures r.Ok? ==> forall leaf ::
                        Walk(root, path, creating, leaf, e) ==
                        WrapResult(r.value.0, path[..|path| - 1], PlaceLeaf(r.value.1, path[|path| - 1], leaf))
  {
    var current := root;
    var chain: seq<map<Key, Value>> := [];
    var j := 0;
    while j < |path| - 1
      invariant 0 <= j <= |path| - 1 && |chain| == j
      invariant forall leaf ::
                  Walk(root, path, creating, leaf, e) ==
                  WrapResult(chain, path[..j], Walk(current, path[j..], creating, leaf, e))
    {
      assert path[j..][0] == path[j] && path[j..][1..] == path[j + 1..];
      if !current.Dict? || (path[j] !in current.entries && !creating) {
        return Err(e);
      }
      var child := if path[j] in current.entries then current.entries[path[j]] else Dict(map[]);
      forall leaf ensures WrapResult(chain, path[..j], Walk(current, path[j..], creating, leaf, e)) ==
        WrapResult(chain + [current.entries], path[..j] + [path[j]], Walk(child, path[j + 1..], creating, leaf, e))
      {
        var sub := Walk(child, path[j + 1..], creating, leaf, e);
        if sub.Ok? {
          WrapAppend(chain, path[..j], current.entries, path[j], sub.value);
        }
      }
      assert path[..j + 1] == path[..j] + [path[j]];
      chain := chain + [current.entries];
      current := child;
      j := j + 1;
    }
    assert path[j..] == [path[j]];
    r := Ok((chain, current));
  }

  /** The way back up: puts `v` into the last dictionary of `chain`, that
      one into the one before, and so on. */
  method Rebuild(chain: seq<map<Key, Value>>, keys: seq<Key>, v: Value) returns (r: Value)
    requires |chain| == |keys|
    ensures r == Wrap(chain, keys, v)
    ensures chain != [] ==> r.Dict?
  {
    r := v;
    var k := |chain|;
    assert chain[..k] == chain && keys[..k] == keys;
    while k > 0
      invariant 0 <= k <= |chain|
      invariant Wrap(chain, keys, v) == Wrap(chain[..k], keys[..k], r)
    {
      assert chain[..k][..k - 1] == chain[..k - 1] && keys[..k][..k - 1] == keys[..k - 1];
      r := Dict(chain[k - 1][keys[k - 1] := r]);
      k := k - 1;
    }
  }

  /** The stat collector: the nested dictionary of statistics. */
  class StatCollector {
    var statistics: map<Key, Value>

    constructor ()
      ensures statistics == map[]
    {
      statistics := map[];
    }

    /** `get(*path)`. */
    method Get(path: seq<Key>) returns (r: Result<Option<Value>>)
      ensures r == Lookup(Dict(statistics), path, PathError(path))
    {
      var e := PathError(path);
      var current := Dict(statistics);
      for j := 0 to |path|
        invariant Lookup(Dict(statistics), path, e) == Lookup(current, path[j..], e)
      {
        assert path[j..][0] == path[j] && path[j..][1..] == path[j + 1..];
        if !current.Dict? {
          return Err(e);
        }
        if path[j] in current.entries {
          current := current.entries[path[j]];
        } else {
          return Ok(None);
        }
      }
      return Ok(Some(current));
    }

    /** The loop shared by `create`, `set` and `create_or_set`: walks the
        path down to its last key, applies the leaf there, then stores the
        updated dictionaries back on the way up. On an error nothing
        changes. */
    method Place(path: seq<Key>, creating: bool, leaf: Leaf) returns (r: Result<()>)
      modifies this
      ensures var s := Placed(old(statistics), path, creating, leaf);
        && (s.Ok? ==> r == Ok(()) && statistics == s.value)
        && (s.Err? ==> r == Err(s.error) && statistics == old(statistics))
    {
      if |path| == 0 {
        return Err(AssertionError);
      }
      var e := PathError(path);
      var down := Descend(Dict(statistics), path, creating, e);
      if down.Err? {
        return Err(e);
      }
      var (chain, current) := down.value;
      var placed := PlaceLeaf(current, path[|path| - 1], leaf);
      if placed.Err? {
        return Err(placed.error);
      }
      var v := Rebuild(chain, path[..|path| - 1], placed.value);
      assert Walk(Dict(statistics), path, creating, leaf, e) == Ok(v);
      statistics := v.entries;
      r := Ok(());
    }

    /** `create(item, *path)`. */
    method Create(item: Value, path: seq<Key>) returns (r: Result<()>)
      modifies this
      ensures var s := Placed(old(statistics), path, true, Put(item));
        && (s.Ok? ==> r == Ok(()) && statistics == s.value)
        && (s.Err? ==> r == Err(s.error) && statistics == old(statistics))
    {
      r := Place(path, true, Put(item));
    }

    /** `set(item, *path)`. */
    method Set(item: Value, path: seq<Key>) returns (r: Result<()>)
      modifies this
      ensures var s := Placed(old(statistics), path, false, Put(item));
        && (s.Ok? ==> r == Ok(()) && statistics == s.value)
        && (s.Err? ==> r == Err(s.error) && statistics == old(statistics))
    {
      r := Place(path, false, Put(item));
    }

    /** `create_or_set(item_function, *path)`. */
    method CreateOrSet(f: Option<Value> -> Result<Value>, path: seq<Key>) returns (r: Result<()>)
      modifies this
      ensures var s := Placed(old(statistics), path, true, Apply(f));
        && (s.Ok? ==> r == Ok(()) && statistics == s.value)
        && (s.Err? ==> r == Err(s.error) && statistics == old(statistics))
    {
      r := Place(path, true, Apply(f));
    }

    /** `reset()`. */
    method Reset()
      modifies this
      ensures statistics == map[]
    {
      statistics := map[];
    }
  }

  /** Placing at a path that looks up without error stores the leaf's value
      there, or raises what the leaf's function raises. */
  lemma PlacedThenLookup(root: map<Key, Value>, path: seq<Key>, creating: bool, leaf: Leaf)
    requires |path| > 0 && Lookup(Dict(root), path, PathError(path)).Ok?
    requires creating || Lookup(Dict(root), path, PathError(path)).value.Some?
    ensures var s := Placed(root, path, creating, leaf);
      var n := LeafValue(Lookup(Dict(root), path, PathError(path)).value, leaf);
      && (n.Err? ==> s == Err(n.error))
      && (n.Ok? ==> s.Ok? && Lookup(Dict(s.value), path, PathError(path)) == Ok(Some(n.value)))
  {
    WalkThenLookup(Dict(root), path, creating, leaf, PathError(path), PathError(path));
  }

  /** Placing at a path leaves every path that diverges from it as it was. */
  lemma PlacedFrame(root: map<Key, Value>, path: seq<Key>, creating: bool, leaf: Leaf, q: seq<Key>, e': PyError)
    requires Placed(root, path, creating, leaf).Ok? && Diverges(q, path)
    ensures Lookup(Dict(Placed(root, path, creating, leaf).value), q, e') == Lookup(Dict(root), q, e')
  {
    WalkFrame(Dict(root), path, creating, leaf, PathError(path), q, e');
  }

  /** The statistics and result of an operation that either succeeds with
      new statistics or raises and leaves them as they were. */
  function Outcome(root: map<Key, Value>, s: Result<map<Key, Value>>): (map<Key, Value>, Result<()>) {
    if s.Ok? then (s.value, Ok(())) else (root, Err(s.error))
  }

  /** The item function of `counter`: the old count (0 when absent) plus the
      amount; adding an integer to a dictionary, set or list raises
      TypeError. */
  function AddAmount(amount: int): Option<Value> -> Result<Value> {
    (previous: Option<Value>) =>
      if previous.None? then Ok(Int(amount))
      else if previous.value.Int? then Ok(Int(previous.value.n + amount))
      else Err(TypeError)
  }

  /** `counter(amount, *path)`. */
  method Counter(c: StatCollector, amount: int, path: seq<Key>) returns (r: Result<()>)
    modifies c
    ensures (c.statistics, r) == Outcome(old(c.statistics), Placed(old(c.statistics), path, true, Apply(AddAmount(amount))))
  {
    r := c.CreateOrSet(AddAmount(amount), path);
  }

  /** One counter call: an absent statistic starts at the amount, an integer
      grows by it, anything else raises TypeError. */
  lemma CounterStep(root: map<Key, Value>, amount: int, path: seq<Key>)
    requires |path| > 0 && Lookup(Dict(root), path, PathError(path)).Ok?
    ensures var p := Lookup(Dict(root), path, PathError(path)).value;
      var s := Placed(root, path, true, Apply(AddAmount(amount)));
      && (p.None? ==> s.Ok? && Lookup(Dict(s.value), path, PathError(path)) == Ok(Some(Int(amount))))
      && (p.Some? && p.value.Int? ==>
            s.Ok? && Lookup(Dict(s.value), path, PathError(path)) == Ok(Some(Int(p.value.n + amount))))
      && (p.Some? && !p.value.Int? ==> s == Err(TypeError))
  {
    PlacedThenLookup(root, path, true, Apply(AddAmount(amount)));
  }

  /** The statistics after `counter(a, *path)` for each `a` of `amounts` in
      turn, or the first error. */
  function Counted(root: map<Key, Value>, path: seq<Key>, amounts: seq<int>): Result<map<Key, Value>>
    decreases |amounts|
  {
    if amounts == [] then Ok(root)
    else
      var previous := Counted(root, path, amounts[..|amounts| - 1]);
      if previous.Err? then previous
      else Placed(previous.value, path, true, Apply(AddAmount(amounts[|amounts| - 1])))
  }

  /** Counters add up: on a path that held nothing, successive counter calls
      leave the sum of their amounts. */
  lemma {:induction false} CountersSum(root: map<Key, Value>, path: seq<Key>, amounts: seq<int>)
    requires |path| > 0 && Lookup(Dict(root), path, PathError(path)) == Ok(None)
    ensures Counted(root, path, amounts).Ok?
    ensures Lookup(Dict(Counted(root, path, amounts).value), path, PathError(path)) ==
            if amounts == [] then Ok(None) else Ok(Some(Int(Sum(amounts))))
    decreases |amounts|
  {
    if amounts != [] {
      CountersSum(root, path, amounts[..|amounts| - 1]);
      CounterStep(Counted(root, path, amounts[..|amounts| - 1]).value, amounts[|amounts| - 1], path);
    }
  }

  /** The item function of `unique_counter`: the old set (empty when absent)
      with the item added; `|` on a dictionary, integer or list raises
      TypeError. */
  function AddItem(item: Key): Option<Value> -> Result<Value> {
    (previous: Option<Value>) =>
      if previous.None? then Ok(Items({item}))
      else if previous.value.Items? then Ok(Items(previous.value.members + {item}))
      else Err(TypeError)
  }

  /** `unique_counter(item, *path)`. */
  method UniqueCounter(c: StatCollector, item: Key, path: seq<Key>) returns (r: Result<()>)
    modifies c
    ensures (c.statistics, r) == Outcome(old(c.statistics), Placed(old(c.statistics), path, true, Apply(AddItem(item))))
  {
    r := c.CreateOrSet(AddItem(item), path);
  }

  /** One unique counter call: the count of items seen grows by one exactly
      when the item had not been seen at that path; a statistic that is not
      a set raises TypeError. */
  lemma UniqueCounterStep(root: map<Key, Value>, item: Key, path: seq<Key>)
    requires |path| > 0 && Lookup(Dict(root), path, PathError(path)).Ok?
    ensures var p := Lookup(Dict(root), path, PathError(path)).value;
      var s := Placed(root, path, true, Apply(AddItem(item)));
      && (p.Some? && !p.value.Items? ==> s == Err(TypeError))
      && (p.None? || p.value.Items? ==>
            var seen := if p.None? then {} else p.value.members;
            && s.Ok?
            && Lookup(Dict(s.value), path, PathError(path)) == Ok(Some(Items(seen + {item})))
            && |seen + {item}| == |seen| + (if item in seen then 0 else 1))
  {
    PlacedThenLookup(root, path, true, Apply(AddItem(item)));
    var p := Lookup(Dict(root), path, PathError(path)).value;
    if p.None? || p.value.Items? {
      var seen := if p.None? then {} else p.value.members;
      if p.None? {
        assert seen + {item} == {item};
      }
      if item in seen {
        assert seen + {item} == seen;
      }
    }
  }

  /** The items of a sequence. */
  function ItemSet(items: seq<Key>): (r: set<Key>)
    ensures forall i :: 0 <= i < |items| ==> items[i] in r
    ensures forall k :: k in r ==> exists i :: 0 <= i < |items| && items[i] == k
    ensures |r| <= |items|
  {
    if items == [] then {} else ItemSet(items[..|items| - 1]) + {items[|items| - 1]}
  }

  /** The statistics after `unique_counter(x, *path)` for each `x` of `items`
      in turn, or the first error. */
  function UniqueCounted(root: map<Key, Value>, path: seq<Key>, items: seq<Key>): Result<map<Key, Value>>
    decreases |items|
  {
    if items == [] then Ok(root)
    else
      var previous := UniqueCounted(root, path, items[..|items| - 1]);
      if previous.Err? then previous
      else Placed(previous.value, path, true, Apply(AddItem(items[|items| - 1])))
  }

  /** A unique counter holds the distinct items it was given. */
  lemma {:induction false} UniqueCountersDistinct(root: map<Key, Value>, path: seq<Key>, items: seq<Key>)
    requires |path| > 0 && Lookup(Dict(root), path, PathError(path)) == Ok(None)
    ensures UniqueCounted(root, path, items).Ok?
    ensures Lookup(Dict(UniqueCounted(root, path, items).value), path, PathError(path)) ==
            if items == [] then Ok(None) else Ok(Some(Items(ItemSet(items))))
    decreases |items|
  {
    if items != [] {
      var front := items[..|items| - 1];
      UniqueCountersDistinct(root, path, front);
      var previous := UniqueCounted(root, path, front).value;
      UniqueCounterStep(previous, items[|items| - 1], path);
    }
  }

  /** `_format_item` on a statistic: a set is written as its size, an
      integer in decimal, a list of integers as its elements joined by the
      separator ","; what Python prints for a dictionary or for other
      nested values is not modelled (None). */
  function FormatValue(v: Value): (r: Option<string>)
    ensures v.Int? ==> r.Some? && (v.n >= 0 <==> IsDigits(r.value))
    ensures v.Int? ==> r.Some? && IsIntText(r.value) && IntValue(r.value) == v.n
    ensures v.Items? ==> r.Some? && IsDigits(r.value) && DecimalValue(r.value) == |v.members|
  {
    match v
    case Items(s) => NatToStringRoundTrip(|s|); Some(NatToString(|s|))
    case Int(n) => IntToStringRoundTrip(n); Some(IntToString(n))
    case List(xs) =>
      if forall i :: 0 <= i < |xs| ==> xs[i].Int?
      then Some(Join(",", seq(|xs|, i requires 0 <= i < |xs| => IntToString(xs[i].n))))
      else None
    case Dict(_) => None
  }

  /** The decimal text of an integer holds no separator. */
  lemma IntTextHasNoSeparator(i: int)
    ensures ',' !in IntToString(i)
  {
    var r := IntToString(i);
    if i < 0 {
      assert r == "-" + NatToString(-i);
      assert IsDigits(r[1..]);
    }
  }

  /** A fraction is written as numerator, separator, denominator, and the
      separator occurs exactly there, so the line splits back into the two
      numbers: the text before it reads back as the numerator and the text
      after it as the denominator. */
  lemma FormatFraction(numerator: int, denominator: int)
    ensures var r := FormatValue(List([Int(numerator), Int(denominator)]));
      var n, d := IntToString(numerator), IntToString(denominator);
      && r == Some(n + "," + d)
      && ',' !in n && ',' !in d
      && r.value[|n|] == ','
      && IntValue(n) == numerator && IntValue(d) == denominator
  {
    FractionText(numerator, denominator);
    IntTextHasNoSeparator(numerator);
    IntTextHasNoSeparator(denominator);
    IntToStringRoundTrip(numerator);
    IntToStringRoundTrip(denominator);
  }

  /** The text of a two-element list of integers. */
  lemma FractionText(numerator: int, denominator: int)
    ensures FormatValue(List([Int(numerator), Int(denominator)]))
         == Some(IntToString(numerator) + "," + IntToString(denominator))
  {
    var xs := [Int(numerator), Int(denominator)];
    var parts := seq(|xs|, i requires 0 <= i < |xs| => IntToString(xs[i].n));
    assert parts == [IntToString(numerator), IntToString(denominator)];
    assert parts[..1] == [IntToString(numerator)];
    assert Join(",", parts) == IntToString(numerator) + "," + IntToString(denominator);
  }

  /** What `fraction(amount, total_amount, *path)` does as written: a new
      fraction is created where nothing is stored, but an existing one fails
      its check, which compares the value with the type `list` by identity
      and therefore never holds. */
  function FractionOutcome(root: map<Key, Value>, amount: int, total: int, path: seq<Key>): (map<Key, Value>, Result<()>) {
    var previous := Lookup(Dict(root), path, PathError(path));
    if previous.Err? then (root, Err(previous.error))
    else if previous.value.None? then Outcome(root, Placed(root, path, true, Put(List([Int(amount), Int(total)]))))
    else (root, Err(PathError(path)))
  }

  /** `fraction(amount, total_amount, *path)` as written. */
  method Fraction(c: StatCollector, amount: int, total: int, path: seq<Key>) returns (r: Result<()>)
    modifies c
    ensures (c.statistics, r) == FractionOutcome(old(c.statistics), amount, total, path)
  {
    var previous := c.Get(path);
    if previous.Err? {
      return Err(previous.error);
    }
    if previous.value.None? {
      r := c.Create(List([Int(amount), Int(total)]), path);
    } else {
      r := Err(PathError(path));
    }
  }

  /** As written, a fraction can never be incremented: once a call has
      created it, every later call at the same path raises. */
  lemma FractionIncrementFails(root: map<Key, Value>, amount: int, total: int, amount': int, total': int, path: seq<Key>)
    requires FractionOutcome(root, amount, total, path).1.Ok?
    ensures var first := FractionOutcome(root, amount, total, path);
      && Lookup(Dict(first.0), path, PathError(path)) == Ok(Some(List([Int(amount), Int(total)])))
      && FractionOutcome(first.0, amount', total', path) == (first.0, Err(PathError(path)))
  {
    PlacedThenLookup(root, path, true, Put(List([Int(amount), Int(total)])));
  }

  /** `fraction` as its documentation describes it: the check accepts a
      list of two elements, and the amounts are added to them through
      `set`. */
  function CorrectedFractionOutcome(root: map<Key, Value>, amount: int, total: int, path: seq<Key>): (map<Key, Value>, Result<()>) {
    var previous := Lookup(Dict(root), path, PathError(path));
    if previous.Err? then (root, Err(previous.error))
    else if previous.value.None? then Outcome(root, Placed(root, path, true, Put(List([Int(amount), Int(total)]))))
    else match previous.value.value
      case List(xs) =>
        if |xs| != 2 then (root, Err(PathError(path)))
        else if !xs[0].Int? || !xs[1].Int? then (root, Err(TypeError))
        else Outcome(root, Placed(root, path, false, Put(List([Int(xs[0].n + amount), Int(xs[1].n + total)]))))
      case _ => (root, Err(PathError(path)))
  }

  /** `fraction` corrected. */
  method CorrectedFraction(c: StatCollector, amount: int, total: int, path: seq<Key>) returns (r: Result<()>)
    modifies c
    ensures (c.statistics, r) == CorrectedFractionOutcome(old(c.statistics), amount, total, path)
  {
    var previous := c.Get(path);
    if previous.Err? {
      return Err(previous.error);
    }
    if previous.value.None? {
      r := c.Create(List([Int(amount), Int(total)]), path);
    } else if !previous.value.value.List? || |previous.value.value.elems| != 2 {
      r := Err(PathError(path));
    } else {
      var xs := previous.value.value.elems;
      if !xs[0].Int? || !xs[1].Int? {
        return Err(TypeError);
      }
      r := c.Set(List([Int(xs[0].n + amount), Int(xs[1].n + total)]), path);
    }
  }

  /** The statistics after corrected `fraction(a, t, *path)` calls for the
      amounts and totals in turn, or the first error. */
  function Fractions(root: map<Key, Value>, path: seq<Key>, amounts: seq<int>, totals: seq<int>): (map<Key, Value>, Result<()>)
    requires |amounts| == |totals|
    decreases |amounts|
  {
    if amounts == [] then (root, Ok(()))
    else
      var n := |amounts| - 1;
      var previous := Fractions(root, path, amounts[..n], totals[..n]);
      if previous.1.Err? then previous
      else CorrectedFractionOutcome(previous.0, amounts[n], totals[n], path)
  }

  /** Corrected fractions add up: on a path that held nothing, the
      numerator is the sum of the amounts and the denominator the sum of the
      totals. */
  lemma {:induction false} FractionsAdd(root: map<Key, Value>, path: seq<Key>, amounts: seq<int>, totals: seq<int>)
    requires |path| > 0 && |amounts| == |totals|
    requires Lookup(Dict(root), path, PathError(path)) == Ok(None)
    ensures Fractions(root, path, amounts, totals).1.Ok?
    ensures Lookup(Dict(Fractions(root, path, amounts, totals).0), path, PathError(path)) ==
            if amounts == [] then Ok(None) else Ok(Some(List([Int(Sum(amounts)), Int(Sum(totals))])))
    decreases |amounts|
  {
    if amounts != [] {
      var n := |amounts| - 1;
      FractionsAdd(root, path, amounts[..n], totals[..n]);
      var previous := Fractions(root, path, amounts[..n], totals[..n]).0;
      if n == 0 {
        PlacedThenLookup(previous, path, true, Put(List([Int(amounts[n]), Int(totals[n])])));
      } else {
        PlacedThenLookup(previous, path, false, Put(List([Int(Sum(amounts[..n]) + amounts[n]), Int(Sum(totals[..n]) + totals[n])])));
      }
    }
  }

  /** A path that is absent stays absent however it is extended. */
  lemma {:induction false} AbsentExtends(v: Value, p: seq<Key>, e: PyError, q: seq<Key>, e': PyError)
    requires Lookup(v, p, e) == Ok(None)
    ensures Lookup(v, p + q, e') == Ok(None)
    decreases |p|
  {
    assert (p + q)[0] == p[0] && (p + q)[1..] == p[1..] + q;
    if p[0] in v.entries {
      AbsentExtends(v.entries[p[0]], p[1..], e, q, e');
    }
  }

  /** The statistics and result after `counter(f(k), *(path + [k]))` for
      each `k` of `keys` in turn; the counts made before a failing call
      stay. */
  function ApplyAll(root: map<Key, Value>, keys: seq<Key>, f: Key -> int, path: seq<Key>): (map<Key, Value>, Result<()>)
    decreases |keys|
  {
    if keys == [] then (root, Ok(()))
    else
      var s := Placed(root, path + [keys[0]], true, Apply(AddAmount(f(keys[0]))));
      if s.Err? then (root, Err(s.error)) else ApplyAll(s.value, keys[1..], f, path)
  }

  /** `apply_counter(child_keys, amount_function, *path)`. */
  method ApplyCounter(c: StatCollector, childKeys: seq<Key>, f: Key -> int, path: seq<Key>) returns (r: Result<()>)
    modifies c
    ensures (c.statistics, r) == ApplyAll(old(c.statistics), childKeys, f, path)
  {
    r := Ok(());
    var j := 0;
    while j < |childKeys| && r.Ok?
      invariant 0 <= j <= |childKeys|
      invariant r.Ok? ==> ApplyAll(old(c.statistics), childKeys, f, path) == ApplyAll(c.statistics, childKeys[j..], f, path)
      invariant r.Err? ==> ApplyAll(old(c.statistics), childKeys, f, path) == (c.statistics, r)
    {
      assert childKeys[j..][0] == childKeys[j] && childKeys[j..][1..] == childKeys[j + 1..];
      r := Counter(c, f(childKeys[j]), path + [childKeys[j]]);
      j := j + 1;
    }
    if r.Ok? {
      assert childKeys[j..] == [];
      assert r.value == ();
    }
  }

  /** Counting over `a + b` counts over `a`, then over `b` unless `a`
      failed. */
  lemma {:induction false} ApplyAllConcat(root: map<Key, Value>, a: seq<Key>, b: seq<Key>, f: Key -> int, path: seq<Key>)
    ensures var first := ApplyAll(root, a, f, path);
      ApplyAll(root, a + b, f, path) == if first.1.Err? then first else ApplyAll(first.0, b, f, path)
    decreases |a|
  {
    if a == [] {
      assert a + b == b;
    } else {
      assert (a + b)[0] == a[0] && (a + b)[1..] == a[1..] + b;
      var s := Placed(root, path + [a[0]], true, Apply(AddAmount(f(a[0]))));
      if s.Ok? {
        ApplyAllConcat(s.value, a[1..], b, f, path);
      }
    }
  }

  /** `apply_counter` leaves alone every path that diverges from all the
      child paths it counts at. */
  lemma {:induction false} ApplyFrame(root: map<Key, Value>, keys: seq<Key>, f: Key -> int, path: seq<Key>, q: seq<Key>, e': PyError)
    requires forall i :: 0 <= i < |keys| ==> Diverges(q, path + [keys[i]])
    ensures Lookup(Dict(ApplyAll(root, keys, f, path).0), q, e') == Lookup(Dict(root), q, e')
    decreases |keys|
  {
    if keys != [] {
      var s := Placed(root, path + [keys[0]], true, Apply(AddAmount(f(keys[0]))));
      if s.Ok? {
        PlacedFrame(root, path + [keys[0]], true, Apply(AddAmount(f(keys[0]))), q, e');
        ApplyFrame(s.value, keys[1..], f, path, q, e');
      }
    }
  }

  /** Distinct child keys, none of them yet counted: `apply_counter`
      succeeds and each child holds its own amount. */
  lemma {:induction false} ApplyCountsEach(root: map<Key, Value>, keys: seq<Key>, f: Key -> int, path: seq<Key>)
    requires forall i, j :: 0 <= i < j < |keys| ==> keys[i] != keys[j]
    requires forall i :: 0 <= i < |keys| ==> Lookup(Dict(root), path + [keys[i]], PathError(path + [keys[i]])) == Ok(None)
    ensures ApplyAll(root, keys, f, path).1.Ok?
    ensures forall i :: 0 <= i < |keys| ==>
              Lookup(Dict(ApplyAll(root, keys, f, path).0), path + [keys[i]], PathError(path + [keys[i]])) == Ok(Some(Int(f(keys[i]))))
    decreases |keys|
  {
    if keys != [] {
      var first := path + [keys[0]];
      CounterStep(root, f(keys[0]), first);
      var s := Placed(root, first, true, Apply(AddAmount(f(keys[0]))));
      forall i | 1 <= i < |keys|
        ensures Lookup(Dict(s.value), path + [keys[i]], PathError(path + [keys[i]])) == Ok(None)
        ensures Diverges(first, path + [keys[i]])
      {
        SiblingsDiverge(path, keys[i], keys[0]);
        PlacedFrame(root, first, true, Apply(AddAmount(f(keys[0]))), path + [keys[i]], PathError(path + [keys[i]]));
        SiblingsDiverge(path, keys[0], keys[i]);
      }
      ApplyCountsEach(s.value, keys[1..], f, path);
      ApplyFrame(s.value, keys[1..], f, path, first, PathError(first));
    }
  }

  /** The keys `_permute_apply_counter` counts at: the tuple
      `prefix + [a, b, ...]` for each choice of `a` from `lists[0]`, `b` from
      `lists[1]` and so on, the first list varying slowest; no keys for no
      lists. */
  function PermutedKeys(prefix: seq<Key>, lists: seq<seq<Key>>): seq<Key>
    decreases |lists|, 1, 0
  {
    if |lists| == 0 then []
    else if |lists| == 1 then seq(|lists[0]|, i requires 0 <= i < |lists[0]| => Tuple(prefix + [lists[0][i]]))
    else EachFirst(prefix, lists[0], lists[1..])
  }

  /** The keys of `PermutedKeys(prefix + [a], rest)` for each `a` of
      `firsts` in turn. */
  function EachFirst(prefix: seq<Key>, firsts: seq<Key>, rest: seq<seq<Key>>): seq<Key>
    decreases |rest| + 1, 0, |firsts|
  {
    if firsts == [] then []
    else PermutedKeys(prefix + [firsts[0]], rest) + EachFirst(prefix, firsts[1..], rest)
  }

  /** `_permute_apply_counter(child_key_lists, amount_function, path,
      prefix)`, where `target` is the key path its `apply_counter` call
      counts under. */
  method PermuteFrom(c: StatCollector, lists: seq<seq<Key>>, f: Key -> int, target: seq<Key>, prefix: seq<Key>)
    returns (r: Result<()>)
    modifies c
    ensures (c.statistics, r) == ApplyAll(old(c.statistics), PermutedKeys(prefix, lists), f, target)
    decreases |lists|
  {
    if |lists| == 1 {
      var keys := seq(|lists[0]|, i requires 0 <= i < |lists[0]| => Tuple(prefix + [lists[0][i]]));
      r := ApplyCounter(c, keys, f, target);
    } else if |lists| > 1 {
      var firsts, rest := lists[0], lists[1..];
      r := Ok(());
      var j := 0;
      while j < |firsts| && r.Ok?
        invariant 0 <= j <= |firsts|
        invariant r.Ok? ==>
                    ApplyAll(old(c.statistics), EachFirst(prefix, firsts, rest), f, target) ==
                    ApplyAll(c.statistics, EachFirst(prefix, firsts[j..], rest), f, target)
        invariant r.Err? ==> ApplyAll(old(c.statistics), EachFirst(prefix, firsts, rest), f, target) == (c.statistics, r)
      {
        assert firsts[j..][0] == firsts[j] && firsts[j..][1..] == firsts[j + 1..];
        ApplyAllConcat(c.statistics, PermutedKeys(prefix + [firsts[j]], rest), EachFirst(prefix, firsts[j + 1..], rest), f, target);
        r := PermuteFrom(c, rest, f, target, prefix + [firsts[j]]);
        j := j + 1;
      }
      if r.Ok? {
        assert firsts[j..] == [];
        assert r.value == ();
      }
    } else {
      r := Ok(());
    }
  }

  /** `permute_apply_counter(child_key_lists, amount_function, *path)` as
      written: the helper receives the path as one tuple and passes it on
      unpacked, so the counts land under the single key `Tuple(path)`. */
  method PermuteApplyCounter(c: StatCollector, lists: seq<seq<Key>>, f: Key -> int, path: seq<Key>) returns (r: Result<()>)
    modifies c
    ensures (c.statistics, r) == ApplyAll(old(c.statistics), PermutedKeys([], lists), f, [Tuple(path)])
  {
    r := PermuteFrom(c, lists, f, [Tuple(path)], []);
  }

  /** `permute_apply_counter` as documented: the counts land under `path`. */
  method CorrectedPermuteApplyCounter(c: StatCollector, lists: seq<seq<Key>>, f: Key -> int, path: seq<Key>) returns (r: Result<()>)
    modifies c
    ensures (c.statistics, r) == ApplyAll(old(c.statistics), PermutedKeys([], lists), f, path)
  {
    r := PermuteFrom(c, lists, f, path, []);
  }

  /** `t` picks one key from each list, in order. */
  predicate Picks(t: seq<Key>, lists: seq<seq<Key>>) {
    |t| == |lists| && forall i :: 0 <= i < |t| ==> t[i] in lists[i]
  }

  /** Every permuted key is the prefix followed by one pick from each list. */
  lemma {:induction false} PermutedKeysSound(prefix: seq<Key>, lists: seq<seq<Key>>, k: Key)
    requires k in PermutedKeys(prefix, lists)
    ensures k.Tuple? && |k.items| == |prefix| + |lists|
    ensures k.items[..|prefix|] == prefix && Picks(k.items[|prefix|..], lists)
    decreases |lists|, 1
  {
    if |lists| == 1 {
      var i :| 0 <= i < |lists[0]| && k == Tuple(prefix + [lists[0][i]]);
      assert k.items[..|prefix|] == prefix && k.items[|prefix|..] == [lists[0][i]];
    } else {
      EachFirstSound(prefix, lists[0], lists[1..], k);
      var t := k.items[|prefix|..];
      forall i | 1 <= i < |t|
        ensures t[i] in lists[i]
      {
        assert t[i] == k.items[|prefix| + 1..][i - 1];
      }
    }
  }

  lemma {:induction false} EachFirstSound(prefix: seq<Key>, firsts: seq<Key>, rest: seq<seq<Key>>, k: Key)
    requires k in EachFirst(prefix, firsts, rest)
    ensures k.Tuple? && |k.items| == |prefix| + 1 + |rest|
    ensures k.items[..|prefix|] == prefix && k.items[|prefix|] in firsts && Picks(k.items[|prefix| + 1..], rest)
    decreases |rest| + 1, 0, |firsts|
  {
    if k in PermutedKeys(prefix + [firsts[0]], rest) {
      PermutedKeysSound(prefix + [firsts[0]], rest, k);
      assert k.items[..|prefix|] == k.items[..|prefix| + 1][..|prefix|];
      assert k.items[|prefix|] == k.items[..|prefix| + 1][|prefix|];
    } else {
      EachFirstSound(prefix, firsts[1..], rest, k);
    }
  }

  /** Every pick from the lists is counted: its tuple is a permuted key. */
  lemma {:induction false} PermutedKeysComplete(prefix: seq<Key>, lists: seq<seq<Key>>, t: seq<Key>)
    requires |lists| > 0 && Picks(t, lists)
    ensures Tuple(prefix + t) in PermutedKeys(prefix, lists)
    decreases |lists|, 1
  {
    if |lists| == 1 {
      var i :| 0 <= i < |lists[0]| && lists[0][i] == t[0];
      assert t == [lists[0][i]];
      assert PermutedKeys(prefix, lists)[i] == Tuple(prefix + t);
    } else {
      assert Picks(t[1..], lists[1..]) by {
        forall i | 0 <= i < |t| - 1
          ensures t[1..][i] in lists[1..][i]
        {
          assert t[1..][i] == t[i + 1];
        }
      }
      EachFirstComplete(prefix, lists[0], lists[1..], t[0], t[1..]);
      assert prefix + [t[0]] + t[1..] == prefix + t;
    }
  }

  lemma {:induction false} EachFirstComplete(prefix: seq<Key>, firsts: seq<Key>, rest: seq<seq<Key>>, x: Key, u: seq<Key>)
    requires |rest| > 0 && x in firsts && Picks(u, rest)
    ensures Tuple(prefix + [x] + u) in EachFirst(prefix, firsts, rest)
    decreases |rest| + 1, 0, |firsts|
  {
    if x == firsts[0] {
      PermutedKeysComplete(prefix + [x], rest, u);
    } else {
      EachFirstComplete(prefix, firsts[1..], rest, x, u);
    }
  }

  /** No key occurs twice. */
  predicate NoDuplicates(keys: seq<Key>) {
    forall i, j :: 0 <= i < j < |keys| ==> keys[i] != keys[j]
  }

  /** Lists without repeated keys give permuted keys without repeats. */
  lemma {:induction false} PermutedKeysDistinct(prefix: seq<Key>, lists: seq<seq<Key>>)
    requires forall i :: 0 <= i < |lists| ==> NoDuplicates(lists[i])
    ensures NoDuplicates(PermutedKeys(prefix, lists))
    decreases |lists|, 1
  {
    if |lists| == 1 {
      var keys := PermutedKeys(prefix, lists);
      forall i, j | 0 <= i < j < |keys|
        ensures keys[i] != keys[j]
      {
        assert (prefix + [lists[0][i]])[|prefix|] == lists[0][i];
        assert (prefix + [lists[0][j]])[|prefix|] == lists[0][j];
      }
    } else if |lists| > 1 {
      EachFirstDistinct(prefix, lists[0], lists[1..]);
    }
  }

  lemma {:induction false} EachFirstDistinct(prefix: seq<Key>, firsts: seq<Key>, rest: seq<seq<Key>>)
    requires NoDuplicates(firsts) && forall i :: 0 <= i < |rest| ==> NoDuplicates(rest[i])
    ensures NoDuplicates(EachFirst(prefix, firsts, rest))
    decreases |rest| + 1, 0, |firsts|
  {
    if firsts != [] {
      var a := PermutedKeys(prefix + [firsts[0]], rest);
      var b := EachFirst(prefix, firsts[1..], rest);
      PermutedKeysDistinct(prefix + [firsts[0]], rest);
      EachFirstDistinct(prefix, firsts[1..], rest);
      forall i, j | 0 <= i < |a| && 0 <= j < |b|
        ensures a[i] != b[j]
      {
        PermutedKeysSound(prefix + [firsts[0]], rest, a[i]);
        EachFirstSound(prefix, firsts[1..], rest, b[j]);
        assert a[i].items[|prefix|] == a[i].items[..|prefix| + 1][|prefix|] == firsts[0];
      }
      var ab := a + b;
      forall i, j | 0 <= i < j < |ab|
        ensures ab[i] != ab[j]
      {
        if j < |a| {
          assert ab[i] == a[i] && ab[j] == a[j];
        } else if i >= |a| {
          assert ab[i] == b[i - |a|] && ab[j] == b[j - |a|];
        } else {
          assert ab[i] == a[i] && ab[j] == b[j - |a|];
        }
      }
    }
  }

  /** Corrected, `permute_apply_counter` on lists without repeated keys, at
      a path that held nothing, leaves under the path, for every pick `t`
      from the lists, exactly the amount the function gives for `t`. */
  lemma CorrectedPermuteCountsEach(root: map<Key, Value>, lists: seq<seq<Key>>, f: Key -> int, path: seq<Key>)
    requires |lists| > 0 && forall i :: 0 <= i < |lists| ==> NoDuplicates(lists[i])
    requires Lookup(Dict(root), path, PathError(path)) == Ok(None)
    ensures ApplyAll(root, PermutedKeys([], lists), f, path).1.Ok?
    ensures forall t :: Picks(t, lists) ==>
              Lookup(Dict(ApplyAll(root, PermutedKeys([], lists), f, path).0), path + [Tuple(t)], PathError(path + [Tuple(t)])) ==
              Ok(Some(Int(f(Tuple(t)))))
  {
    var keys := PermutedKeys([], lists);
    PermutedKeysDistinct([], lists);
    forall i | 0 <= i < |keys|
      ensures Lookup(Dict(root), path + [keys[i]], PathError(path + [keys[i]])) == Ok(None)
    {
      AbsentExtends(Dict(root), path, PathError(path), [keys[i]], PathError(path + [keys[i]]));
    }
    ApplyCountsEach(root, keys, f, path);
    forall t | Picks(t, lists)
      ensures Lookup(Dict(ApplyAll(root, keys, f, path).0), path + [Tuple(t)], PathError(path + [Tuple(t)])) ==
              Ok(Some(Int(f(Tuple(t)))))
    {
      PermutedKeysComplete([], lists, t);
      assert [] + t == t;
    }
  }

  /** As written, `permute_apply_counter` never changes anything under its
      path (it counts under the key `Tuple(path)` instead). */
  lemma PermuteMissesPath(root: map<Key, Value>, lists: seq<seq<Key>>, f: Key -> int, path: seq<Key>, q: seq<Key>, e': PyError)
    requires |path| > 0 && |q| > 0 && q[0] == path[0]
    ensures Lookup(Dict(ApplyAll(root, PermutedKeys([], lists), f, [Tuple(path)]).0), q, e') == Lookup(Dict(root), q, e')
  {
    assert path[0] != Tuple(path);
    ApplyFrame(root, PermutedKeys([], lists), f, [Tuple(path)], q, e');
  }
}