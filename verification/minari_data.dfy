/** The Minari offline-dataset reader (torchrl/data/datasets/minari_data.py):
    key renaming, dtype names, dataset paths, the choice between downloading,
    splitting and loading, the conversion of stored space descriptions into
    tensor specs, and the layout of episodes in one contiguous table. */
module MinariData {
  import opened Wrappers
  import opened Seqs

  // ---------------------------------------------------------------------
  // Key renaming and dtype names

  /** The six plural Minari keys that have a singular torchrl name. */
  const PluralKeys: set<string> :=
    {"observations", "rewards", "truncations", "terminations", "actions", "infos"}

  /** `_NAME_MATCH[key]`: the torchrl name of a Minari key; keys without an
      entry map to themselves. */
  function NameMatch(key: string): (r: string)
    ensures r != key <==> key in PluralKeys
    ensures r !in PluralKeys
  {
    if key == "observations" then "observation"
    else if key == "rewards" then "reward"
    else if key == "truncations" then "truncated"
    else if key == "terminations" then "terminated"
    else if key == "actions" then "action"
    else if key == "infos" then "info"
    else key
  }

  /** Renaming is idempotent: a torchrl name is never renamed again. */
  lemma NameMatchIdempotent(key: string)
    ensures NameMatch(NameMatch(key)) == NameMatch(key)
  {
  }

  /** The tensor element types named in stored specs. */
  datatype Dtype = Float16 | Float32 | Float64 | Int64 | Int32 | UInt8

  function DtypeName(d: Dtype): string
  {
    match d
    case Float16 => "float16"
    case Float32 => "float32"
    case Float64 => "float64"
    case Int64 => "int64"
    case Int32 => "int32"
    case UInt8 => "uint8"
  }

  /** `_DTYPE_DIR[name]`: a missing name raises `KeyError`. */
  function DtypeLookup(name: string): (r: Result<Dtype>)
    ensures r.Ok? ==> DtypeName(r.value) == name
    ensures r.Err? ==> r.error == KeyError && forall d: Dtype :: DtypeName(d) != name
  {
    if name == "float16" then Ok(Float16)
    else if name == "float32" then Ok(Float32)
    else if name == "float64" then Ok(Float64)
    else if name == "int64" then Ok(Int64)
    else if name == "int32" then Ok(Int32)
    else if name == "uint8" then Ok(UInt8)
    else Err(KeyError)
  }

  lemma DtypeRoundTrip(d: Dtype)
    ensures DtypeLookup(DtypeName(d)) == Ok(d)
  {
  }

  // ---------------------------------------------------------------------
  // Dataset paths and the constructor's branch decision

  /** A filesystem path as its list of components. */
  type Path = seq<string>

  /** `data_path_root`: `root / dataset_id`. */
  function DataPathRoot(root: Path, id: string): (p: Path)
    ensures |p| == |root| + 1 && p[..|root|] == root && p[|root|] == id
  {
    root + [id]
  }

  /** `data_path`: the split copy `root / (dataset_id + "_split")` when
      trajectories are split, else the root copy. */
  function DataPath(root: Path, id: string, splitTrajs: bool): (p: Path)
    ensures |p| == |root| + 1 && p[..|root|] == root
    ensures p != DataPathRoot(root, id) <==> splitTrajs
    ensures splitTrajs ==> p[|root|] == id + "_split"
  {
    if splitTrajs then
      assert |id + "_split"| != |id|;
      root + [id + "_split"]
    else DataPathRoot(root, id)
  }

  /** `metadata_path`: `env_metadata.json` inside the root copy. */
  function MetadataPath(root: Path, id: string): (p: Path)
    ensures |p| == |root| + 2 && p[..|root| + 1] == DataPathRoot(root, id)
    ensures p[|root| + 1] == "env_metadata.json"
  {
    DataPathRoot(root, id) + ["env_metadata.json"]
  }

  /** The `download` argument: a flag, or a string such as `"force"`. */
  datatype DownloadArg = Flag(b: bool) | Text(s: string)

  predicate IsForce(d: DownloadArg)
  {
    d == Text("force")
  }

  /** Python truthiness of the argument. */
  predicate Truthy(d: DownloadArg)
  {
    match d
    case Flag(b) => b
    case Text(s) => s != ""
  }

  /** What the constructor does with the filesystem. `Download` records the
      directories removed first, where the table is written and, when
      trajectories are split, where the split copy is written. */
  datatype Plan =
    | Download(removed: seq<Path>, writeTo: Path, splitTo: Option<Path>)
    | MakeSplit(readFrom: Path, writeTo: Path)
    | Load(readFrom: Path)

  /** The removals of a forced download. Both happen inside one `try` that
      swallows `FileNotFoundError`, so a missing root copy ends the attempt
      before the split copy is considered. */
  function ForceRemovals(existing: set<Path>, rootPath: Path, dataPath: Path): (r: seq<Path>)
    ensures forall k :: 0 <= k < |r| ==> r[k] in existing
    ensures rootPath in existing <==> |r| > 0
    ensures |r| > 0 ==> r[0] == rootPath
    ensures (|r| == 2) <==> rootPath in existing && dataPath in existing && dataPath != rootPath
  {
    if rootPath !in existing then []
    else if dataPath != rootPath && dataPath in existing then [rootPath, dataPath]
    else [rootPath]
  }

  /** The branch of `__init__`: download when forced or when asked to and
      the data path is missing; otherwise build the split copy when it is
      wanted and missing; otherwise load. `existing` is the set of paths
      present on disk. */
  function Decide(download: DownloadArg, splitTrajs: bool, existing: set<Path>,
                  root: Path, id: string): (r: Plan)
    ensures r.Download? <==> IsForce(download) || (Truthy(download) && DataPath(root, id, splitTrajs) !in existing)
    ensures r.MakeSplit? <==> !Truthy(download) && splitTrajs && DataPath(root, id, splitTrajs) !in existing
    ensures r.Download? ==> r.writeTo == DataPathRoot(root, id)
                            && (r.splitTo.Some? <==> splitTrajs)
                            && (r.splitTo.Some? ==> r.splitTo.value == DataPath(root, id, splitTrajs))
    ensures r.Download? && !IsForce(download) ==> r.removed == []
    ensures r.MakeSplit? ==> r.readFrom == DataPathRoot(root, id) && r.writeTo == DataPath(root, id, splitTrajs)
    ensures r.Load? ==> r.readFrom == DataPath(root, id, splitTrajs)
  {
    var rootPath := DataPathRoot(root, id);
    var dataPath := DataPath(root, id, splitTrajs);
    if IsForce(download) || (Truthy(download) && dataPath !in existing) then
      Download(if IsForce(download) then ForceRemovals(existing, rootPath, dataPath) else [],
               rootPath, if splitTrajs then Some(dataPath) else None)
    else if splitTrajs && dataPath !in existing then MakeSplit(rootPath, dataPath)
    else Load(dataPath)
  }

  /** Presence is judged by the split copy, so asking for a download of a
      split dataset whose split copy is missing downloads again even when
      the root copy is on disk; the split-only branch is reached only when
      downloading is off. */
  lemma MissingSplitRedownloads(download: DownloadArg, existing: set<Path>, root: Path, id: string)
    requires Truthy(download)
    requires DataPathRoot(root, id) in existing && DataPath(root, id, true) !in existing
    ensures Decide(download, true, existing, root, id).Download?
  {
  }

  // ---------------------------------------------------------------------
  // Stored space descriptions and the specs built from them

  /** An entry of a stored `low`/`high` list. A nested list compares unequal
      to every number. */
  datatype Bound = NegInf | PosInf | Finite(x: real) | Nested(items: seq<Bound>)

  /** A space description as stored in the metadata file. */
  datatype Space =
    | NoSpace
    | DictSpace(subspaces: seq<(string, Space)>)
    | BoxSpace(low: Bound, high: Bound, shape: seq<int>, dtype: string)
    | DiscreteSpace(n: int, shape: seq<int>, dtype: string)
    | OtherSpace(typeName: string)

  /** The tensor specs `_proc_spec` builds. */
  datatype Spec =
    | NoSpec
    | Composite(entries: seq<(string, Spec)>)
    | UnboundedSpec(shape: seq<int>, dtype: Dtype)
    | BoundedSpec(shape: seq<int>, low: Bound, high: Bound, dtype: Dtype)
    | DiscreteSpec(n: int, shape: seq<int>, dtype: Dtype)

  predicate AllAre(items: seq<Bound>, b: Bound)
  {
    forall i :: 0 <= i < |items| ==> items[i] == b
  }

  /** The `Box` case: iterating a bound that is not a list raises
      `TypeError`; `high` is only iterated when every `low` is -inf. */
  function BoxSpec(low: Bound, high: Bound, shape: seq<int>, dtype: string): (r: Result<Spec>)
    ensures r.Ok? ==> low.Nested?
    ensures r.Ok? && r.value.UnboundedSpec? ==> high.Nested? && AllAre(low.items, NegInf) && AllAre(high.items, PosInf)
  {
    if !low.Nested? then Err(TypeError)
    else if AllAre(low.items, NegInf) && !high.Nested? then Err(TypeError)
    else if AllAre(low.items, NegInf) && AllAre(high.items, PosInf) then
      var dt :- DtypeLookup(dtype);
      Ok(UnboundedSpec(shape, dt))
    else
      var dt :- DtypeLookup(dtype);
      Ok(BoundedSpec(shape, low, high, dt))
  }

  /** `_proc_spec`. */
  function ProcSpec(s: Space): (r: Result<Spec>)
    decreases s, if s.DictSpace? then |s.subspaces| + 1 else 0
  {
    match s
    case NoSpace => Ok(NoSpec)
    case DictSpace(subspaces) =>
      var entries :- ProcEntries(s, 0);
      Ok(Composite(entries))
    case BoxSpace(low, high, shape, dtype) => BoxSpec(low, high, shape, dtype)
    case DiscreteSpace(n, shape, dtype) =>
      var dt :- DtypeLookup(dtype);
      Ok(DiscreteSpec(n, shape, dt))
    case OtherSpace(_) => Err(NotImplementedError)
  }

  /** The dict comprehension over the subspaces of `d` from position `i`
      on, in order; the first failing subspace decides the error. */
  function ProcEntries(d: Space, i: nat): (r: Result<seq<(string, Spec)>>)
    requires d.DictSpace? && i <= |d.subspaces|
    ensures r.Ok? ==> |r.value| == |d.subspaces| - i
    decreases d, |d.subspaces| - i
  {
    if i == |d.subspaces| then Ok([])
    else
      var head :- ProcSpec(d.subspaces[i].1);
      var tail :- ProcEntries(d, i + 1);
      Ok([(d.subspaces[i].0, head)] + tail)
  }

  /** Bounds `_proc_spec` can iterate: lists, and `high` a list too when
      every `low` is -inf. */
  predicate IterableBounds(low: Bound, high: Bound)
  {
    low.Nested? && (AllAre(low.items, NegInf) ==> high.Nested?)
  }

  /** A description `_proc_spec` converts without raising. */
  predicate Supported(s: Space)
    decreases s
  {
    match s
    case NoSpace => true
    case DictSpace(subspaces) => forall i :: 0 <= i < |subspaces| ==> Supported(subspaces[i].1)
    case BoxSpace(low, high, _, dtype) => IterableBounds(low, high) && DtypeLookup(dtype).Ok?
    case DiscreteSpace(_, _, dtype) => DtypeLookup(dtype).Ok?
    case OtherSpace(_) => false
  }

  /** `t` is the spec for the description `s`: dicts become composites with
      the same keys in the same order, a box is unbounded exactly when all
      of its lows are -inf and all of its highs +inf, and shapes, bounds,
      category counts and dtypes are carried over. */
  predicate Converts(s: Space, t: Spec)
    decreases s
  {
    match s
    case NoSpace => t.NoSpec?
    case DictSpace(subspaces) =>
      && t.Composite?
      && |t.entries| == |subspaces|
      && forall i :: 0 <= i < |subspaces| ==>
           t.entries[i].0 == subspaces[i].0 && Converts(subspaces[i].1, t.entries[i].1)
    case BoxSpace(low, high, shape, dtype) =>
      && low.Nested?
      && (t.UnboundedSpec? || t.BoundedSpec?)
      && (t.UnboundedSpec? <==> high.Nested? && AllAre(low.items, NegInf) && AllAre(high.items, PosInf))
      && t.shape == shape && DtypeName(t.dtype) == dtype
      && (t.BoundedSpec? ==> t.low == low && t.high == high)
    case DiscreteSpace(n, shape, dtype) =>
      t.DiscreteSpec? && t.n == n && t.shape == shape && DtypeName(t.dtype) == dtype
    case OtherSpace(_) => false
  }

  /** `_proc_spec` succeeds exactly on supported descriptions, and then
      returns their spec; the only error kinds are the `TypeError` of a
      non-list bound, the `KeyError` of an unknown dtype and the
      `NotImplementedError` of an unknown space type. */
  lemma {:induction false} ProcSpecCorrect(s: Space)
    ensures ProcSpec(s).Ok? <==> Supported(s)
    ensures ProcSpec(s).Ok? ==> Converts(s, ProcSpec(s).value)
    ensures ProcSpec(s).Err? ==> ProcSpec(s).error in {TypeError, KeyError, NotImplementedError}
    decreases s, if s.DictSpace? then |s.subspaces| + 1 else 0
  {
    match s
    case DictSpace(subspaces) => ProcEntriesCorrect(s, 0);
    case _ =>
  }

  lemma {:induction false} ProcEntriesCorrect(d: Space, i: nat)
    requires d.DictSpace? && i <= |d.subspaces|
    ensures ProcEntries(d, i).Ok? <==> forall k :: i <= k < |d.subspaces| ==> Supported(d.subspaces[k].1)
    ensures ProcEntries(d, i).Ok? ==>
              forall k :: i <= k < |d.subspaces| ==>
                ProcEntries(d, i).value[k - i].0 == d.subspaces[k].0
                && Converts(d.subspaces[k].1, ProcEntries(d, i).value[k - i].1)
    ensures ProcEntries(d, i).Err? ==> ProcEntries(d, i).error in {TypeError, KeyError, NotImplementedError}
    decreases d, |d.subspaces| - i
  {
    if i < |d.subspaces| {
      ProcSpecCorrect(d.subspaces[i].1);
      ProcEntriesCorrect(d, i + 1);
    }
  }

  // ---------------------------------------------------------------------
  // Episode numbers and their order

  predicate IsDigits(s: string)
  {
    |s| > 0 && forall i :: 0 <= i < |s| ==> '0' <= s[i] <= '9'
  }

  /** The value of a string of decimal digits. */
  function DigitsValue(s: string): nat
    requires forall i :: 0 <= i < |s| ==> '0' <= s[i] <= '9'
  {
    if |s| == 0 then 0 else 10 * DigitsValue(s[..|s| - 1]) + (s[|s| - 1] as int - '0' as int)
  }

  /** The decimal rendering of `n`. */
  function Decimal(n: nat): (s: string)
    ensures IsDigits(s)
  {
    if n < 10 then [('0' as int + n) as char]
    else Decimal(n / 10) + [('0' as int + n % 10) as char]
  }

  lemma {:induction false} DecimalRoundTrip(n: nat)
    ensures DigitsValue(Decimal(n)) == n
  {
    if n >= 10 {
      DecimalRoundTrip(n / 10);
      var s := Decimal(n);
      assert s[..|s| - 1] == Decimal(n / 10);
    }
  }

  /** `int(episode_key[len("episode_"):])`: the characters after the first
      eight must be decimal digits, else `ValueError`. */
  function EpisodeNumber(key: string): (r: Result<nat>)
    ensures r.Ok? <==> IsDigits(PySlice(key, 8, |key|))
    ensures r.Err? ==> r.error == ValueError
  {
    var digits := PySlice(key, 8, |key|);
    if IsDigits(digits) then Ok(DigitsValue(digits)) else Err(ValueError)
  }

  /** The stored name of episode `n` parses back to `n`. */
  lemma EpisodeKeyRoundTrip(n: nat)
    ensures EpisodeNumber("episode_" + Decimal(n)) == Ok(n)
  {
    var key := "episode_" + Decimal(n);
    assert PySlice(key, 8, |key|) == Decimal(n);
    DecimalRoundTrip(n);
  }

  /** Episode numbers with their keys, strictly ascending by number. */
  predicate Increasing(order: seq<(nat, string)>)
  {
    forall i, j :: 0 <= i < j < |order| ==> order[i].0 < order[j].0
  }

  predicate HasNumber(order: seq<(nat, string)>, n: nat)
  {
    exists j :: 0 <= j < |order| && order[j].0 == n
  }

  /** Storing `episode_dict[n] = key` in an ascending list: a later key for
      the same number replaces the earlier one. */
  function Insert(order: seq<(nat, string)>, n: nat, key: string): (r: seq<(nat, string)>)
    requires Increasing(order)
    ensures Increasing(r)
    ensures (n, key) in r
    ensures forall p :: p in r ==> p == (n, key) || (p in order && p.0 != n)
    ensures forall p :: p in order && p.0 != n ==> p in r
  {
    if |order| == 0 then [(n, key)]
    else if order[0].0 == n then [(n, key)] + order[1..]
    else if order[0].0 > n then [(n, key)] + order
    else
      var rest := Insert(order[1..], n, key);
      InsertStep(order, n, key, rest);
      [order[0]] + rest
  }

  lemma IncreasingCons(x: (nat, string), rest: seq<(nat, string)>)
    requires Increasing(rest)
    requires forall p :: p in rest ==> x.0 < p.0
    ensures Increasing([x] + rest)
  {
    var r := [x] + rest;
    forall i, j | 0 <= i < j < |r|
      ensures r[i].0 < r[j].0
    {
      assert r[j] == rest[j - 1];
      if i > 0 {
        assert r[i] == rest[i - 1];
      } else {
        assert r[j] in rest;
      }
    }
  }

  /** The recursive case of `Insert`: a smaller number than `n` stays in
      front of the insertion into the remaining list. */
  lemma InsertStep(order: seq<(nat, string)>, n: nat, key: string, rest: seq<(nat, string)>)
    requires Increasing(order) && |order| > 0 && order[0].0 < n
    requires Increasing(rest)
    requires (n, key) in rest
    requires forall p :: p in rest ==> p == (n, key) || (p in order[1..] && p.0 != n)
    requires forall p :: p in order[1..] && p.0 != n ==> p in rest
    ensures Increasing([order[0]] + rest)
    ensures (n, key) in [order[0]] + rest
    ensures forall p :: p in [order[0]] + rest ==> p == (n, key) || (p in order && p.0 != n)
    ensures forall p :: p in order && p.0 != n ==> p in [order[0]] + rest
  {
    var r := [order[0]] + rest;
    forall p | p in rest
      ensures order[0].0 < p.0
    {
      if p != (n, key) {
        var j :| 0 <= j < |order[1..]| && order[1..][j] == p;
        assert order[j + 1] == p;
      }
    }
    IncreasingCons(order[0], rest);
    forall p | p in order && p.0 != n
      ensures p in r
    {
      var j :| 0 <= j < |order| && order[j] == p;
      if j > 0 {
        assert order[1..][j - 1] == p;
      }
    }
  }

  predicate HasKey<V>(items: seq<(string, Entries<V>)>, key: string)
  {
    exists k :: 0 <= k < |items| && items[k].0 == key
  }

  /** Every key carries an episode number. */
  predicate AllNumbered<V>(items: seq<(string, Entries<V>)>)
  {
    forall k :: 0 <= k < |items| ==> EpisodeNumber(items[k].0).Ok?
  }

  /** `sorted(episode_dict)` when every episode is entered into the dict:
      the distinct episode numbers in ascending order, each with the last
      key that carries it. */
  function EpisodeOrder<V>(items: seq<(string, Entries<V>)>): (r: Result<seq<(nat, string)>>)
    ensures r.Ok? ==> Increasing(r.value)
    ensures r.Ok? <==> AllNumbered(items)
  {
    if |items| == 0 then Ok([])
    else
      var init := items[..|items| - 1];
      var key := items[|items| - 1].0;
      AllNumberedSnoc(items);
      match EpisodeOrder(init)
      case Err(e) => Err(e)
      case Ok(prev) =>
        match EpisodeNumber(key)
        case Err(e) => Err(e)
        case Ok(n) => Ok(Insert(prev, n, key))
  }

  /** Every key of `items` carries an episode number exactly when every key
      but the last does and the last one does too. */
  lemma AllNumberedSnoc<V>(items: seq<(string, Entries<V>)>)
    requires |items| > 0
    ensures AllNumbered(items) <==> AllNumbered(items[..|items| - 1]) && EpisodeNumber(items[|items| - 1].0).Ok?
  {
    var init := items[..|items| - 1];
    assert forall k :: 0 <= k < |items| - 1 ==> init[k] == items[k];
  }

  /** Every entry of the order is a stored key together with its own
      number. */
  lemma {:induction false} EpisodeOrderKeys<V>(items: seq<(string, Entries<V>)>)
    requires EpisodeOrder(items).Ok?
    ensures var r := EpisodeOrder(items).value;
      forall j :: 0 <= j < |r| ==> EpisodeNumber(r[j].1) == Ok(r[j].0) && HasKey(items, r[j].1)
  {
    if |items| > 0 {
      var init := items[..|items| - 1];
      AllNumberedSnoc(items);
      var prev := EpisodeOrder(init).value;
      EpisodeOrderKeys(init);
      var key := items[|items| - 1].0;
      var n := EpisodeNumber(key).value;
      var r := Insert(prev, n, key);
      assert EpisodeOrder(items).value == r;
      forall p | p in prev
        ensures EpisodeNumber(p.1) == Ok(p.0) && HasKey(items, p.1)
      {
        var j :| 0 <= j < |prev| && prev[j] == p;
        HasKeyPrefix(items, p.1);
      }
      assert HasKey(items, key) by {
        assert items[|items| - 1].0 == key;
      }
      forall j | 0 <= j < |r|
        ensures EpisodeNumber(r[j].1) == Ok(r[j].0) && HasKey(items, r[j].1)
      {
        assert r[j] in r;
      }
    }
  }

  /** A key stored among all but the last item is stored among all items. */
  lemma HasKeyPrefix<V>(items: seq<(string, Entries<V>)>, key: string)
    requires |items| > 0 && HasKey(items[..|items| - 1], key)
    ensures HasKey(items, key)
  {
    var k :| 0 <= k < |items| - 1 && items[..|items| - 1][k].0 == key;
    assert items[k].0 == key;
  }

  /** Inserting keeps every number already present and adds `n`. */
  lemma InsertKeepsNumbers(order: seq<(nat, string)>, n: nat, key: string)
    requires Increasing(order)
    ensures HasNumber(Insert(order, n, key), n)
    ensures forall m :: HasNumber(order, m) ==> HasNumber(Insert(order, n, key), m)
  {
    var r := Insert(order, n, key);
    var i :| 0 <= i < |r| && r[i] == (n, key);
    forall m | HasNumber(order, m)
      ensures HasNumber(r, m)
    {
      var j :| 0 <= j < |order| && order[j].0 == m;
      if m != n {
        assert order[j] in r;
        var j2 :| 0 <= j2 < |r| && r[j2] == order[j];
      }
    }
  }

  /** Every stored episode number appears in the order. */
  lemma {:induction false} EpisodeOrderComplete<V>(items: seq<(string, Entries<V>)>)
    requires EpisodeOrder(items).Ok?
    ensures var r := EpisodeOrder(items).value;
      forall k :: 0 <= k < |items| ==> HasNumber(r, EpisodeNumber(items[k].0).value)
  {
    if |items| > 0 {
      var init := items[..|items| - 1];
      assert forall k :: 0 <= k < |items| - 1 ==> init[k] == items[k];
      var prev := EpisodeOrder(init).value;
      EpisodeOrderComplete(init);
      var key := items[|items| - 1].0;
      var n := EpisodeNumber(key).value;
      var r := Insert(prev, n, key);
      assert EpisodeOrder(items).value == r;
      InsertKeepsNumbers(prev, n, key);
      forall k | 0 <= k < |items|
        ensures HasNumber(r, EpisodeNumber(items[k].0).value)
      {
        if k < |items| - 1 {
          assert init[k] == items[k];
        }
      }
    }
  }

  /** The order the reader actually builds: the loop that fills
      `episode_dict` ends with the `break` meant for the structure pass, so
      only the first stored episode is entered. */
  function EpisodeOrderAsWritten<V>(items: seq<(string, Entries<V>)>): (r: Result<seq<(nat, string)>>)
    ensures r.Ok? ==> |r.value| == (if |items| == 0 then 0 else 1)
  {
    if |items| == 0 then Ok([])
    else
      var n :- EpisodeNumber(items[0].0);
      Ok([(n, items[0].0)])
  }

  // ---------------------------------------------------------------------
  // The contiguous table

  /** A stored value: a tensor with rows, or a group that has no shape. */
  datatype Value<V> = Shapeless | Rows(rows: seq<V>)

  /** The items of one stored episode group, in file order. */
  type Entries<V> = seq<(string, Value<V>)>

  /** A column of the table: a top-level key or a key under `"next"`. */
  datatype ColKey = Top(name: string) | Next(name: string)

  /** A table entry; reward-like columns carry a trailing unit dimension. */
  datatype Cell<V> = Plain(v: V) | Unsqueezed(v: V)

  type Table<V> = map<ColKey, seq<Cell<V>>>

  /** Keys stored with one more entry than the episode has steps. */
  predicate ObservationLike(key: string)
  {
    key == "observations" || key == "state" || key == "infos"
  }

  /** Keys that belong to the next step. */
  predicate NextOnly(key: string)
  {
    key == "terminations" || key == "truncations" || key == "rewards"
  }

  function Wrap<V>(rows: seq<V>, unsqueeze: bool): (r: seq<Cell<V>>)
    ensures |r| == |rows|
    ensures forall i :: 0 <= i < |rows| ==> r[i] == (if unsqueeze then Unsqueezed(rows[i]) else Plain(rows[i]))
  {
    seq(|rows|, i requires 0 <= i < |rows| => if unsqueeze then Unsqueezed(rows[i]) else Plain(rows[i]))
  }

  /** The value of the first item named `key`. */
  function Find<V>(ep: Entries<V>, key: string): Option<Value<V>>
  {
    if |ep| == 0 then None
    else if ep[0].0 == key then Some(ep[0].1)
    else Find(ep[1..], key)
  }

  /** `episode["actions"].shape[0]`. */
  function ActionCount<V>(ep: Entries<V>): Result<nat>
  {
    match Find(ep, "actions")
    case None => Err(KeyError)
    case Some(Shapeless) => Err(IndexError)
    case Some(Rows(rows)) => Ok(|rows|)
  }

  /** The table length: the number of actions summed over every stored
      episode. */
  function TotalSteps<V>(items: seq<(string, Entries<V>)>): (r: Result<nat>)
  {
    if |items| == 0 then Ok(0)
    else
      var here :- ActionCount(items[0].1);
      var rest :- TotalSteps(items[1..]);
      Ok(here + rest)
  }

  /** The columns one item defines and the values it writes, all starting
      at the episode offset: an observation-like key writes its entries
      shifted by one under `"next"` and without the last one at the top
      level; reward-like keys go under `"next"`; others stay at the top
      level. */
  function EntryWrites<V>(key: string, rows: seq<V>): (ws: seq<(ColKey, seq<Cell<V>>)>)
    ensures |ws| == (if ObservationLike(key) then 2 else 1)
  {
    var m := NameMatch(key);
    if ObservationLike(key) then
      [(Next(m), Wrap(PySlice(rows, 1, |rows|), false)), (Top(m), Wrap(PySlice(rows, 0, -1), false))]
    else if NextOnly(key) then [(Next(m), Wrap(rows, true))]
    else [(Top(m), Wrap(rows, false))]
  }

  /** `steps` as the item sets it. */
  function EntrySteps(key: string, n: nat): int
  {
    if ObservationLike(key) then n - 1 else n
  }

  /** The zero row of every column, read off the first episode: shapeless
      observation-like groups are skipped and any other shapeless or empty
      value fails the `[0]` index. */
  function Template<V>(ep: Entries<V>, zero: V, acc: map<ColKey, Cell<V>>): (r: Result<map<ColKey, Cell<V>>>)
    ensures r.Ok? <==> forall i :: 0 <= i < |ep| ==>
      (ObservationLike(ep[i].0) && ep[i].1.Shapeless?) || (ep[i].1.Rows? && |ep[i].1.rows| > 0)
    ensures r.Ok? ==> r.value.Keys == acc.Keys + EpisodeColumns(ep)
    ensures r.Err? ==> r.error == IndexError
  {
    if |ep| == 0 then Ok(acc)
    else
      var (key, val) := ep[0];
      if ObservationLike(key) && val.Shapeless? then Template(ep[1..], zero, acc)
      else if val.Shapeless? || |val.rows| == 0 then Err(IndexError)
      else
        var m := NameMatch(key);
        var acc' :=
          if ObservationLike(key) then acc[Next(m) := Plain(zero)][Top(m) := Plain(zero)]
          else if NextOnly(key) then acc[Next(m) := Unsqueezed(zero)]
          else acc[Top(m) := Plain(zero)];
        Template(ep[1..], zero, acc')
  }

  /** `td_data.expand(total_steps)`. */
  function InitialTable<V>(template: map<ColKey, Cell<V>>, total: nat): (t: Table<V>)
    ensures t.Keys == template.Keys
    ensures forall c :: c in t ==> t[c] == Repeat(template[c], total)
  {
    map c | c in template.Keys :: Repeat(template[c], total)
  }

  /** Slice assignment `col[start:stop] = vals` on a tensor: the slice must
      have as many rows as `vals`, or `vals` one row that is broadcast. */
  function Assign<W>(col: seq<W>, start: int, stop: int, vals: seq<W>): (r: Result<seq<W>>)
    ensures r.Ok? ==> |r.value| == |col|
    ensures r.Ok? ==> forall p :: 0 <= p < |col| && (p < PyIndex(start, |col|) || p >= PyIndex(stop, |col|)) ==> r.value[p] == col[p]
  {
    var lo := PyIndex(start, |col|);
    var hi := PyIndex(stop, |col|);
    var len := if lo < hi then hi - lo else 0;
    if len == |vals| then Ok(col[..lo] + vals + col[lo + len..])
    else if |vals| == 1 then Ok(col[..lo] + Repeat(vals[0], len) + col[lo + len..])
    else Err(RuntimeError)
  }

  /** Writing rows `[start, stop)` of one column; a column the structure
      pass did not create raises `KeyError`. */
  function SetColumn<V>(t: Table<V>, c: ColKey, start: int, stop: int, vals: seq<Cell<V>>): (r: Result<Table<V>>)
    ensures r.Ok? ==> r.value.Keys == t.Keys && forall d :: d in t ==> |r.value[d]| == |t[d]|
    ensures r.Ok? ==> forall d :: d in t && d != c ==> r.value[d] == t[d]
    ensures c !in t ==> r == Err(KeyError)
  {
    if c !in t then Err(KeyError)
    else
      var col :- Assign(t[c], start, stop, vals);
      Ok(t[c := col])
  }

  function ApplyWrites<V>(t: Table<V>, ws: seq<(ColKey, seq<Cell<V>>)>, start: int, stop: int): (r: Result<Table<V>>)
    ensures r.Ok? ==> r.value.Keys == t.Keys && forall d :: d in t ==> |r.value[d]| == |t[d]|
  {
    if |ws| == 0 then Ok(t)
    else
      var t' :- SetColumn(t, ws[0].0, start, stop, ws[0].1);
      ApplyWrites(t', ws[1..], start, stop)
  }

  /** One item of an episode written at `index`; `steps` is the loop
      variable that survives from item to item. */
  function FillEntry<V>(t: Table<V>, key: string, val: Value<V>, index: int, steps: Option<int>): Result<(Table<V>, Option<int>)>
  {
    if ObservationLike(key) && val.Shapeless? then Ok((t, steps))
    else if val.Shapeless? then Err(IndexError)
    else
      var s := EntrySteps(key, |val.rows|);
      var t' :- ApplyWrites(t, EntryWrites(key, val.rows), index, index + s);
      Ok((t', Some(s)))
  }

  function FillEpisode<V>(t: Table<V>, ep: Entries<V>, index: int, steps: Option<int>): Result<(Table<V>, Option<int>)>
  {
    if |ep| == 0 then Ok((t, steps))
    else
      var (t', steps') :- FillEntry(t, ep[0].0, ep[0].1, index, steps);
      FillEpisode(t', ep[1..], index, steps')
  }

  /** The episodes in order, each at the running offset advanced by the
      `steps` its last written item left behind. */
  function FillEpisodes<V>(t: Table<V>, eps: seq<Entries<V>>, index: int, steps: Option<int>): Result<Table<V>>
    decreases |eps|
  {
    if |eps| == 0 then Ok(t)
    else
      var (t', steps') :- FillEpisode(t, eps[0], index, steps);
      if steps'.None? then Err(NameError)
      else FillEpisodes(t', eps[1..], index + steps'.value, steps')
  }

  /** The episodes still to be filled, as a fill of their own; a
      non-recursive name for `FillEpisodes` that a loop can carry. */
  function FillRest<V>(t: Table<V>, rest: seq<Entries<V>>, index: int, steps: Option<int>): Result<Table<V>>
  {
    FillEpisodes(t, rest, index, steps)
  }

  /** `h5_data.get(key)`. */
  function Group<V>(items: seq<(string, Entries<V>)>, key: string): Option<Entries<V>>
  {
    if |items| == 0 then None
    else if items[0].0 == key then Some(items[0].1)
    else Group(items[1..], key)
  }

  /** The stored episode of every key of `order`, in that order; a key that
      is not stored fails. */
  function Groups<V>(items: seq<(string, Entries<V>)>, order: seq<(nat, string)>): (r: Result<seq<Entries<V>>>)
    ensures r.Ok? <==> forall k :: 0 <= k < |order| ==> Group(items, order[k].1).Some?
    ensures r.Ok? ==> |r.value| == |order| && forall k :: 0 <= k < |order| ==> Group(items, order[k].1) == Some(r.value[k])
  {
    if |order| == 0 then Ok([])
    else
      match Group(items, order[0].1)
      case None => Err(GenericException)
      case Some(ep) =>
        var rest :- Groups(items, order[1..]);
        Ok([ep] + rest)
  }

  /** The preprocessed dataset: the table and its `("next", "done")` column. */
  datatype Dataset<V> = Dataset(table: Table<V>, done: seq<bool>, total: nat)

  /** `done = terminated | truncated`; `flag` reads a Boolean cell. */
  function DoneColumn<V>(t: Table<V>, flag: Cell<V> -> bool): (r: Result<seq<bool>>)
    ensures r.Ok? ==> Next("terminated") in t && Next("truncated") in t
                      && |r.value| == |t[Next("terminated")]| == |t[Next("truncated")]|
                      && forall i :: 0 <= i < |r.value| ==>
                           (r.value[i] <==> flag(t[Next("terminated")][i]) || flag(t[Next("truncated")][i]))
  {
    if Next("terminated") !in t || Next("truncated") !in t then Err(KeyError)
    else
      var term := t[Next("terminated")];
      var trunc := t[Next("truncated")];
      if |term| != |trunc| then Err(RuntimeError)
      else Ok(seq(|term|, i requires 0 <= i < |term| => flag(term[i]) || flag(trunc[i])))
  }

  /** The table building of `_download_and_preproc` for a given episode
      order: size the table by the total action count, lay out the columns
      of the first episode, write the ordered episodes one after the other
      and add `done`. */
  function Layout<V>(items: seq<(string, Entries<V>)>, order: seq<(nat, string)>, zero: V,
                     flag: Cell<V> -> bool): (r: Result<Dataset<V>>)
    ensures r.Ok? ==> TotalSteps(items) == Ok(r.value.total)
    ensures r.Ok? ==> forall c :: c in r.value.table ==> |r.value.table[c]| == r.value.total
    ensures r.Ok? ==> DoneColumn(r.value.table, flag) == Ok(r.value.done)
    ensures r.Ok? ==> Groups(items, order).Ok?
  {
    var total :- TotalSteps(items);
    var template :- if |items| == 0 then Ok(map[]) else Template(items[0].1, zero, map[]);
    var eps :- Groups(items, order);
    var table :- FillEpisodes(InitialTable(template, total), eps, 0, None);
    FillEpisodesShape(InitialTable(template, total), eps, 0, None);
    var done :- DoneColumn(table, flag);
    Ok(Dataset(table, done, total))
  }

  lemma {:induction false} FillEpisodeShape<V>(t: Table<V>, ep: Entries<V>, index: int, steps: Option<int>)
    requires FillEpisode(t, ep, index, steps).Ok?
    ensures var t' := FillEpisode(t, ep, index, steps).value.0;
      t'.Keys == t.Keys && forall d :: d in t ==> |t'[d]| == |t[d]|
  {
    if |ep| > 0 {
      var (t', steps') := FillEntry(t, ep[0].0, ep[0].1, index, steps).value;
      FillEpisodeShape(t', ep[1..], index, steps');
    }
  }

  lemma {:induction false} FillEpisodesShape<V>(t: Table<V>, eps: seq<Entries<V>>, index: int, steps: Option<int>)
    requires FillEpisodes(t, eps, index, steps).Ok?
    ensures var t' := FillEpisodes(t, eps, index, steps).value;
      t'.Keys == t.Keys && forall d :: d in t ==> |t'[d]| == |t[d]|
  {
    if |eps| > 0 {
      var (t', steps') := FillEpisode(t, eps[0], index, steps).value;
      FillEpisodeShape(t, eps[0], index, steps);
      FillEpisodesShape(t', eps[1..], index + steps'.value, steps');
    }
  }

  /** `_download_and_preproc` with every episode entered into the order:
      the corrected reader. */
  function Preprocess<V>(items: seq<(string, Entries<V>)>, zero: V, flag: Cell<V> -> bool): (r: Result<Dataset<V>>)
    ensures r.Ok? ==> TotalSteps(items) == Ok(r.value.total)
    ensures r.Ok? ==> forall c :: c in r.value.table ==> |r.value.table[c]| == r.value.total
    ensures r.Ok? ==> |r.value.done| == r.value.total
    ensures r.Ok? ==> OrderedEpisodes(items).Ok?
  {
    var total :- TotalSteps(items);
    var order :- EpisodeOrder(items);
    Layout(items, order, zero, flag)
  }

  /** The stored episodes in the order the corrected reader writes them:
      ascending episode number, each number with the last key that carries
      it. */
  function OrderedEpisodes<V>(items: seq<(string, Entries<V>)>): (r: Result<seq<Entries<V>>>)
    ensures r.Ok? ==> EpisodeOrder(items).Ok? && |r.value| == |EpisodeOrder(items).value|
    ensures r.Ok? ==> var order := EpisodeOrder(items).value;
      forall k :: 0 <= k < |order| ==> Group(items, order[k].1) == Some(r.value[k])
  {
    var order :- EpisodeOrder(items);
    Groups(items, order)
  }

  /** `_download_and_preproc` as written, entering only the first episode. */
  function PreprocessAsWritten<V>(items: seq<(string, Entries<V>)>, zero: V, flag: Cell<V> -> bool): (r: Result<Dataset<V>>)
    ensures r.Ok? ==> TotalSteps(items) == Ok(r.value.total)
    ensures r.Ok? ==> forall c :: c in r.value.table ==> |r.value.table[c]| == r.value.total
  {
    var total :- TotalSteps(items);
    var order :- EpisodeOrderAsWritten(items);
    Layout(items, order, zero, flag)
  }

  // ---------------------------------------------------------------------
  // Where the episodes land

  /** Every item of an episode with `n` steps has the length the reader
      expects: observation-like values `n + 1` rows or no shape at all,
      the others `n` rows. */
  predicate ConsistentEpisode<V(==)>(ep: Entries<V>, n: nat)
  {
    forall i :: 0 <= i < |ep| ==>
      if ObservationLike(ep[i].0) then ep[i].1.Shapeless? || |ep[i].1.rows| == n + 1
      else ep[i].1.Rows? && |ep[i].1.rows| == n
  }

  /** No two items of an episode are renamed to the same torchrl name. */
  predicate DistinctNames<V(==)>(ep: Entries<V>)
  {
    forall i, j :: 0 <= i < j < |ep| ==> NameMatch(ep[i].0) != NameMatch(ep[j].0)
  }

  /** The episode has an item that is written, so it sets `steps`. */
  predicate HasRows<V(==)>(ep: Entries<V>)
  {
    exists i :: 0 <= i < |ep| && ep[i].1.Rows?
  }

  /** The columns an item named `key` writes. */
  function ColumnsOf(key: string): set<ColKey>
  {
    var m := NameMatch(key);
    if ObservationLike(key) then {Next(m), Top(m)}
    else if NextOnly(key) then {Next(m)}
    else {Top(m)}
  }

  predicate SameShape<V(==)>(a: Table<V>, b: Table<V>)
  {
    a.Keys == b.Keys && forall c :: c in a ==> |b[c]| == |a[c]|
  }

  /** `b` differs from `a` at most in rows `[lo, hi)` of the columns `cs`. */
  predicate ChangedOnly<V(==)>(a: Table<V>, b: Table<V>, cs: set<ColKey>, lo: int, hi: int)
  {
    && SameShape(a, b)
    && (forall c :: c in a && c !in cs ==> b[c] == a[c])
    && (forall c, p :: c in a && 0 <= p < |a[c]| && !(lo <= p < hi) ==> b[c][p] == a[c][p])
  }

  /** Every column is long enough for rows `[0, hi)`. */
  predicate Fits<V(==)>(t: Table<V>, hi: int)
  {
    forall c :: c in t ==> hi <= |t[c]|
  }

  /** Every column the item writes holds its values from row `off` on. */
  predicate Landed<V(==)>(t: Table<V>, key: string, rows: seq<V>, off: int)
  {
    var ws := EntryWrites(key, rows);
    forall k :: 0 <= k < |ws| ==>
      ws[k].0 in t && 0 <= off && off + |ws[k].1| <= |t[ws[k].0]|
      && forall p :: 0 <= p < |ws[k].1| ==> t[ws[k].0][off + p] == ws[k].1[p]
  }

  predicate EpisodeLanded<V(==)>(t: Table<V>, ep: Entries<V>, off: int)
  {
    forall i :: 0 <= i < |ep| && ep[i].1.Rows? ==> Landed(t, ep[i].0, ep[i].1.rows, off)
  }

  /** The columns the written items of an episode touch. */
  function EpisodeColumns<V>(ep: Entries<V>): set<ColKey>
  {
    if |ep| == 0 then {}
    else (if ep[0].1.Rows? then ColumnsOf(ep[0].0) else {}) + EpisodeColumns(ep[1..])
  }

  lemma AssignInRange<W>(col: seq<W>, start: int, vals: seq<W>)
    requires 0 <= start && start + |vals| <= |col|
    ensures Assign(col, start, start + |vals|, vals) == Ok(col[..start] + vals + col[start + |vals|..])
  {
  }

  /** The writes of one consistent item: each names a distinct column among
      `ColumnsOf(key)` and carries exactly `n` values. */
  lemma EntryWritesShape<V>(key: string, rows: seq<V>, n: nat)
    requires |rows| == (if ObservationLike(key) then n + 1 else n)
    ensures var ws := EntryWrites(key, rows);
      && (forall k :: 0 <= k < |ws| ==> |ws[k].1| == n && ws[k].0 in ColumnsOf(key))
      && (forall c :: c in ColumnsOf(key) ==> exists k :: 0 <= k < |ws| && ws[k].0 == c)
      && (forall i, j :: 0 <= i < j < |ws| ==> ws[i].0 != ws[j].0)
  {
    var ws := EntryWrites(key, rows);
    if ObservationLike(key) {
      assert ws[0].0 == Next(NameMatch(key)) && ws[1].0 == Top(NameMatch(key));
    } else {
      assert ws[0].0 in ColumnsOf(key);
    }
  }

  /** The columns a list of writes names. */
  function Targets<V>(ws: seq<(ColKey, seq<Cell<V>>)>): set<ColKey>
  {
    if |ws| == 0 then {} else {ws[0].0} + Targets(ws[1..])
  }

  lemma {:induction false} TargetsAre<V>(ws: seq<(ColKey, seq<Cell<V>>)>)
    ensures forall c :: c in Targets(ws) <==> exists k :: 0 <= k < |ws| && ws[k].0 == c
  {
    if |ws| > 0 {
      TargetsAre(ws[1..]);
      assert forall k :: 1 <= k < |ws| ==> ws[k] == ws[1..][k - 1];
    }
  }

  /** Writing `vals` into rows `[start, start + |vals|)` of column `c`
      changes only those rows of that column, and they hold `vals`. */
  lemma SetColumnEffect<V>(t: Table<V>, c: ColKey, start: int, n: nat, vals: seq<Cell<V>>)
    requires 0 <= start && c in t && start + n <= |t[c]| && |vals| == n
    ensures SetColumn(t, c, start, start + n, vals).Ok?
    ensures var t1 := SetColumn(t, c, start, start + n, vals).value;
      && ChangedOnly(t, t1, {c}, start, start + n)
      && forall p :: 0 <= p < n ==> t1[c][start + p] == vals[p]
  {
    AssignInRange(t[c], start, vals);
    var col := t[c][..start] + vals + t[c][start + n..];
    assert SetColumn(t, c, start, start + n, vals) == Ok(t[c := col]);
  }

  lemma ChangedOnlyTrans<V>(a: Table<V>, b: Table<V>, d: Table<V>, cs1: set<ColKey>, cs2: set<ColKey>, lo: int, hi: int)
    requires ChangedOnly(a, b, cs1, lo, hi) && ChangedOnly(b, d, cs2, lo, hi)
    ensures ChangedOnly(a, d, cs1 + cs2, lo, hi)
  {
  }

  /** Every write carries `n` values for an existing column long enough to
      take them at `start`. */
  predicate WritesFit<V(==)>(t: Table<V>, ws: seq<(ColKey, seq<Cell<V>>)>, start: int, n: nat)
  {
    forall k :: 0 <= k < |ws| ==> |ws[k].1| == n && ws[k].0 in t && start + n <= |t[ws[k].0]|
  }

  predicate DistinctTargets<V>(ws: seq<(ColKey, seq<Cell<V>>)>)
  {
    forall i, j :: 0 <= i < j < |ws| ==> ws[i].0 != ws[j].0
  }

  lemma WritesFitTail<V>(t: Table<V>, t1: Table<V>, ws: seq<(ColKey, seq<Cell<V>>)>, start: int, n: nat)
    requires |ws| > 0 && WritesFit(t, ws, start, n) && SameShape(t, t1)
    ensures WritesFit(t1, ws[1..], start, n)
  {
    assert forall k :: 0 <= k < |ws| - 1 ==> ws[1..][k] == ws[k + 1];
  }

  lemma DistinctTail<V>(ws: seq<(ColKey, seq<Cell<V>>)>)
    requires |ws| > 0 && DistinctTargets(ws)
    ensures DistinctTargets(ws[1..])
    ensures ws[0].0 !in Targets(ws[1..])
  {
    assert forall k :: 0 <= k < |ws| - 1 ==> ws[1..][k] == ws[k + 1];
    TargetsAre(ws[1..]);
  }

  /** Applying in-range writes at `start` changes only their columns, in
      rows `[start, start + n)`. */
  lemma {:induction false} ApplyWritesChanged<V>(t: Table<V>, ws: seq<(ColKey, seq<Cell<V>>)>, start: int, n: nat)
    requires 0 <= start && WritesFit(t, ws, start, n)
    ensures ApplyWrites(t, ws, start, start + n).Ok?
    ensures ChangedOnly(t, ApplyWrites(t, ws, start, start + n).value, Targets(ws), start, start + n)
  {
    if |ws| > 0 {
      var c, rest := ws[0].0, ws[1..];
      SetColumnEffect(t, c, start, n, ws[0].1);
      var t1 := SetColumn(t, c, start, start + n, ws[0].1).value;
      WritesFitTail(t, t1, ws, start, n);
      ApplyWritesChanged(t1, rest, start, n);
      var r := ApplyWrites(t1, rest, start, start + n).value;
      assert ApplyWrites(t, ws, start, start + n) == Ok(r);
      ChangedOnlyTrans(t, t1, r, {c}, Targets(rest), start, start + n);
      assert Targets(ws) == {c} + Targets(rest);
    }
  }

  /** Applying distinct in-range writes at `start` leaves each write's values
      in its column from row `start` on. */
  lemma {:induction false} ApplyWritesLanded<V>(t: Table<V>, ws: seq<(ColKey, seq<Cell<V>>)>, start: int, n: nat)
    requires 0 <= start && WritesFit(t, ws, start, n) && DistinctTargets(ws)
    ensures ApplyWrites(t, ws, start, start + n).Ok?
    ensures var r := ApplyWrites(t, ws, start, start + n).value;
      forall k, p :: 0 <= k < |ws| && 0 <= p < n ==> r[ws[k].0][start + p] == ws[k].1[p]
  {
    ApplyWritesChanged(t, ws, start, n);
    if |ws| > 0 {
      var c, rest := ws[0].0, ws[1..];
      SetColumnEffect(t, c, start, n, ws[0].1);
      var t1 := SetColumn(t, c, start, start + n, ws[0].1).value;
      WritesFitTail(t, t1, ws, start, n);
      DistinctTail(ws);
      ApplyWritesLanded(t1, rest, start, n);
      ApplyWritesChanged(t1, rest, start, n);
      var r := ApplyWrites(t1, rest, start, start + n).value;
      assert ApplyWrites(t, ws, start, start + n) == Ok(r);
      assert r[c] == t1[c];
      forall k, p | 0 <= k < |ws| && 0 <= p < n
        ensures r[ws[k].0][start + p] == ws[k].1[p]
      {
        if k > 0 {
          assert ws[k] == rest[k - 1];
        }
      }
    }
  }

  /** Applying distinct in-range writes of `n` values at `start`. */
  lemma ApplyWritesEffect<V>(t: Table<V>, ws: seq<(ColKey, seq<Cell<V>>)>, start: int, n: nat)
    requires 0 <= start
    requires forall k :: 0 <= k < |ws| ==> |ws[k].1| == n && ws[k].0 in t && start + n <= |t[ws[k].0]|
    requires forall i, j :: 0 <= i < j < |ws| ==> ws[i].0 != ws[j].0
    ensures ApplyWrites(t, ws, start, start + n).Ok?
    ensures var r := ApplyWrites(t, ws, start, start + n).value;
      && ChangedOnly(t, r, Targets(ws), start, start + n)
      && forall k, p :: 0 <= k < |ws| && 0 <= p < n ==> r[ws[k].0][start + p] == ws[k].1[p]
  {
    ApplyWritesChanged(t, ws, start, n);
    ApplyWritesLanded(t, ws, start, n);
  }

  /** One consistent item written at `index` changes only its own columns
      in rows `[index, index + n)`, lands there, and sets `steps` to `n`. */
  lemma FillEntryEffect<V>(t: Table<V>, key: string, rows: seq<V>, index: int, n: nat, steps: Option<int>)
    requires |rows| == (if ObservationLike(key) then n + 1 else n)
    requires 0 <= index && Fits(t, index + n) && ColumnsOf(key) <= t.Keys
    ensures FillEntry(t, key, Rows(rows), index, steps).Ok?
    ensures var (r, s) := FillEntry(t, key, Rows(rows), index, steps).value;
      && s == Some(n as int)
      && ChangedOnly(t, r, ColumnsOf(key), index, index + n)
      && Landed(r, key, rows, index)
  {
    var ws := EntryWrites(key, rows);
    EntryWritesShape(key, rows, n);
    ApplyWritesEffect(t, ws, index, n);
    var r := ApplyWrites(t, ws, index, index + n).value;
    FillEntryIsApply(t, key, rows, index, n, steps);
    TargetsWithin(ws, ColumnsOf(key));
    ChangedOnlyWiden(t, r, Targets(ws), ColumnsOf(key), index, index + n);
    LandedOf(r, key, rows, ws, index, n);
  }

  /** A consistent item's fill is its writes over rows `[index, index + n)`. */
  lemma FillEntryIsApply<V>(t: Table<V>, key: string, rows: seq<V>, index: int, n: nat, steps: Option<int>)
    requires |rows| == (if ObservationLike(key) then n + 1 else n)
    requires ApplyWrites(t, EntryWrites(key, rows), index, index + n).Ok?
    ensures FillEntry(t, key, Rows(rows), index, steps)
      == Ok((ApplyWrites(t, EntryWrites(key, rows), index, index + n).value, Some(n as int)))
  {
    assert EntrySteps(key, |rows|) == n;
  }

  lemma {:induction false} TargetsWithin<V>(ws: seq<(ColKey, seq<Cell<V>>)>, cs: set<ColKey>)
    requires forall k :: 0 <= k < |ws| ==> ws[k].0 in cs
    ensures Targets(ws) <= cs
  {
    if |ws| > 0 {
      assert forall k :: 0 <= k < |ws| - 1 ==> ws[1..][k] == ws[k + 1];
      TargetsWithin(ws[1..], cs);
    }
  }

  lemma ChangedOnlyWiden<V>(a: Table<V>, b: Table<V>, cs1: set<ColKey>, cs2: set<ColKey>, lo: int, hi: int)
    requires ChangedOnly(a, b, cs1, lo, hi) && cs1 <= cs2
    ensures ChangedOnly(a, b, cs2, lo, hi)
  {
  }

  /** Writes that landed, read back through `Landed`. */
  lemma LandedOf<V>(r: Table<V>, key: string, rows: seq<V>, ws: seq<(ColKey, seq<Cell<V>>)>, off: int, n: nat)
    requires ws == EntryWrites(key, rows) && 0 <= off
    requires forall k :: 0 <= k < |ws| ==> |ws[k].1| == n && ws[k].0 in r && off + n <= |r[ws[k].0]|
    requires forall k, p :: 0 <= k < |ws| && 0 <= p < n ==> r[ws[k].0][off + p] == ws[k].1[p]
    ensures Landed(r, key, rows, off)
  {
  }

  lemma {:induction false} EpisodeColumnsNamed<V>(ep: Entries<V>, c: ColKey)
    requires c in EpisodeColumns(ep)
    ensures exists i :: 0 <= i < |ep| && c.name == NameMatch(ep[i].0)
  {
    if c in (if ep[0].1.Rows? then ColumnsOf(ep[0].0) else {}) {
      assert c.name == NameMatch(ep[0].0);
    } else {
      EpisodeColumnsNamed(ep[1..], c);
      var i :| 0 <= i < |ep[1..]| && c.name == NameMatch(ep[1..][i].0);
      assert ep[1..][i] == ep[i + 1];
    }
  }

  /** A landed item stays landed when its columns are left alone. */
  lemma LandedUntouched<V>(a: Table<V>, b: Table<V>, key: string, rows: seq<V>, off: int, cs: set<ColKey>, lo: int, hi: int)
    requires Landed(a, key, rows, off) && ChangedOnly(a, b, cs, lo, hi)
    requires ColumnsOf(key) !! cs
    requires |rows| >= (if ObservationLike(key) then 1 else 0)
    ensures Landed(b, key, rows, off)
  {
    var ws := EntryWrites(key, rows);
    forall k | 0 <= k < |ws|
      ensures ws[k].0 in ColumnsOf(key)
    {
    }
  }

  /** A landed item stays landed when only later rows change. */
  lemma LandedBefore<V>(a: Table<V>, b: Table<V>, key: string, rows: seq<V>, off: int, n: nat, cs: set<ColKey>, lo: int, hi: int)
    requires |rows| == (if ObservationLike(key) then n + 1 else n)
    requires Landed(a, key, rows, off) && ChangedOnly(a, b, cs, lo, hi)
    requires off + n <= lo
    ensures Landed(b, key, rows, off)
  {
    EntryWritesShape(key, rows, n);
  }

  /** The first item's columns are not written again by the rest of an
      episode with distinct names. */
  lemma HeadColumnsDisjoint<V>(ep: Entries<V>)
    requires |ep| > 0 && DistinctNames(ep)
    ensures ColumnsOf(ep[0].0) !! EpisodeColumns(ep[1..])
  {
    var rest := ep[1..];
    forall c | c in EpisodeColumns(rest) ensures c !in ColumnsOf(ep[0].0) {
      EpisodeColumnsNamed(rest, c);
      var j :| 0 <= j < |rest| && c.name == NameMatch(rest[j].0);
      assert rest[j] == ep[j + 1];
    }
  }

  lemma TailFacts<V>(ep: Entries<V>, n: nat)
    requires |ep| > 0 && ConsistentEpisode(ep, n) && DistinctNames(ep)
    ensures ConsistentEpisode(ep[1..], n) && DistinctNames(ep[1..])
    ensures HasRows(ep) == (ep[0].1.Rows? || HasRows(ep[1..]))
  {
    var rest := ep[1..];
    forall i | 0 <= i < |rest| ensures rest[i] == ep[i + 1] { }
    if HasRows(rest) {
      var i :| 0 <= i < |rest| && rest[i].1.Rows?;
      assert ep[i + 1] == rest[i];
    }
  }

  /** The first item of a consistent episode. */
  lemma FillHead<V>(t: Table<V>, ep: Entries<V>, index: int, n: nat, steps: Option<int>)
      returns (t1: Table<V>, s1: Option<int>)
    requires |ep| > 0 && ConsistentEpisode(ep, n)
    requires 0 <= index && Fits(t, index + n) && EpisodeColumns(ep) <= t.Keys
    ensures FillEntry(t, ep[0].0, ep[0].1, index, steps) == Ok((t1, s1))
    ensures s1 == if ep[0].1.Rows? then Some(n as int) else steps
    ensures ChangedOnly(t, t1, if ep[0].1.Rows? then ColumnsOf(ep[0].0) else {}, index, index + n)
    ensures ep[0].1.Rows? ==> Landed(t1, ep[0].0, ep[0].1.rows, index)
  {
    var (key, val) := ep[0];
    assert ObservationLike(key) || val.Rows?;
    if val.Shapeless? {
      t1, s1 := t, steps;
    } else {
      FillEntryEffect(t, key, val.rows, index, n, steps);
      t1, s1 := FillEntry(t, key, val, index, steps).value.0, Some(n as int);
    }
  }

  /** A consistent episode written at `index` changes only the rows
      `[index, index + n)` of its own columns, every written item lands
      there, and `steps` ends at `n` once any item was written. */
  lemma {:induction false} FillEpisodeEffect<V>(t: Table<V>, ep: Entries<V>, index: int, n: nat, steps: Option<int>)
    requires ConsistentEpisode(ep, n) && DistinctNames(ep)
    requires 0 <= index && Fits(t, index + n) && EpisodeColumns(ep) <= t.Keys
    ensures FillEpisode(t, ep, index, steps).Ok?
    ensures var (r, s) := FillEpisode(t, ep, index, steps).value;
      && s == (if HasRows(ep) then Some(n as int) else steps)
      && ChangedOnly(t, r, EpisodeColumns(ep), index, index + n)
      && EpisodeLanded(r, ep, index)
  {
    if |ep| > 0 {
      var rest := ep[1..];
      TailFacts(ep, n);
      var t1, s1 := FillHead(t, ep, index, n, steps);
      FillEpisodeEffect(t1, rest, index, n, s1);
      var (r, s) := FillEpisode(t1, rest, index, s1).value;
      assert FillEpisode(t, ep, index, steps) == Ok((r, s));
      ChangedOnlyTrans(t, t1, r, if ep[0].1.Rows? then ColumnsOf(ep[0].0) else {}, EpisodeColumns(rest), index, index + n);
      forall i | 0 <= i < |ep| && ep[i].1.Rows?
        ensures Landed(r, ep[i].0, ep[i].1.rows, index)
      {
        if i == 0 {
          HeadColumnsDisjoint(ep);
          LandedUntouched(t1, r, ep[0].0, ep[0].1.rows, index, EpisodeColumns(rest), index, index + n);
        } else {
          assert ep[i] == rest[i - 1];
        }
      }
    }
  }

  /** A landed episode stays landed when only later rows change. */
  lemma EpisodeLandedBefore<V>(a: Table<V>, b: Table<V>, ep: Entries<V>, off: int, n: nat, cs: set<ColKey>, lo: int, hi: int)
    requires ConsistentEpisode(ep, n) && EpisodeLanded(a, ep, off) && ChangedOnly(a, b, cs, lo, hi)
    requires off + n <= lo
    ensures EpisodeLanded(b, ep, off)
  {
    forall i | 0 <= i < |ep| && ep[i].1.Rows?
      ensures Landed(b, ep[i].0, ep[i].1.rows, off)
    {
      LandedBefore(a, b, ep[i].0, ep[i].1.rows, off, n, cs, lo, hi);
    }
  }

  /** The episodes lie back to back from `index`: the first lands there and
      the rest follow after its `ns[0]` steps. */
  predicate LaidOut<V(==)>(t: Table<V>, eps: seq<Entries<V>>, ns: seq<nat>, index: int)
    decreases |eps|
  {
    && |ns| == |eps|
    && (|eps| > 0 ==> EpisodeLanded(t, eps[0], index) && LaidOut(t, eps[1..], ns[1..], index + ns[0]))
  }

  /** Episode `k` of `eps` lands at `index` plus the steps before it. */
  predicate LandedAt<V(==)>(t: Table<V>, eps: seq<Entries<V>>, ns: seq<nat>, index: int)
  {
    |ns| == |eps| && forall k :: 0 <= k < |eps| ==> EpisodeLanded(t, eps[k], index + Sum(ns[..k]))
  }

  /** Laying out back to back is landing each episode after the steps of
      the ones before it. */
  lemma {:induction false} LaidOutIndexed<V>(t: Table<V>, eps: seq<Entries<V>>, ns: seq<nat>, index: int)
    ensures LaidOut(t, eps, ns, index) <==> LandedAt(t, eps, ns, index)
    decreases |eps|
  {
    if |eps| > 0 && |ns| == |eps| {
      LaidOutIndexed(t, eps[1..], ns[1..], index + ns[0]);
      LandedAtCons(t, eps, ns, index);
    }
  }

  lemma LandedAtCons<V>(t: Table<V>, eps: seq<Entries<V>>, ns: seq<nat>, index: int)
    requires |ns| == |eps| > 0
    ensures LandedAt(t, eps, ns, index)
            <==> EpisodeLanded(t, eps[0], index) && LandedAt(t, eps[1..], ns[1..], index + ns[0])
  {
    if LandedAt(t, eps, ns, index) {
      LandedAtTail(t, eps, ns, index);
    }
    if EpisodeLanded(t, eps[0], index) && LandedAt(t, eps[1..], ns[1..], index + ns[0]) {
      LandedAtFromTail(t, eps, ns, index);
    }
  }

  lemma SumPrefixCons(ns: seq<nat>, k: nat)
    requires 0 < k <= |ns|
    ensures Sum(ns[..k]) == ns[0] + Sum(ns[1..][..k - 1])
  {
    assert ns[..k] == [ns[0]] + ns[1..][..k - 1];
  }

  lemma LandedAtTail<V>(t: Table<V>, eps: seq<Entries<V>>, ns: seq<nat>, index: int)
    requires |ns| == |eps| > 0 && LandedAt(t, eps, ns, index)
    ensures EpisodeLanded(t, eps[0], index) && LandedAt(t, eps[1..], ns[1..], index + ns[0])
  {
    assert Sum(ns[..0]) == 0;
    LandedMoved(t, eps[0], eps[0], index + Sum(ns[..0]), index);
    forall k | 0 <= k < |eps| - 1
      ensures EpisodeLanded(t, eps[1..][k], index + ns[0] + Sum(ns[1..][..k]))
    {
      SumPrefixCons(ns, k + 1);
      assert EpisodeLanded(t, eps[k + 1], index + Sum(ns[..k + 1]));
      LandedMoved(t, eps[k + 1], eps[1..][k], index + Sum(ns[..k + 1]), index + ns[0] + Sum(ns[1..][..k]));
    }
  }

  lemma LandedAtFromTail<V>(t: Table<V>, eps: seq<Entries<V>>, ns: seq<nat>, index: int)
    requires |ns| == |eps| > 0
    requires EpisodeLanded(t, eps[0], index) && LandedAt(t, eps[1..], ns[1..], index + ns[0])
    ensures LandedAt(t, eps, ns, index)
  {
    assert Sum(ns[..0]) == 0;
    forall k | 0 < k < |eps|
      ensures EpisodeLanded(t, eps[k], index + Sum(ns[..k]))
    {
      SumPrefixCons(ns, k);
      LandedMoved(t, eps[1..][k - 1], eps[k], index + ns[0] + Sum(ns[1..][..k - 1]), index + Sum(ns[..k]));
    }
  }

  lemma LandedMoved<V>(t: Table<V>, e1: Entries<V>, e2: Entries<V>, o1: int, o2: int)
    requires EpisodeLanded(t, e1, o1) && e1 == e2 && o1 == o2
    ensures EpisodeLanded(t, e2, o2)
  {
  }

  /** One episode of `n` steps is consistent, has distinct names and a
      written item, and writes only columns of `keys`. */
  predicate EpisodeReady<V(==)>(ep: Entries<V>, n: nat, keys: set<ColKey>)
  {
    ConsistentEpisode(ep, n) && DistinctNames(ep) && HasRows(ep) && EpisodeColumns(ep) <= keys
  }

  /** Every episode of `eps` is ready with its step count in `ns`. */
  predicate WellFormedEpisodes<V(==)>(eps: seq<Entries<V>>, ns: seq<nat>, keys: set<ColKey>)
    decreases |eps|
  {
    && |ns| == |eps|
    && (|eps| > 0 ==> EpisodeReady(eps[0], ns[0], keys) && WellFormedEpisodes(eps[1..], ns[1..], keys))
  }

  /** Episode `j` exists and is ready with its step count. */
  predicate ReadyAt<V(==)>(eps: seq<Entries<V>>, ns: seq<nat>, keys: set<ColKey>, j: int)
  {
    0 <= j < |eps| && j < |ns| && EpisodeReady(eps[j], ns[j], keys)
  }

  /** `WellFormedEpisodes` stated position by position. */
  predicate AllReady<V(==)>(eps: seq<Entries<V>>, ns: seq<nat>, keys: set<ColKey>)
  {
    |ns| == |eps| && forall j :: 0 <= j < |eps| ==> ReadyAt(eps, ns, keys, j)
  }

  lemma {:induction false} ReadyIffWellFormed<V>(eps: seq<Entries<V>>, ns: seq<nat>, keys: set<ColKey>)
    ensures WellFormedEpisodes(eps, ns, keys) <==> AllReady(eps, ns, keys)
    decreases |eps|
  {
    if 0 < |eps| == |ns| {
      ReadyIffWellFormed(eps[1..], ns[1..], keys);
      if AllReady(eps, ns, keys) {
        assert ReadyAt(eps, ns, keys, 0);
        forall j | 0 <= j < |eps| - 1 ensures ReadyAt(eps[1..], ns[1..], keys, j) {
          assert ReadyAt(eps, ns, keys, j + 1);
        }
      }
      if WellFormedEpisodes(eps, ns, keys) {
        forall j | 0 <= j < |eps| ensures ReadyAt(eps, ns, keys, j) {
          if j > 0 {
            assert ReadyAt(eps[1..], ns[1..], keys, j - 1);
          }
        }
      }
    }
  }

  /** The steps from episode `k` on are its own and those after it. */
  lemma SumAt(ns: seq<nat>, k: nat)
    requires k < |ns|
    ensures Sum(ns[k..]) == ns[k] + Sum(ns[k + 1..]) && Sum(ns[k + 1..]) >= 0
  {
    assert ns[k..][0] == ns[k] && ns[k..][1..] == ns[k + 1..];
    SumNat(ns[k + 1..]);
  }

  lemma SumSnoc(ns: seq<nat>, k: nat)
    requires k < |ns|
    ensures Sum(ns[..k + 1]) == Sum(ns[..k]) + ns[k] && Sum(ns[..k]) >= 0
  {
    assert ns[..k + 1] == ns[..k] + [ns[k]];
    SumAppend(ns[..k], [ns[k]]);
    SumNat(ns[..k]);
  }

  /** Filling episode `k` of well-formed episodes succeeds after its `n`
      steps, and its effect widened to all columns. */
  lemma FirstEpisodeFill<V>(t: Table<V>, eps: seq<Entries<V>>, k: nat, index: int, n: nat, steps: Option<int>)
      returns (t1: Table<V>, s1: Option<int>)
    requires k < |eps|
    requires ConsistentEpisode(eps[k], n) && DistinctNames(eps[k]) && HasRows(eps[k]) && EpisodeColumns(eps[k]) <= t.Keys
    requires 0 <= index && Fits(t, index + n)
    ensures FillEpisode(t, eps[k], index, steps) == Ok((t1, s1)) && s1 == Some(n as int)
    ensures ChangedOnly(t, t1, t.Keys, index, index + n) && EpisodeLanded(t1, eps[k], index)
  {
    FillEpisodeEffect(t, eps[k], index, n, steps);
    var res := FillEpisode(t, eps[k], index, steps).value;
    t1, s1 := res.0, res.1;
    ChangedOnlyWiden(t, t1, EpisodeColumns(eps[k]), t.Keys, index, index + n);
  }

  /** A table of the same shape fits any bound up to the first one's. */
  lemma FitsResized<V>(t: Table<V>, t1: Table<V>, hi1: int, hi2: int)
    requires Fits(t, hi1) && SameShape(t, t1) && hi2 <= hi1
    ensures Fits(t1, hi2)
  {
  }

  lemma ChangedOnlySame<V>(a: Table<V>, b: Table<V>, cs1: set<ColKey>, cs2: set<ColKey>, lo: int, hi1: int, hi2: int)
    requires ChangedOnly(a, b, cs1, lo, hi1) && cs1 == cs2 && hi1 == hi2
    ensures ChangedOnly(a, b, cs2, lo, hi2)
  {
  }

  /** Two successive changes of adjacent row ranges. */
  lemma ChangedAdjacent<V>(a: Table<V>, b: Table<V>, c: Table<V>, cs: set<ColKey>, lo: int, mid: int, hi: int)
    requires lo <= mid <= hi
    requires ChangedOnly(a, b, cs, lo, mid) && ChangedOnly(b, c, cs, mid, hi)
    ensures ChangedOnly(a, c, cs, lo, hi)
  {
  }

  /** Episode `j` lands at `index` plus the steps of the episodes before
      it. */
  predicate LandedNth<V(==)>(t: Table<V>, eps: seq<Entries<V>>, ns: seq<nat>, index: int, j: int)
  {
    0 <= j < |eps| && j <= |ns| && EpisodeLanded(t, eps[j], index + Sum(ns[..j]))
  }

  /** The first `k` episodes have landed. */
  predicate FirstLanded<V(==)>(t: Table<V>, eps: seq<Entries<V>>, ns: seq<nat>, index: int, k: int)
  {
    forall j :: 0 <= j < k ==> LandedNth(t, eps, ns, index, j)
  }

  /** The steps of the episodes before `j` and of `j` itself stay within
      those of the first `k`. */
  lemma SumPrefixWithin(ns: seq<nat>, j: nat, k: nat)
    requires j < k <= |ns|
    ensures Sum(ns[..j]) + ns[j] <= Sum(ns[..k])
  {
    SumSnoc(ns, j);
    assert ns[..k] == ns[..j + 1] + ns[j + 1..k];
    SumAppend(ns[..j + 1], ns[j + 1..k]);
    SumNat(ns[j + 1..k]);
  }

  /** Episodes landed before the steps of the first `k` stay landed when
      only rows from there on change. */
  lemma KeptLanded<V>(a: Table<V>, b: Table<V>, eps: seq<Entries<V>>, ns: seq<nat>, index: int, keys: set<ColKey>,
                      k: nat, cs: set<ColKey>, lo: int, hi: int)
    requires k <= |eps| == |ns| && AllReady(eps, ns, keys)
    requires FirstLanded(a, eps, ns, index, k) && ChangedOnly(a, b, cs, lo, hi) && index + Sum(ns[..k]) <= lo
    ensures FirstLanded(b, eps, ns, index, k)
  {
    forall j | 0 <= j < k ensures LandedNth(b, eps, ns, index, j) {
      assert LandedNth(a, eps, ns, index, j) && ReadyAt(eps, ns, keys, j);
      SumPrefixWithin(ns, j, k);
      LandedNthKept(a, b, eps, ns, index, j, cs, lo, hi);
    }
  }

  /** Episode `j`, landed and ending before row `lo`, stays landed when
      only rows from `lo` on change. */
  lemma LandedNthKept<V>(a: Table<V>, b: Table<V>, eps: seq<Entries<V>>, ns: seq<nat>, index: int, j: nat,
                         cs: set<ColKey>, lo: int, hi: int)
    requires j < |eps| == |ns| && ConsistentEpisode(eps[j], ns[j]) && LandedNth(a, eps, ns, index, j)
    requires ChangedOnly(a, b, cs, lo, hi) && index + Sum(ns[..j]) + ns[j] <= lo
    ensures LandedNth(b, eps, ns, index, j)
  {
    EpisodeLandedBefore(a, b, eps[j], index + Sum(ns[..j]), ns[j], cs, lo, hi);
  }

  /** One more landed episode extends the landed prefix. */
  lemma FirstLandedSnoc<V>(t: Table<V>, eps: seq<Entries<V>>, ns: seq<nat>, index: int, k: nat, at: int)
    ensures && k < |eps| == |ns| && at == index + Sum(ns[..k])
            && FirstLanded(t, eps, ns, index, k) && EpisodeLanded(t, eps[k], at)
            ==> FirstLanded(t, eps, ns, index, k + 1)
  {
    if k < |eps| == |ns| && at == index + Sum(ns[..k]) && FirstLanded(t, eps, ns, index, k) && EpisodeLanded(t, eps[k], at) {
      assert LandedNth(t, eps, ns, index, k);
    }
  }

  /** All episodes landed is the indexed layout. */
  lemma FirstLandedAll<V>(t: Table<V>, eps: seq<Entries<V>>, ns: seq<nat>, index: int)
    requires |eps| == |ns| && FirstLanded(t, eps, ns, index, |eps|)
    ensures LaidOut(t, eps, ns, index)
  {
    forall j | 0 <= j < |eps| ensures EpisodeLanded(t, eps[j], index + Sum(ns[..j])) {
      assert LandedNth(t, eps, ns, index, j);
    }
    LaidOutIndexed(t, eps, ns, index);
  }

  /** One round of filling: episode `k` is filled at `at`, and every fact
      the round keeps holds one episode further on. */
  lemma FillNext<V>(t: Table<V>, cur: Table<V>, eps: seq<Entries<V>>, ns: seq<nat>, index: int, k: nat, at: int, s: Option<int>)
      returns (t1: Table<V>, s1: Option<int>)
    requires k < |eps| == |ns| && AllReady(eps, ns, t.Keys)
    requires at == index + Sum(ns[..k]) && index + Sum(ns) == at + Sum(ns[k..])
    requires 0 <= index && Fits(cur, index + Sum(ns))
    requires ChangedOnly(t, cur, t.Keys, index, at) && FirstLanded(cur, eps, ns, index, k)
    ensures FillEpisode(cur, eps[k], at, s) == Ok((t1, s1)) && s1 == Some(ns[k] as int)
    ensures at + ns[k] == index + Sum(ns[..k + 1]) && index + Sum(ns) == at + ns[k] + Sum(ns[k + 1..])
    ensures Fits(t1, index + Sum(ns))
    ensures ChangedOnly(t, t1, t.Keys, index, at + ns[k]) && FirstLanded(t1, eps, ns, index, k + 1)
  {
    assert ReadyAt(eps, ns, t.Keys, k);
    SumAt(ns, k);
    SumSnoc(ns, k);
    FitsResized(cur, cur, index + Sum(ns), at + ns[k]);
    t1, s1 := FirstEpisodeFill(cur, eps, k, at, ns[k], s);
    FitsResized(cur, t1, index + Sum(ns), index + Sum(ns));
    ChangedOnlySame(cur, t1, cur.Keys, t.Keys, at, at + ns[k], at + ns[k]);
    ChangedAdjacent(t, cur, t1, t.Keys, index, at, at + ns[k]);
    KeptLanded(cur, t1, eps, ns, index, t.Keys, k, t.Keys, at, at + ns[k]);
    FirstLandedSnoc(t1, eps, ns, index, k, at);
  }

  /** Episodes of known step counts `ns`, each consistent, with distinct
      names and at least one written item, are laid out back to back: the
      `k`-th lands at `index` plus the steps of the episodes before it, and
      nothing outside rows `[index, index + Sum(ns))` changes. */
  lemma FillEpisodesEffect<V>(t: Table<V>, eps: seq<Entries<V>>, ns: seq<nat>, index: int, steps: Option<int>)
    requires WellFormedEpisodes(eps, ns, t.Keys)
    requires 0 <= index && Fits(t, index + Sum(ns))
    ensures FillEpisodes(t, eps, index, steps).Ok?
    ensures var r := FillEpisodes(t, eps, index, steps).value;
      ChangedOnly(t, r, t.Keys, index, index + Sum(ns)) && LaidOut(r, eps, ns, index)
  {
    ReadyIffWellFormed(eps, ns, t.Keys);
    FillAllReady(t, eps, ns, index, steps);
  }

  /** `FillEpisodesEffect` for episodes ready position by position. */
  lemma FillAllReady<V>(t: Table<V>, eps: seq<Entries<V>>, ns: seq<nat>, index: int, steps: Option<int>)
    requires AllReady(eps, ns, t.Keys)
    requires 0 <= index && Fits(t, index + Sum(ns))
    ensures FillEpisodes(t, eps, index, steps).Ok?
    ensures var r := FillEpisodes(t, eps, index, steps).value;
      ChangedOnly(t, r, t.Keys, index, index + Sum(ns)) && LaidOut(r, eps, ns, index)
  {
    var whole := FillEpisodes(t, eps, index, steps);
    var k, cur, at, s := 0, t, index, steps;
    assert eps[k..] == eps && ns[k..] == ns;
    while k < |eps|
      invariant k <= |eps| == |ns|
      invariant at == index + Sum(ns[..k]) && index + Sum(ns) == at + Sum(ns[k..])
      invariant Fits(cur, index + Sum(ns))
      invariant whole == FillRest(cur, eps[k..], at, s)
      invariant ChangedOnly(t, cur, t.Keys, index, at) && FirstLanded(cur, eps, ns, index, k)
    {
      cur, s := FillAdvance(whole, t, cur, eps, ns, index, k, at, s);
      k, at := k + 1, at + ns[k];
    }
    assert eps[k..] == [];
    FirstLandedAll(cur, eps, ns, index);
  }

  /** One turn of the fill loop in `FillAllReady`: the loop's invariant
      holds again one episode further on. */
  lemma FillAdvance<V>(whole: Result<Table<V>>, t: Table<V>, cur: Table<V>, eps: seq<Entries<V>>, ns: seq<nat>, index: int,
                       k: nat, at: int, s: Option<int>) returns (t1: Table<V>, s1: Option<int>)
    requires k < |eps| == |ns| && AllReady(eps, ns, t.Keys)
    requires at == index + Sum(ns[..k]) && index + Sum(ns) == at + Sum(ns[k..])
    requires 0 <= index && Fits(cur, index + Sum(ns))
    requires whole == FillRest(cur, eps[k..], at, s)
    requires ChangedOnly(t, cur, t.Keys, index, at) && FirstLanded(cur, eps, ns, index, k)
    ensures at + ns[k] == index + Sum(ns[..k + 1]) && index + Sum(ns) == at + ns[k] + Sum(ns[k + 1..])
    ensures Fits(t1, index + Sum(ns))
    ensures whole == FillRest(t1, eps[k + 1..], at + ns[k], s1)
    ensures ChangedOnly(t, t1, t.Keys, index, at + ns[k]) && FirstLanded(t1, eps, ns, index, k + 1)
  {
    t1, s1 := FillNext(t, cur, eps, ns, index, k, at, s);
    FillEpisodesAt(whole, cur, eps, k, at, s, t1, s1, ns[k]);
  }

  /** Filling from episode `k` is filling it, then the episodes after it
      from its steps on. */
  lemma FillEpisodesAt<V>(whole: Result<Table<V>>, t: Table<V>, eps: seq<Entries<V>>, k: nat, index: int, steps: Option<int>,
                          t1: Table<V>, s1: Option<int>, n: int)
    requires k < |eps| && FillEpisode(t, eps[k], index, steps) == Ok((t1, s1)) && s1 == Some(n)
    requires whole == FillRest(t, eps[k..], index, steps)
    ensures whole == FillRest(t1, eps[k + 1..], index + n, s1)
  {
    assert eps[k..][0] == eps[k] && eps[k..][1..] == eps[k + 1..];
    FillEpisodesCons(t, eps[k..], index, steps, t1, s1, n);
  }

  /** Filling episodes is filling the first, then the rest after its steps. */
  lemma FillEpisodesCons<V>(t: Table<V>, eps: seq<Entries<V>>, index: int, steps: Option<int>, t1: Table<V>, s1: Option<int>, n: int)
    requires |eps| > 0 && FillEpisode(t, eps[0], index, steps) == Ok((t1, s1)) && s1 == Some(n)
    ensures FillEpisodes(t, eps, index, steps) == FillEpisodes(t1, eps[1..], index + n, s1)
  {
  }

  // ---------------------------------------------------------------------
  // The whole reader

  /** The item `Find` returns is one of the episode's items. */
  lemma {:induction false} FindAt<V>(ep: Entries<V>, key: string) returns (i: nat)
    requires Find(ep, key).Some?
    ensures i < |ep| && ep[i] == (key, Find(ep, key).value)
  {
    if ep[0].0 == key {
      i := 0;
    } else {
      var j := FindAt(ep[1..], key);
      i := j + 1;
    }
  }

  /** The episode `Group` returns is one of the stored items. */
  lemma {:induction false} GroupAt<V>(items: seq<(string, Entries<V>)>, key: string) returns (i: nat)
    requires Group(items, key).Some?
    ensures i < |items| && items[i] == (key, Group(items, key).value)
  {
    if items[0].0 == key {
      i := 0;
    } else {
      var j := GroupAt(items[1..], key);
      i := j + 1;
    }
  }

  /** An episode consistent with `n` steps has `n` actions, and its actions
      item is written. */
  lemma ActionsMatchSteps<V>(ep: Entries<V>, n: nat)
    requires ConsistentEpisode(ep, n) && ActionCount(ep).Ok?
    ensures ActionCount(ep) == Ok(n) && HasRows(ep)
  {
    var i := FindAt(ep, "actions");
    assert !ObservationLike(ep[i].0);
  }

  /** The table length is the sum of the stored episodes' action counts. */
  lemma {:induction false} TotalStepsCounts<V>(items: seq<(string, Entries<V>)>) returns (counts: seq<nat>)
    requires TotalSteps(items).Ok?
    ensures |counts| == |items| && Sum(counts) == TotalSteps(items).value
    ensures forall i :: 0 <= i < |items| ==> ActionCount(items[i].1) == Ok(counts[i])
  {
    if |items| == 0 {
      counts := [];
    } else {
      var rest := TotalStepsCounts(items[1..]);
      counts := [ActionCount(items[0].1).value] + rest;
      assert counts[1..] == rest;
      forall i | 0 < i < |items|
        ensures ActionCount(items[i].1) == Ok(counts[i])
      {
        assert items[i] == items[1..][i - 1];
      }
    }
  }

  /** The keys of the episode order are all different, since their numbers
      are. */
  lemma OrderKeysDistinct<V>(items: seq<(string, Entries<V>)>)
    requires EpisodeOrder(items).Ok?
    ensures var order := EpisodeOrder(items).value;
      forall j, k :: 0 <= j < k < |order| ==> order[j].1 != order[k].1
  {
    var order := EpisodeOrder(items).value;
    EpisodeOrderKeys(items);
    forall j, k | 0 <= j < k < |order|
      ensures order[j].1 != order[k].1
    {
      assert order[j].0 < order[k].0;
      assert EpisodeNumber(order[j].1) == Ok(order[j].0) && EpisodeNumber(order[k].1) == Ok(order[k].0);
    }
  }

  /** A stored episode consistent with `n` steps sits at a position whose
      action count is `n`. */
  lemma EpisodePosition<V>(items: seq<(string, Entries<V>)>, counts: seq<nat>, key: string, ep: Entries<V>, n: nat)
    returns (i: nat)
    requires |counts| == |items| && forall i :: 0 <= i < |items| ==> ActionCount(items[i].1) == Ok(counts[i])
    requires Group(items, key) == Some(ep) && ConsistentEpisode(ep, n)
    ensures i < |items| && items[i].0 == key && counts[i] == n && HasRows(ep)
  {
    i := GroupAt(items, key);
    ActionsMatchSteps(ep, n);
  }

  /** Episodes stored under different keys, each consistent with its step
      count, take at most the stored action counts together; each has its
      actions item written. */
  lemma DistinctKeysFit<V>(items: seq<(string, Entries<V>)>, counts: seq<nat>, keys: seq<string>,
                           eps: seq<Entries<V>>, ns: seq<nat>)
    requires |counts| == |items| && forall i :: 0 <= i < |items| ==> ActionCount(items[i].1) == Ok(counts[i])
    requires |keys| == |eps| == |ns|
    requires forall k :: 0 <= k < |keys| ==> Group(items, keys[k]) == Some(eps[k]) && ConsistentEpisode(eps[k], ns[k])
    requires forall j, k :: 0 <= j < k < |keys| ==> keys[j] != keys[k]
    ensures Sum(ns) <= Sum(counts)
    ensures forall k :: 0 <= k < |ns| ==> HasRows(eps[k])
  {
    var pos: seq<nat> := [];
    for k := 0 to |eps|
      invariant |pos| == k && InRange(pos, |items|)
      invariant forall j :: 0 <= j < k ==> items[pos[j]].0 == keys[j]
      invariant forall j :: 0 <= j < k ==> ns[j] == counts[pos[j]]
    {
      var i := EpisodePosition(items, counts, keys[k], eps[k], ns[k]);
      pos := pos + [i];
    }
    forall k | 0 <= k < |ns|
      ensures HasRows(eps[k])
    {
      var _ := EpisodePosition(items, counts, keys[k], eps[k], ns[k]);
    }
    assert Distinct(pos) by {
      forall j, k | 0 <= j < k < |pos|
        ensures pos[j] != pos[k]
      {
        assert items[pos[j]].0 != items[pos[k]].0;
      }
    }
    assert ns == Pick(counts, pos);
    SumPickDistinct(counts, pos);
  }

  /** The ordered episodes are different stored items, since their numbers
      differ, so their steps add up to at most the table length; each has
      its actions item written. */
  lemma OrderedStepsFit<V>(items: seq<(string, Entries<V>)>, ns: seq<nat>)
    requires TotalSteps(items).Ok? && OrderedEpisodes(items).Ok?
    requires |ns| == |OrderedEpisodes(items).value|
    requires forall k :: 0 <= k < |ns| ==> ConsistentEpisode(OrderedEpisodes(items).value[k], ns[k])
    ensures Sum(ns) <= TotalSteps(items).value
    ensures forall k :: 0 <= k < |ns| ==> HasRows(OrderedEpisodes(items).value[k])
  {
    var order := EpisodeOrder(items).value;
    var keys := seq(|order|, k requires 0 <= k < |order| => order[k].1);
    var counts := TotalStepsCounts(items);
    OrderKeysDistinct(items);
    DistinctKeysFit(items, counts, keys, OrderedEpisodes(items).value, ns);
  }

  /** The table the corrected reader fills: the first episode's zero rows,
      as long as the total action count, with the ordered episodes written
      into it from row 0. */
  lemma PreprocessStart<V>(items: seq<(string, Entries<V>)>, zero: V, flag: Cell<V> -> bool) returns (t0: Table<V>)
    requires Preprocess(items, zero, flag).Ok?
    ensures var r := Preprocess(items, zero, flag).value;
      FillEpisodes(t0, OrderedEpisodes(items).value, 0, None) == Ok(r.table)
      && t0.Keys == r.table.Keys && forall c :: c in t0 ==> |t0[c]| == r.total
  {
    var order := EpisodeOrder(items).value;
    var total := TotalSteps(items).value;
    var tr: Result<map<ColKey, Cell<V>>> := if |items| == 0 then Ok(map[]) else Template(items[0].1, zero, map[]);
    assert Layout(items, order, zero, flag).Ok? && tr.Ok?;
    t0 := InitialTable(tr.value, total);
    FillEpisodesShape(t0, OrderedEpisodes(items).value, 0, None);
  }

  /** Ready episodes filled from row 0 of a table long enough for all of
      them land one after the other. */
  lemma FilledFromStart<V>(t0: Table<V>, eps: seq<Entries<V>>, ns: seq<nat>, table: Table<V>)
    requires FillEpisodes(t0, eps, 0, None) == Ok(table)
    requires AllReady(eps, ns, t0.Keys) && Fits(t0, Sum(ns))
    ensures LandedAt(table, eps, ns, 0)
  {
    ReadyIffWellFormed(eps, ns, t0.Keys);
    FillEpisodesEffect(t0, eps, ns, 0, None);
    LaidOutIndexed(table, eps, ns, 0);
  }

  /** The corrected reader writes every stored episode: in ascending episode
      number, the episode numbered `order[k].0` lands at the sum of the steps
      of the episodes with smaller numbers, whenever each episode is
      consistent with its step count, renames no two items alike and writes
      only columns of the first episode. */
  lemma PreprocessLaysOutEpisodes<V>(items: seq<(string, Entries<V>)>, zero: V, flag: Cell<V> -> bool, ns: seq<nat>)
    requires Preprocess(items, zero, flag).Ok?
    requires |ns| == |OrderedEpisodes(items).value|
    requires forall k :: 0 <= k < |ns| ==>
      var ep := OrderedEpisodes(items).value[k];
      ConsistentEpisode(ep, ns[k]) && DistinctNames(ep) && EpisodeColumns(ep) <= Preprocess(items, zero, flag).value.table.Keys
    ensures Sum(ns) <= Preprocess(items, zero, flag).value.total
    ensures LandedAt(Preprocess(items, zero, flag).value.table, OrderedEpisodes(items).value, ns, 0)
  {
    var r := Preprocess(items, zero, flag).value;
    var eps := OrderedEpisodes(items).value;
    var t0 := PreprocessStart(items, zero, flag);
    OrderedStepsFit(items, ns);
    assert AllReady(eps, ns, t0.Keys) by {
      forall j | 0 <= j < |eps|
        ensures ReadyAt(eps, ns, t0.Keys, j)
      {
      }
    }
    FilledFromStart(t0, eps, ns, r.table);
  }

  // ---------------------------------------------------------------------
  // Two one-step episodes

  /** A one-step episode taking action `a`, terminated and not truncated. */
  function OneStep(a: int): Entries<int>
  {
    [("actions", Rows([a])), ("terminations", Rows([1])), ("truncations", Rows([0]))]
  }

  function TwoEpisodes(): seq<(string, Entries<int>)>
  {
    [("episode_0", OneStep(5)), ("episode_1", OneStep(7))]
  }

  function IsSet(c: Cell<int>): bool
  {
    c.v != 0
  }

  lemma OneStepWellFormed(a: int, keys: set<ColKey>)
    requires {Top("action"), Next("terminated"), Next("truncated")} <= keys
    ensures ConsistentEpisode(OneStep(a), 1) && DistinctNames(OneStep(a)) && HasRows(OneStep(a))
    ensures EpisodeColumns(OneStep(a)) <= keys
  {
    var ep := OneStep(a);
    assert ep[0].1.Rows?;
    var e1 := ep[1..];
    var e2 := e1[1..];
    assert e2[1..] == [];
    assert ColumnsOf("actions") == {Top("action")};
    assert ColumnsOf("terminations") == {Next("terminated")};
    assert ColumnsOf("truncations") == {Next("truncated")};
    assert EpisodeColumns(e2) == {Next("truncated")};
    assert EpisodeColumns(e1) == {Next("terminated"), Next("truncated")};
    assert EpisodeColumns(ep) == {Top("action"), Next("terminated"), Next("truncated")};
  }

  function TwoStepTemplate(): map<ColKey, Cell<int>>
  {
    map[Top("action") := Plain(0), Next("terminated") := Unsqueezed(0), Next("truncated") := Unsqueezed(0)]
  }

  /** The two one-step episodes make a table of two steps. */
  lemma TwoEpisodesTotal()
    ensures TotalSteps(TwoEpisodes()) == Ok(2)
  {
    var items := TwoEpisodes();
    assert ActionCount(items[0].1) == Ok(1);
    assert ActionCount(items[1].1) == Ok(1);
    assert items[1..][1..] == [];
    assert TotalSteps(items[1..]) == Ok(1);
  }

  /** One written item of the structure pass that is neither
      observation-like nor reward-like adds its top-level zero row. */
  lemma TemplateTopStep<V>(key: string, rows: seq<V>, rest: Entries<V>, zero: V, acc: map<ColKey, Cell<V>>)
    requires !ObservationLike(key) && !NextOnly(key) && |rows| > 0
    ensures Template([(key, Rows(rows))] + rest, zero, acc) == Template(rest, zero, acc[Top(NameMatch(key)) := Plain(zero)])
  {
    assert ([(key, Rows(rows))] + rest)[1..] == rest;
  }

  /** One written reward-like item of the structure pass adds its
      unsqueezed zero row under `"next"`. */
  lemma TemplateNextStep<V>(key: string, rows: seq<V>, rest: Entries<V>, zero: V, acc: map<ColKey, Cell<V>>)
    requires NextOnly(key) && |rows| > 0
    ensures Template([(key, Rows(rows))] + rest, zero, acc) == Template(rest, zero, acc[Next(NameMatch(key)) := Unsqueezed(zero)])
  {
    assert ([(key, Rows(rows))] + rest)[1..] == rest;
  }

  /** The structure pass over a one-step episode defines the action column
      and the two flag columns. */
  lemma OneStepTemplate()
    ensures Template(OneStep(5), 0, map[]) == Ok(TwoStepTemplate())
  {
    var m1: map<ColKey, Cell<int>> := map[Top("action") := Plain(0)];
    var m2 := m1[Next("terminated") := Unsqueezed(0)];
    var m3 := m2[Next("truncated") := Unsqueezed(0)];
    var tail: Entries<int> := [("truncations", Rows([0]))];
    assert OneStep(5) == [("actions", Rows([5]))] + ([("terminations", Rows([1]))] + tail);
    TemplateTopStep("actions", [5], [("terminations", Rows([1]))] + tail, 0, map[]);
    TemplateNextStep("terminations", [1], tail, 0, m1);
    TemplateNextStep("truncations", [0], [], 0, m2);
    assert tail == [("truncations", Rows([0]))] + [];
    assert Template([], 0, m3) == Ok(m3);
    assert m3 == TwoStepTemplate();
  }

  /** The zero-filled table of two steps both readers start from. */
  lemma TwoEpisodesStart()
    ensures TotalSteps(TwoEpisodes()) == Ok(2)
    ensures Template(TwoEpisodes()[0].1, 0, map[]) == Ok(TwoStepTemplate())
    ensures var t0 := InitialTable(TwoStepTemplate(), 2);
      && t0.Keys == {Top("action"), Next("terminated"), Next("truncated")}
      && t0[Top("action")] == [Plain(0), Plain(0)] && Fits(t0, 2)
  {
    TwoEpisodesTotal();
    OneStepTemplate();
    assert TwoEpisodes()[0].1 == OneStep(5);
  }

  lemma EpisodeNumbersOfTwo()
    ensures EpisodeNumber("episode_0") == Ok(0) && EpisodeNumber("episode_1") == Ok(1)
  {
    EpisodeKeyRoundTrip(0);
    EpisodeKeyRoundTrip(1);
    assert "episode_" + Decimal(0) == "episode_0";
    assert "episode_" + Decimal(1) == "episode_1";
  }

  lemma TwoEpisodesOrder()
    ensures EpisodeOrder(TwoEpisodes()) == Ok([(0, "episode_0"), (1, "episode_1")])
  {
    EpisodeNumbersOfTwo();
    var items := TwoEpisodes();
    var init := items[..1];
    assert init[..0] == [];
    assert EpisodeOrder(init[..0]) == Ok([]);
    assert init[0].0 == "episode_0";
    assert EpisodeOrder(init) == Ok(Insert([], 0, "episode_0"));
    assert [(0, "episode_0")] + [] == [(0, "episode_0")];
    assert Insert([], 0, "episode_0") == [(0, "episode_0")];
    assert items[1].0 == "episode_1";
    assert EpisodeOrder(items) == Ok(Insert([(0, "episode_0")], 1, "episode_1"));
    var one: seq<(nat, string)> := [(0, "episode_0")];
    assert one[0].0 == 0 && one[1..] == [];
    assert Insert([], 1, "episode_1") == [(1, "episode_1")];
    assert Insert(one, 1, "episode_1") == [one[0]] + Insert(one[1..], 1, "episode_1");
    assert [(0, "episode_0")] + [(1, "episode_1")] == [(0, "episode_0"), (1, "episode_1")];
  }

  lemma TwoEpisodesOrderAsWritten()
    ensures EpisodeOrderAsWritten(TwoEpisodes()) == Ok([(0, "episode_0")])
  {
    EpisodeNumbersOfTwo();
  }

  lemma TwoEpisodesGroups()
    ensures Groups(TwoEpisodes(), [(0, "episode_0"), (1, "episode_1")]) == Ok([OneStep(5), OneStep(7)])
    ensures Groups(TwoEpisodes(), [(0, "episode_0")]) == Ok([OneStep(5)])
  {
    var items := TwoEpisodes();
    assert Group(items, "episode_0") == Some(OneStep(5));
    assert Group(items, "episode_1") == Some(OneStep(7));
    var order: seq<(nat, string)> := [(0, "episode_0"), (1, "episode_1")];
    var last: seq<(nat, string)> := [(1, "episode_1")];
    var first: seq<(nat, string)> := [(0, "episode_0")];
    assert order[1..] == last && last[1..] == [] && first[1..] == [];
    assert last[0].1 == "episode_1" && first[0].1 == "episode_0" && order[0].1 == "episode_0";
    assert Groups(items, []) == Ok([]);
    assert [OneStep(7)] + [] == [OneStep(7)] && [OneStep(5)] + [] == [OneStep(5)];
    assert Groups(items, last) == Ok([OneStep(7)]);
    assert Groups(items, first) == Ok([OneStep(5)]);
    assert [OneStep(5)] + [OneStep(7)] == [OneStep(5), OneStep(7)];
  }

  /** The action column holds `a` at row `off` once the action item landed there. */
  lemma ActionLanded(r: Table<int>, a: int, off: int)
    requires Landed(r, "actions", [a], off)
    ensures Top("action") in r && 0 <= off < |r[Top("action")]| && r[Top("action")][off] == Plain(a)
  {
    ActionWrites(a);
    var ws := EntryWrites("actions", [a]);
    assert ws[0].0 == Top("action") && ws[0].1[0] == Plain(a);
  }

  /** The `break` at the end of the structure pass leaves the second
      episode's row of the action column at zero, while the corrected reader
      writes its action there. */
  lemma OnlyFirstEpisodeWritten()
    ensures PreprocessAsWritten(TwoEpisodes(), 0, IsSet).Ok?
    ensures Top("action") in PreprocessAsWritten(TwoEpisodes(), 0, IsSet).value.table
    ensures PreprocessAsWritten(TwoEpisodes(), 0, IsSet).value.table[Top("action")] == [Plain(5), Plain(0)]
    ensures Preprocess(TwoEpisodes(), 0, IsSet).Ok?
    ensures Top("action") in Preprocess(TwoEpisodes(), 0, IsSet).value.table
    ensures Preprocess(TwoEpisodes(), 0, IsSet).value.table[Top("action")] == [Plain(5), Plain(7)]
  {
    TwoEpisodesStart();
    TwoEpisodesOrder();
    TwoEpisodesOrderAsWritten();
    TwoEpisodesGroups();
    var r1 := FirstEpisodeOnly();
    var r2 := BothEpisodes();
    var d1 := DoneColumn(r1, IsSet).value;
    var d2 := DoneColumn(r2, IsSet).value;
    assert PreprocessAsWritten(TwoEpisodes(), 0, IsSet) == Ok(Dataset(r1, d1, 2));
    assert Preprocess(TwoEpisodes(), 0, IsSet) == Ok(Dataset(r2, d2, 2));
  }

  lemma ActionWrites(a: int)
    ensures EntryWrites("actions", [a]) == [(Top("action"), [Plain(a)])]
  {
    assert NameMatch("actions") == "action";
    assert !ObservationLike("actions") && !NextOnly("actions");
    assert Wrap([a], false) == [Plain(a)];
  }

  lemma FirstEpisodeOnly() returns (r: Table<int>)
    ensures FillEpisodes(InitialTable(TwoStepTemplate(), 2), [OneStep(5)], 0, None) == Ok(r)
    ensures Top("action") in r && r[Top("action")] == [Plain(5), Plain(0)]
    ensures DoneColumn(r, IsSet).Ok?
  {
    TwoEpisodesStart();
    var t0 := InitialTable(TwoStepTemplate(), 2);
    var ns: seq<nat> := [1];
    assert Sum(ns) == 1;
    OneStepEpisodeWellFormed(5, t0.Keys);
    FillEpisodesEffect(t0, [OneStep(5)], ns, 0, None);
    r := FillEpisodes(t0, [OneStep(5)], 0, None).value;
    assert EpisodeLanded(r, OneStep(5), 0);
    assert OneStep(5)[0] == ("actions", Rows([5]));
    ActionLanded(r, 5, 0);
    var col := r[Top("action")];
    assert col[1] == t0[Top("action")][1] == Plain(0);
    ColumnOfTwo(col, Plain(5), Plain(0));
    DoneColumnOfShape(t0, r);
  }

  lemma BothEpisodes() returns (r: Table<int>)
    ensures FillEpisodes(InitialTable(TwoStepTemplate(), 2), [OneStep(5), OneStep(7)], 0, None) == Ok(r)
    ensures Top("action") in r && r[Top("action")] == [Plain(5), Plain(7)]
    ensures DoneColumn(r, IsSet).Ok?
  {
    TwoEpisodesStart();
    var t0 := InitialTable(TwoStepTemplate(), 2);
    var eps := [OneStep(5), OneStep(7)];
    var ns: seq<nat> := [1, 1];
    assert Sum(ns) == 2;
    OneStepEpisodesWellFormed(5, 7, t0.Keys);
    FillEpisodesEffect(t0, eps, ns, 0, None);
    r := FillEpisodes(t0, eps, 0, None).value;
    assert EpisodeLanded(r, eps[0], 0);
    assert LaidOut(r, eps[1..], ns[1..], 1);
    assert EpisodeLanded(r, eps[1..][0], 1);
    assert OneStep(5)[0] == ("actions", Rows([5]));
    assert OneStep(7)[0] == ("actions", Rows([7]));
    ActionLanded(r, 5, 0);
    ActionLanded(r, 7, 1);
    ColumnOfTwo(r[Top("action")], Plain(5), Plain(7));
    DoneColumnOfShape(t0, r);
  }

  lemma OneStepEpisodeWellFormed(a: int, keys: set<ColKey>)
    requires {Top("action"), Next("terminated"), Next("truncated")} <= keys
    ensures WellFormedEpisodes([OneStep(a)], [1], keys)
  {
    OneStepWellFormed(a, keys);
  }

  lemma OneStepEpisodesWellFormed(a: int, b: int, keys: set<ColKey>)
    requires {Top("action"), Next("terminated"), Next("truncated")} <= keys
    ensures WellFormedEpisodes([OneStep(a), OneStep(b)], [1, 1], keys)
  {
    OneStepWellFormed(a, keys);
    OneStepWellFormed(b, keys);
  }

  lemma ColumnOfTwo<T>(col: seq<T>, x: T, y: T)
    requires |col| == 2 && col[0] == x && col[1] == y
    ensures col == [x, y]
  {
  }

  /** The start table has done flags of equal length, and so has any table
      of its shape. */
  lemma DoneColumnOfShape(t0: Table<int>, r: Table<int>)
    requires t0 == InitialTable(TwoStepTemplate(), 2)
    requires t0.Keys == {Top("action"), Next("terminated"), Next("truncated")} && Fits(t0, 2)
    requires SameShape(t0, r)
    ensures DoneColumn(r, IsSet).Ok?
  {
    assert |t0[Next("terminated")]| == 2 == |t0[Next("truncated")]|;
  }
}
