/** `_make_collector` (torchrl/collectors/helpers.py): distributing
    environment constructors and their keyword arguments over collectors.
    The model stops at the per-collector chunk lists and the choice between
    a direct single-environment constructor and a parallel environment. */
module CollectorHelpers {
  import opened Wrappers
  import opened Seqs

  // ---------------------------------------------------------------------
  // Python integer and list primitives

  /** Python `a // b`: division rounding toward negative infinity. */
  function FloorDiv(a: int, b: int): (q: int)
    requires b != 0
    ensures b > 0 ==> b * q <= a < b * q + b
    ensures b < 0 ==> b * q + b < a <= b * q
  {
    if b > 0 || a % b == 0 then a / b else a / b - 1
  }

  /** `-(a // -b)` is the ceiling of `a / b` for a positive `b`. */
  lemma NegFloorDivIsCeil(a: nat, b: nat)
    requires b > 0
    ensures -FloorDiv(a, -(b as int)) == CeilDiv(a, b)
  {
    var c := -FloorDiv(a, -(b as int));
    assert c * b >= a;
    assert c * b < a + b;
    assert c >= 0;
    CeilDivUnique(a, b, c);
  }

  lemma CeilWhenPositive(a: nat, b: int)
    requires b != 0
    ensures b > 0 ==> -FloorDiv(a, -b) == CeilDiv(a, b)
  {
    if b > 0 {
      NegFloorDivIsCeil(a, b);
    }
  }

  /** Python `range(start, stop, step)`. */
  function PyRange(start: int, stop: int, step: int): seq<int>
    requires step != 0
    decreases if step > 0 then stop - start else start - stop
  {
    if (step > 0 && start >= stop) || (step < 0 && start <= stop) then []
    else [start] + PyRange(start + step, stop, step)
  }

  /** `[s[i:i + per] for i in starts]`. */
  function SlicesAt<T>(s: seq<T>, starts: seq<int>, per: int): (r: seq<seq<T>>)
    ensures |r| == |starts|
  {
    if |starts| == 0 then [] else [PySlice(s, starts[0], starts[0] + per)] + SlicesAt(s, starts[1..], per)
  }

  /** `[s[i:i + per] for i in range(0, n, per)]`. */
  function PyChunks<T>(s: seq<T>, n: int, per: int): seq<seq<T>>
    requires per != 0
  {
    SlicesAt(s, PyRange(0, n, per), per)
  }

  lemma SlicesAtStep<T>(s: seq<T>, start: nat, per: nat)
    requires per >= 1 && start < |s|
    ensures SlicesAt(s, PyRange(start, |s|, per), per)
      == [s[start..start + Min(per, |s| - start)]] + SlicesAt(s, PyRange(start + per, |s|, per), per)
  {
    var next := PyRange(start + per, |s|, per);
    assert PySlice(s, start, start + per) == s[start..start + Min(per, |s| - start)];
    assert PyRange(start, |s|, per) == [start] + next;
    assert ([start] + next)[1..] == next;
  }

  /** One unfolding of `Chunks` on the suffix of `s` from `start`. */
  lemma ChunksAt<T>(s: seq<T>, start: nat, per: nat)
    requires per >= 1 && start < |s|
    ensures Chunks(s[start..], per)
      == [s[start..start + Min(per, |s| - start)]] + Chunks(s[start + Min(per, |s| - start)..], per)
  {
    var t, m := s[start..], Min(per, |s| - start);
    calc {
      Chunks(t, per);
    == { ChunksHead(t, per); }
      [t[..m]] + Chunks(t[m..], per);
    == { SliceOfSuffix(s, start, m); }
      [s[start..start + m]] + Chunks(s[start + m..], per);
    }
  }

  /** Cutting a suffix again, in the coordinates of the whole sequence. */
  lemma SliceOfSuffix<T>(s: seq<T>, start: nat, m: nat)
    requires start + m <= |s|
    ensures s[start..][..m] == s[start..start + m] && s[start..][m..] == s[start + m..]
  {
  }

  /** The first piece of a non-empty sequence. */
  lemma ChunksHead<T>(t: seq<T>, per: nat)
    requires per >= 1 && |t| > 0
    ensures Chunks(t, per) == [t[..Min(per, |t|)]] + Chunks(t[Min(per, |t|)..], per)
  {
  }

  lemma {:induction false} PyChunksFrom<T>(s: seq<T>, start: nat, per: nat)
    requires per >= 1 && start <= |s|
    ensures SlicesAt(s, PyRange(start, |s|, per), per) == Chunks(s[start..], per)
    decreases |s| - start
  {
    if start < |s| {
      PyChunksRest(s, start, per);
      PyChunksStep(s, start, per);
    }
  }

  /** One piece in front of the rest, on both sides. */
  lemma PyChunksStep<T>(s: seq<T>, start: nat, per: nat)
    requires per >= 1 && start < |s|
    requires SlicesAt(s, PyRange(start + per, |s|, per), per) == Chunks(s[start + Min(per, |s| - start)..], per)
    ensures SlicesAt(s, PyRange(start, |s|, per), per) == Chunks(s[start..], per)
  {
    var m := Min(per, |s| - start);
    calc {
      SlicesAt(s, PyRange(start, |s|, per), per);
    == { SlicesAtStep(s, start, per); }
      [s[start..start + m]] + SlicesAt(s, PyRange(start + per, |s|, per), per);
    ==
      [s[start..start + m]] + Chunks(s[start + m..], per);
    == { ChunksAt(s, start, per); }
      Chunks(s[start..], per);
    }
  }

  /** The pieces after the first one. */
  lemma {:induction false} PyChunksRest<T>(s: seq<T>, start: nat, per: nat)
    requires per >= 1 && start < |s|
    ensures SlicesAt(s, PyRange(start + per, |s|, per), per) == Chunks(s[start + Min(per, |s| - start)..], per)
    decreases |s| - start, 0
  {
    if start + per <= |s| {
      PyChunksFrom(s, start + per, per);
    } else {
      assert PyRange(start + per, |s|, per) == [];
      assert s[start + Min(per, |s| - start)..] == [];
    }
  }

  /** For a positive chunk size the comprehension cuts `s` into consecutive
      pieces of `per` elements, the last one possibly shorter. */
  lemma PyChunksAreChunks<T>(s: seq<T>, per: nat)
    requires per >= 1
    ensures PyChunks(s, |s|, per) == Chunks(s, per)
  {
    PyChunksFrom(s, 0, per);
    assert s[0..] == s;
  }

  // ---------------------------------------------------------------------
  // Collector sizing

  /** The `env_fns` argument: a list of constructors or one constructor. */
  datatype EnvFns<F> = FnList(fns: seq<F>) | OneFn(fn: F)

  /** The `env_kwargs` argument: `None`, a list, or one keyword dictionary. */
  datatype EnvKwargs<K> = NoKwargs | KwList(kws: seq<K>) | OneKw(kw: K)

  /** Number of environments, environments per collector, number of
      collectors, and the constructor list after replication. */
  datatype Sizes<F> = Sizes(numEnv: int, per: int, numCollectors: int, fns: seq<F>)

  /** Lines 152-167: resolve the three counts from the ones given. */
  function Sizing<F>(envFns: EnvFns<F>, per: Option<int>, nc: Option<int>): (r: Result<Sizes<F>>)
    ensures envFns.FnList? && r.Ok? ==>
      r.value.numEnv == |envFns.fns| && r.value.fns == envFns.fns
    ensures envFns.FnList? && per.None? && nc.Some? && nc.value > 0 ==>
      r == Ok(Sizes(|envFns.fns|, CeilDiv(|envFns.fns|, nc.value), nc.value, envFns.fns))
    ensures envFns.FnList? && per.Some? && per.value > 0 && nc.None? ==>
      r == Ok(Sizes(|envFns.fns|, per.value, CeilDiv(|envFns.fns|, per.value), envFns.fns))
    ensures envFns.FnList? && per.Some? && nc.Some? ==>
      (r.Ok? <==> per.value * nc.value >= |envFns.fns|)
    ensures envFns.FnList? && per.None? && nc.None? ==> r == Err(TypeError)
    ensures envFns.OneFn? ==> (r.Ok? <==> per.Some? && nc.Some?)
    ensures envFns.OneFn? && r.Ok? ==>
      && r.value.numEnv == per.value * nc.value
      && r.value.fns == Repeat(envFns.fn, if r.value.numEnv < 0 then 0 else r.value.numEnv)
    ensures r.Ok? ==> (per.Some? ==> r.value.per == per.value) && (nc.Some? ==> r.value.numCollectors == nc.value)
  {
    match envFns
    case FnList(fns) =>
      var numEnv := |fns|;
      if per.None? then
        if nc.None? then Err(TypeError)
        else if nc.value == 0 then Err(ZeroDivisionError)
        else
          CeilWhenPositive(numEnv, nc.value);
          Ok(Sizes(numEnv, -FloorDiv(numEnv, -nc.value), nc.value, fns))
      else if nc.None? then
        if per.value == 0 then Err(ZeroDivisionError)
        else
          CeilWhenPositive(numEnv, per.value);
          Ok(Sizes(numEnv, per.value, -FloorDiv(numEnv, -per.value), fns))
      else if per.value * nc.value >= numEnv then Ok(Sizes(numEnv, per.value, nc.value, fns))
      else Err(AssertionError)
    case OneFn(fn) =>
      if per.None? || nc.None? then Err(GenericException)
      else
        var numEnv := per.value * nc.value;
        Ok(Sizes(numEnv, per.value, nc.value, Repeat(fn, if numEnv < 0 then 0 else numEnv)))
  }

  /** Lines 150-151 and 168-169: `None` becomes `{}`, and a single dictionary
      is replicated once per environment (`range(num_env)`). */
  function KwargsList<K>(envKwargs: EnvKwargs<K>, empty: K, numEnv: int): (r: seq<K>)
    ensures envKwargs.KwList? ==> r == envKwargs.kws
    ensures envKwargs.NoKwargs? ==> r == Repeat(empty, if numEnv < 0 then 0 else numEnv)
    ensures envKwargs.OneKw? ==> r == Repeat(envKwargs.kw, if numEnv < 0 then 0 else numEnv)
  {
    var n: nat := if numEnv < 0 then 0 else numEnv;
    match envKwargs
    case KwList(kws) => kws
    case NoKwargs => seq(n, _ => empty)
    case OneKw(kw) => seq(n, _ => kw)
  }

  /** What `_make_collector` hands to the collector class. */
  datatype CollectorPlan<F, K> = CollectorPlan(
    per: int,
    numCollectors: int,
    fnChunks: seq<seq<F>>,
    kwChunks: seq<seq<K>>,
    direct: bool)

  /** `_make_collector` up to the chunk lists (lines 150-180). */
  function MakeCollector<F, K>(envFns: EnvFns<F>, envKwargs: EnvKwargs<K>, empty: K,
                               per: Option<int>, nc: Option<int>): (r: Result<CollectorPlan<F, K>>)
    ensures r.Ok? ==> Sizing(envFns, per, nc).Ok?
    ensures r.Ok? ==> |r.value.fnChunks| == r.value.numCollectors
    ensures r.Ok? ==> (r.value.direct <==> r.value.per == 1)
    ensures Sizing(envFns, per, nc).Ok? && Sizing(envFns, per, nc).value.per >= 1 ==>
      var s := Sizing(envFns, per, nc).value;
      (r.Ok? <==> CeilDiv(|s.fns|, s.per) == s.numCollectors)
    ensures r.Ok? && r.value.per >= 1 ==>
      && Flatten(r.value.fnChunks) == Sizing(envFns, per, nc).value.fns
      && (forall k :: 0 <= k < |r.value.fnChunks| ==> 0 < |r.value.fnChunks[k]| <= r.value.per)
      && (forall k :: 0 <= k < |r.value.fnChunks| - 1 ==> |r.value.fnChunks[k]| == r.value.per)
    ensures r.Ok? && r.value.per >= 1 && !envKwargs.KwList? ==>
      Lengths(r.value.kwChunks) == Lengths(r.value.fnChunks)
  {
    var sizes :- Sizing(envFns, per, nc);
    var kws := KwargsList(envKwargs, empty, sizes.numEnv);
    if sizes.per == 0 then Err(ValueError)
    else
      var fnChunks := PyChunks(sizes.fns, sizes.numEnv, sizes.per);
      var kwChunks := PyChunks(kws, sizes.numEnv, sizes.per);
      MakeCollectorChunks(envFns, per, nc);
      KwargsChunks(envFns, envKwargs, empty, per, nc);
      if |fnChunks| != sizes.numCollectors then Err(AssertionError)
      else Ok(CollectorPlan(sizes.per, sizes.numCollectors, fnChunks, kwChunks, sizes.per == 1))
  }

  /** With a positive chunk size, the constructor list has `num_env`
      entries, so the comprehension is plain chunking. */
  lemma MakeCollectorChunks<F>(envFns: EnvFns<F>, per: Option<int>, nc: Option<int>)
    requires Sizing(envFns, per, nc).Ok?
    ensures var s := Sizing(envFns, per, nc).value;
      s.per >= 1 ==> PyChunks(s.fns, s.numEnv, s.per) == Chunks(s.fns, s.per)
    ensures var s := Sizing(envFns, per, nc).value;
      s.per >= 1 ==> |PyChunks(s.fns, s.numEnv, s.per)| == CeilDiv(|s.fns|, s.per)
  {
    var s := Sizing(envFns, per, nc).value;
    if s.per >= 1 {
      if s.numEnv < 0 {
        assert s.fns == [];
        assert PyRange(0, s.numEnv, s.per) == [];
      } else {
        assert |s.fns| == s.numEnv;
        PyChunksAreChunks(s.fns, s.per);
      }
      ChunksCount(s.fns, s.per);
    }
  }

  /** Five environments over four collectors: two per collector, which
      makes three chunks, so the chunk-count assertion fails. */
  lemma FiveEnvsOverFourCollectors(f: int)
    ensures Sizing(FnList([f, f, f, f, f]), None, Some(4)).value.per == 2
    ensures MakeCollector(FnList([f, f, f, f, f]), NoKwargs, 0, None, Some(4)) == Err(AssertionError)
  {
    var s := Sizing(FnList([f, f, f, f, f]), None, Some(4)).value;
    assert s.per == 2;
    ChunksCount(s.fns, 2);
    MakeCollectorChunks(FnList([f, f, f, f, f]), None, Some(4));
  }

  /** A replicated keyword dictionary is cut exactly like the constructors,
      so every constructor chunk has a keyword chunk of the same size. */
  lemma KwargsChunks<F, K>(envFns: EnvFns<F>, envKwargs: EnvKwargs<K>, empty: K,
                           per: Option<int>, nc: Option<int>)
    requires Sizing(envFns, per, nc).Ok?
    ensures var s := Sizing(envFns, per, nc).value;
      var kws := KwargsList(envKwargs, empty, s.numEnv);
      s.per >= 1 && !envKwargs.KwList? ==>
        Lengths(PyChunks(kws, s.numEnv, s.per)) == Lengths(PyChunks(s.fns, s.numEnv, s.per))
  {
    var s := Sizing(envFns, per, nc).value;
    var kws := KwargsList(envKwargs, empty, s.numEnv);
    if s.per >= 1 && !envKwargs.KwList? {
      MakeCollectorChunks(envFns, per, nc);
      if s.numEnv < 0 {
        assert PyRange(0, s.numEnv, s.per) == [];
      } else {
        PyChunksAreChunks(kws, s.per);
        ChunksSameShape(kws, s.fns, s.per);
      }
    }
  }

  // ---------------------------------------------------------------------
  // The environment constructors handed to the collector class

  /** What one constructor of the list builds when called: a single
      environment from the first entries of its chunks, or a parallel
      environment over the whole chunk. */
  datatype EnvBuild<F, K> =
    | Direct(fn: F, kw: K)
    | Parallel(numWorkers: nat, fns: seq<F>, kws: seq<K>)

  /** The constructor made from one pair of chunks; `Direct` reads the first
      entry of each, so both must be nonempty. */
  function BuildFrom<F, K>(direct: bool, fns: seq<F>, kws: seq<K>): (r: Result<EnvBuild<F, K>>)
    ensures !direct ==> r == Ok(Parallel(|fns|, fns, kws))
    ensures direct ==> (r.Ok? <==> |fns| > 0 && |kws| > 0)
    ensures direct && r.Ok? ==> r.value == Direct(fns[0], kws[0])
  {
    if !direct then Ok(Parallel(|fns|, fns, kws))
    else if |fns| == 0 || |kws| == 0 then Err(IndexError)
    else Ok(Direct(fns[0], kws[0]))
  }

  /** The number of constructors: `zip` stops at the shorter chunk list. */
  function PairCount<F, K>(plan: CollectorPlan<F, K>): nat
  {
    Min(|plan.fnChunks|, |plan.kwChunks|)
  }

  /** The constructor list as intended: constructor `k` builds from chunk
      pair `k`. */
  function CollectorEnvs<F, K>(plan: CollectorPlan<F, K>): (r: seq<Result<EnvBuild<F, K>>>)
    ensures |r| == PairCount(plan)
    ensures forall k :: 0 <= k < |r| ==> r[k] == BuildFrom(plan.direct, plan.fnChunks[k], plan.kwChunks[k])
  {
    seq(PairCount(plan), k requires 0 <= k < PairCount(plan) =>
      BuildFrom(plan.direct, plan.fnChunks[k], plan.kwChunks[k]))
  }

  /** The constructor list as written (lines 175-180): the lambdas read the
      comprehension variables `_env_fn, _env_kwargs` when they are called,
      after the comprehension has finished, so every one of them sees the
      last chunk pair. */
  function CollectorEnvsAsWritten<F, K>(plan: CollectorPlan<F, K>): (r: seq<Result<EnvBuild<F, K>>>)
    ensures |r| == PairCount(plan)
  {
    var n := PairCount(plan);
    seq(n, k requires 0 <= k < n => BuildFrom(plan.direct, plan.fnChunks[n - 1], plan.kwChunks[n - 1]))
  }

  /** As written, all constructors are the same constructor: the last one of
      the intended list. */
  lemma AsWrittenRepeatsLast<F, K>(plan: CollectorPlan<F, K>)
    ensures forall k :: 0 <= k < PairCount(plan) ==>
              CollectorEnvsAsWritten(plan)[k] == CollectorEnvs(plan)[PairCount(plan) - 1]
  {
  }

  /** The parallel workers of the intended constructors, in order. */
  function Workers<F, K>(bs: seq<Result<EnvBuild<F, K>>>): seq<F>
  {
    if |bs| == 0 then []
    else
      (match bs[0]
       case Ok(Parallel(_, fns, _)) => fns
       case Ok(Direct(fn, _)) => [fn]
       case Err(_) => [])
      + Workers(bs[1..])
  }

  lemma {:induction false} WorkersOfChunks<F, K>(bs: seq<Result<EnvBuild<F, K>>>, direct: bool,
                                                fnChunks: seq<seq<F>>, kwChunks: seq<seq<K>>)
    requires |bs| == |fnChunks| == |kwChunks|
    requires forall k :: 0 <= k < |bs| ==> bs[k] == BuildFrom(direct, fnChunks[k], kwChunks[k])
    requires forall k :: 0 <= k < |fnChunks| ==> |fnChunks[k]| > 0 && |kwChunks[k]| > 0
    requires direct ==> forall k :: 0 <= k < |fnChunks| ==> |fnChunks[k]| == 1
    ensures Workers(bs) == Flatten(fnChunks)
  {
    if |bs| > 0 {
      WorkersOfChunks(bs[1..], direct, fnChunks[1..], kwChunks[1..]);
      if direct {
        assert fnChunks[0] == [fnChunks[0][0]];
      }
    }
  }

  /** Chunk lists of one shape, each chunk nonempty and of one entry when
      the constructors are direct, give constructors whose workers are the
      environments in order. */
  lemma PlanWorkers<F, K>(plan: CollectorPlan<F, K>, fns: seq<F>)
    requires Flatten(plan.fnChunks) == fns
    requires forall k :: 0 <= k < |plan.fnChunks| ==> 0 < |plan.fnChunks[k]| <= plan.per
    requires Lengths(plan.kwChunks) == Lengths(plan.fnChunks)
    requires plan.direct ==> plan.per == 1
    ensures Workers(CollectorEnvs(plan)) == fns
  {
    assert |plan.kwChunks| == |plan.fnChunks| == PairCount(plan);
    forall k | 0 <= k < |plan.fnChunks|
      ensures |plan.kwChunks[k]| > 0
    {
      assert Lengths(plan.kwChunks)[k] == |plan.kwChunks[k]|;
      assert Lengths(plan.fnChunks)[k] == |plan.fnChunks[k]|;
    }
    WorkersOfChunks(CollectorEnvs(plan), plan.direct, plan.fnChunks, plan.kwChunks);
  }

  /** The intended constructors together start every listed environment
      exactly once, in order, when the keyword list is replicated. */
  lemma CollectorEnvsCoverEnvs<F, K>(envFns: EnvFns<F>, envKwargs: EnvKwargs<K>, empty: K,
                                     per: Option<int>, nc: Option<int>)
    requires MakeCollector(envFns, envKwargs, empty, per, nc).Ok?
    requires MakeCollector(envFns, envKwargs, empty, per, nc).value.per >= 1
    requires !envKwargs.KwList?
    ensures var plan := MakeCollector(envFns, envKwargs, empty, per, nc).value;
      Workers(CollectorEnvs(plan)) == Sizing(envFns, per, nc).value.fns
  {
    var plan := MakeCollector(envFns, envKwargs, empty, per, nc).value;
    PlanWorkers(plan, Sizing(envFns, per, nc).value.fns);
  }

  /** `_make_collector([f1, f2], num_collectors=2)` plans one constructor
      and one empty keyword dictionary per collector. */
  lemma TwoByTwoPlan()
    ensures var r := MakeCollector(FnList([1, 2]), NoKwargs, 0, None, Some(2));
      && r.Ok?
      && r.value.fnChunks == [[1], [2]]
      && r.value.kwChunks == [[0], [0]]
      && r.value.direct
  {
    var s := Sizing(FnList([1, 2]), None, Some(2)).value;
    assert s.per == 1 && s.numEnv == 2 && s.fns == [1, 2];
    MakeCollectorChunks(FnList([1, 2]), None, Some(2));
    PyChunksAreChunks(KwargsList(NoKwargs, 0, 2), 1);
    assert KwargsList(NoKwargs, 0, 2) == [0, 0];
    assert Flatten([[1], [2]]) == [1, 2] by {
      assert Flatten([[2]]) == [2] + Flatten([]);
    }
    FlattenUniform([[1], [2]], 1);
    assert Flatten([[0], [0]]) == [0, 0] by {
      assert Flatten([[0]]) == [0] + Flatten([]);
    }
    FlattenUniform([[0], [0]], 1);
  }

  /** Two environments over two collectors: the intended constructors build
      the first and the second environment, the written ones build the
      second twice. */
  lemma TwoCollectorsBuildLastTwice()
    ensures MakeCollector(FnList([1, 2]), NoKwargs, 0, None, Some(2)).Ok?
    ensures CollectorEnvs(MakeCollector(FnList([1, 2]), NoKwargs, 0, None, Some(2)).value)
            == [Ok(Direct(1, 0)), Ok(Direct(2, 0))]
    ensures CollectorEnvsAsWritten(MakeCollector(FnList([1, 2]), NoKwargs, 0, None, Some(2)).value)
            == [Ok(Direct(2, 0)), Ok(Direct(2, 0))]
  {
    TwoByTwoPlan();
    TwoChunkEnvs(MakeCollector(FnList([1, 2]), NoKwargs, 0, None, Some(2)).value);
  }

  lemma TwoChunkEnvs(plan: CollectorPlan<int, int>)
    requires plan.fnChunks == [[1], [2]] && plan.kwChunks == [[0], [0]] && plan.direct
    ensures CollectorEnvs(plan) == [Ok(Direct(1, 0)), Ok(Direct(2, 0))]
    ensures CollectorEnvsAsWritten(plan) == [Ok(Direct(2, 0)), Ok(Direct(2, 0))]
  {
    assert PairCount(plan) == 2;
    var envs, written := CollectorEnvs(plan), CollectorEnvsAsWritten(plan);
    assert envs[0] == Ok(Direct(1, 0)) && envs[1] == Ok(Direct(2, 0));
    assert written[0] == Ok(Direct(2, 0)) && written[1] == Ok(Direct(2, 0));
  }
}
