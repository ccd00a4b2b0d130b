/** The index logic of the one-hot and masked categorical distributions:
    parameter squeezing, the threshold selection of `rand_one_hot`, the
    one-hot of the maxima that is `mode`, and the dense and sparse masks of
    `MaskedCategorical` with the remapping of sparse samples and the
    lookup of their log-probabilities.  Sampling, softmax, logarithms and
    normalisation stay outside: the draws, the threshold and the
    log-probabilities of the base distribution are parameters. */
module Discrete {
  import opened Wrappers
  import opened Seqs

  // ---------------------------------------------------------------------
  // Parameter squeezing

  /** A tensor as its shape and its entries in row-major order. */
  datatype Shaped<T> = Shaped(shape: seq<nat>, data: seq<T>)

  function Product(shape: seq<nat>): nat
  {
    if |shape| == 0 then 1 else Product(shape[..|shape| - 1]) * shape[|shape| - 1]
  }

  /** `_treat_categorical_params`: a trailing dimension of size one is
      dropped (`params[..., 0]`); a zero-dimensional tensor has no
      `shape[-1]`. */
  function TreatParams<T>(params: Option<Shaped<T>>): (r: Result<Option<Shaped<T>>>)
    ensures params.None? ==> r == Ok(None)
    ensures params.Some? && |params.value.shape| == 0 ==> r == Err(IndexError)
    ensures r.Ok? && params.Some? ==>
      && r.value.Some?
      && r.value.value.data == params.value.data
      && var s := params.value.shape;
         r.value.value.shape == if s[|s| - 1] == 1 then s[..|s| - 1] else s
  {
    match params
    case None => Ok(None)
    case Some(p) =>
      if |p.shape| == 0 then Err(IndexError)
      else if p.shape[|p.shape| - 1] == 1 then Ok(Some(Shaped(p.shape[..|p.shape| - 1], p.data)))
      else Ok(Some(p))
  }

  /** Squeezing never changes the number of entries, so a well-formed
      tensor stays well formed. */
  lemma TreatParamsKeepsSize<T>(p: Shaped<T>)
    requires |p.data| == Product(p.shape)
    requires TreatParams(Some(p)).Ok?
    ensures var q := TreatParams(Some(p)).value.value;
      |q.data| == Product(q.shape) && Product(q.shape) == Product(p.shape)
  {
  }

  /** The only change is the removal of a unit trailing dimension: a
      tensor whose last dimension is not one comes back unchanged. */
  lemma TreatParamsIdentity<T>(p: Shaped<T>)
    requires |p.shape| > 0 && p.shape[|p.shape| - 1] != 1
    ensures TreatParams(Some(p)) == Ok(Some(p))
  {
  }

  // ---------------------------------------------------------------------
  // rand_one_hot

  /** The sum of the first `n` weights (`cumsum(-1)[n - 1]`). */
  function PrefixSum(v: seq<real>, n: nat): real
    requires n <= |v|
  {
    if n == 0 then 0.0 else PrefixSum(v, n - 1) + v[n - 1]
  }

  /** `values.cumsum(-1) > u`. */
  function Exceeds(v: seq<real>, u: real): (r: seq<bool>)
    ensures |r| == |v|
    ensures forall i :: 0 <= i < |v| ==> (r[i] <==> PrefixSum(v, i + 1) > u)
  {
    seq(|v|, i requires 0 <= i < |v| => PrefixSum(v, i + 1) > u)
  }

  /** The selection of `rand_one_hot` for the threshold `u` that the source
      draws uniformly: position `i` is set when exactly one of the first
      `i + 1` prefix sums exceeds `u` (`(out.cumsum(-1) == 1)`). */
  function RandOneHot(v: seq<real>, u: real): (r: seq<bool>)
    ensures |r| == |v|
  {
    var ex := Exceeds(v, u);
    seq(|v|, i requires 0 <= i < |v| => Count(ex[..i + 1], true) == 1)
  }

  /** The first index whose prefix sum exceeds `u`, searching from `i`. */
  function FirstAboveFrom(v: seq<real>, u: real, i: nat): (r: Option<nat>)
    requires i <= |v|
    ensures r.Some? ==> i <= r.value < |v| && PrefixSum(v, r.value + 1) > u
    ensures r.Some? ==> forall n :: i < n <= r.value ==> PrefixSum(v, n) <= u
    ensures r.None? ==> forall n :: i < n <= |v| ==> PrefixSum(v, n) <= u
    decreases |v| - i
  {
    if i == |v| then None
    else if PrefixSum(v, i + 1) > u then Some(i)
    else FirstAboveFrom(v, u, i + 1)
  }

  /** The reference for `rand_one_hot`: the first index whose prefix sum
      exceeds the threshold. */
  function FirstAbove(v: seq<real>, u: real): Option<nat>
  {
    FirstAboveFrom(v, u, 0)
  }

  predicate NonNegative(v: seq<real>)
  {
    forall i :: 0 <= i < |v| ==> v[i] >= 0.0
  }

  lemma {:induction false} PrefixSumMonotone(v: seq<real>, m: nat, n: nat)
    requires NonNegative(v) && m <= n <= |v|
    ensures PrefixSum(v, m) <= PrefixSum(v, n)
    decreases n - m
  {
    if m < n {
      PrefixSumMonotone(v, m, n - 1);
    }
  }

  /** Before the first exceeding prefix sum the count is zero; from it on
      the count is the number of positions since. */
  lemma {:induction false} ExceedCount(v: seq<real>, u: real, n: nat)
    requires NonNegative(v) && n <= |v|
    ensures var ex := Exceeds(v, u);
      match FirstAbove(v, u)
      case None => Count(ex[..n], true) == 0
      case Some(f) => Count(ex[..n], true) == if n <= f then 0 else n - f
  {
    var ex := Exceeds(v, u);
    if n > 0 {
      ExceedCount(v, u, n - 1);
      assert ex[..n] == ex[..n - 1] + [ex[n - 1]];
      CountAppend(ex[..n - 1], [ex[n - 1]], true);
      match FirstAbove(v, u)
      case None =>
      case Some(f) =>
        if n - 1 >= f {
          PrefixSumMonotone(v, f + 1, n);
        }
    } else {
      assert ex[..0] == [];
    }
  }

  /** On non-negative weights (what the softmax produces) `rand_one_hot`
      is the one-hot of the first index whose prefix sum exceeds the
      threshold, and all zeros when no prefix sum does. */
  lemma RandOneHotIsFirstAbove(v: seq<real>, u: real)
    requires NonNegative(v)
    ensures forall i :: 0 <= i < |v| ==> (RandOneHot(v, u)[i] <==> FirstAbove(v, u) == Some(i))
  {
    forall i | 0 <= i < |v|
      ensures RandOneHot(v, u)[i] <==> FirstAbove(v, u) == Some(i)
    {
      ExceedCount(v, u, i + 1);
    }
  }

  /** The weights need to be non-negative: with a negative weight the
      prefix sums can fall back below the threshold and rise again, and two
      positions are set. */
  lemma RandOneHotNeedsNonNegative()
    ensures RandOneHot([1.0, -1.0, 1.0], 0.5) == [true, true, false]
  {
    ExceedsExample();
    OneHotOfRisingMask([1.0, -1.0, 1.0], 0.5);
  }

  /** Weights whose prefix sums exceed the threshold, fall back, and exceed
      it again select both the first and the second position. */
  lemma OneHotOfRisingMask(v: seq<real>, u: real)
    requires Exceeds(v, u) == [true, false, true]
    ensures RandOneHot(v, u) == [true, true, false]
  {
    var ex := Exceeds(v, u);
    assert ex[..1] == [true];
    assert ex[..2] == [true, false];
    assert ex[..3] == [true, false, true];
    CountExample();
    var r := RandOneHot(v, u);
    assert |r| == 3;
    assert r[0] == (Count(ex[..1], true) == 1);
    assert r[1] == (Count(ex[..2], true) == 1);
    assert r[2] == (Count(ex[..3], true) == 1);
  }

  lemma ExceedsExample()
    ensures Exceeds([1.0, -1.0, 1.0], 0.5) == [true, false, true]
  {
    var v := [1.0, -1.0, 1.0];
    assert PrefixSum(v, 1) == 1.0 && PrefixSum(v, 2) == 0.0 && PrefixSum(v, 3) == 1.0;
  }

  lemma CountExample()
    ensures Count([true], true) == 1
    ensures Count([true, false], true) == 1
    ensures Count([true, false, true], true) == 2
  {
    assert [true, false][1..] == [false];
    assert [true, false, true][1..] == [false, true];
    assert [false, true][1..] == [true];
  }

  // ---------------------------------------------------------------------
  // mode

  /** The largest entry of a nonempty row. */
  function Max(s: seq<real>): (m: real)
    requires |s| > 0
    ensures forall i :: 0 <= i < |s| ==> s[i] <= m
    ensures exists i :: 0 <= i < |s| && s[i] == m
  {
    if |s| == 1 then s[0]
    else
      var rest := Max(s[1..]);
      assert forall i :: 1 <= i < |s| ==> s[i] == s[1..][i - 1];
      if s[0] >= rest then s[0] else rest
  }

  /** `(x == x.max(-1, True)[0])`, and the reduction over an empty last
      dimension raises. */
  function AtMax(x: seq<real>): (r: Result<seq<bool>>)
    ensures r.Ok? <==> |x| > 0
    ensures r.Ok? ==> |r.value| == |x|
    ensures r.Ok? ==> forall i :: 0 <= i < |x| ==> (r.value[i] <==> forall j :: 0 <= j < |x| ==> x[j] <= x[i])
    ensures r.Err? ==> r.error == IndexError
  {
    if |x| == 0 then Err(IndexError)
    else
      var m := Max(x);
      Ok(seq(|x|, i requires 0 <= i < |x| => x[i] == m))
  }

  /** `OneHotCategorical.mode`: the distribution always has `logits` (they
      are computed from `probs` on demand), so the logits branch is the one
      taken. */
  function Mode(logits: seq<real>): Result<seq<bool>>
  {
    AtMax(logits)
  }

  /** The one-hot of the maxima has at least one set position, and exactly
      one when the maximum is attained once. */
  lemma {:induction false} AtMaxCount(x: seq<real>)
    requires |x| > 0
    ensures Count(AtMax(x).value, true) >= 1
    ensures (forall i, j :: 0 <= i < j < |x| ==> x[i] != x[j]) ==> Count(AtMax(x).value, true) == 1
  {
    var r := AtMax(x).value;
    var k :| 0 <= k < |x| && x[k] == Max(x);
    assert r[k];
    if forall i, j :: 0 <= i < j < |x| ==> x[i] != x[j] {
      forall i | 0 <= i < |r| && i != k ensures !r[i] {
        if i < k { assert x[i] != x[k]; } else { assert x[k] != x[i]; }
      }
    }
    CountSingle(r, k);
  }

  /** A row with position `k` set counts at least one set position, and
      exactly one when no other position is set. */
  lemma CountSingle(r: seq<bool>, k: nat)
    requires k < |r| && r[k]
    ensures Count(r, true) >= 1
    ensures (forall i :: 0 <= i < |r| && i != k ==> !r[i]) ==> Count(r, true) == 1
  {
    assert r == r[..k] + [true] + r[k + 1..];
    CountAppend(r[..k] + [true], r[k + 1..], true);
    CountAppend(r[..k], [true], true);
    if forall i :: 0 <= i < |r| && i != k ==> !r[i] {
      var before, after := r[..k], r[k + 1..];
      forall i | 0 <= i < |before| ensures before[i] == false {
        assert before[i] == r[i];
      }
      forall i | 0 <= i < |after| ensures after[i] == false {
        assert after[i] == r[k + 1 + i];
      }
      CountAbsent(before, true);
      CountAbsent(after, true);
    }
  }

  // ---------------------------------------------------------------------
  // Masks

  /** A mask tensor: Boolean for a dense mask, integer indices for a
      sparse one. */
  datatype MaskTensor = BoolMask(keep: seq<bool>) | IndexMask(idx: seq<int>)

  /** `torch.where(mask, x, fill)` on one row, broadcasting a single-entry
      mask or row against the other. */
  function Where<T>(keep: seq<bool>, x: seq<T>, fill: T): (r: Result<seq<T>>)
    ensures r.Ok? <==> |keep| == |x| || |keep| == 1 || |x| == 1
    ensures r.Err? ==> r.error == RuntimeError
    ensures |keep| == |x| ==>
      (r.Ok? && |r.value| == |x| && forall i :: 0 <= i < |x| ==> r.value[i] == if keep[i] then x[i] else fill)
  {
    if |keep| == |x| then Ok(seq(|x|, i requires 0 <= i < |x| => if keep[i] then x[i] else fill))
    else if |keep| == 1 then Ok(seq(|x|, i requires 0 <= i < |x| => if keep[0] then x[i] else fill))
    else if |x| == 1 then Ok(seq(|keep|, i requires 0 <= i < |keep| => if keep[i] then x[0] else fill))
    else Err(RuntimeError)
  }

  /** `x.gather(-1, idx)` on one row: every index must address an entry. */
  function Gather<T>(x: seq<T>, idx: seq<int>): (r: Result<seq<T>>)
    ensures r.Ok? <==> forall k :: 0 <= k < |idx| ==> 0 <= idx[k] < |x|
    ensures r.Err? ==> r.error == RuntimeError
    ensures r.Ok? ==> |r.value| == |idx| && forall k :: 0 <= k < |idx| ==> r.value[k] == x[idx[k]]
  {
    if forall k :: 0 <= k < |idx| ==> 0 <= idx[k] < |x| then
      Ok(seq(|idx|, k requires 0 <= k < |idx| => x[idx[k]]))
    else Err(RuntimeError)
  }

  /** `mask == padding_value`, all false without a padding value. */
  function PaddingAt(idx: seq<int>, padding: Option<int>): (r: seq<bool>)
    ensures |r| == |idx|
    ensures forall k :: 0 <= k < |idx| ==> (r[k] <==> padding.Some? && idx[k] == padding.value)
  {
    seq(|idx|, k requires 0 <= k < |idx| => padding.Some? && idx[k] == padding.value)
  }

  /** The shared body of `_mask_logits` and `_mask_probs`, which differ only
      in `fill` (`neg_inf` for logits, `0.0` for probabilities).  A sparse
      mask gathers the listed entries; padding positions are remapped to
      index 0 before the gather when the padding value is not 0, and filled
      afterwards. */
  function ApplyMask<T>(x: seq<T>, mask: Option<MaskTensor>, sparse: bool, padding: Option<int>, fill: T): (r: Result<seq<T>>)
    ensures mask.None? ==> r == Ok(x)
    ensures mask.Some? && !sparse && mask.value.BoolMask? && |mask.value.keep| == |x| ==>
      r.Ok? && |r.value| == |x|
      && forall i :: 0 <= i < |x| ==> r.value[i] == if mask.value.keep[i] then x[i] else fill
    ensures mask.Some? && sparse && mask.value.IndexMask? ==>
      var idx := mask.value.idx;
      var pad := PaddingAt(idx, padding);
      && (r.Ok? <==> forall k :: 0 <= k < |idx| ==> if pad[k] then |x| > 0 else 0 <= idx[k] < |x|)
      && (r.Ok? ==>
            (|r.value| == |idx| && forall k :: 0 <= k < |idx| ==> r.value[k] == if pad[k] then fill else x[idx[k]]))
    ensures mask.Some? && (sparse != mask.value.IndexMask?) ==> r == Err(RuntimeError)
  {
    match mask
    case None => Ok(x)
    case Some(BoolMask(keep)) =>
      if sparse then Err(RuntimeError) else Where(keep, x, fill)
    case Some(IndexMask(idx)) =>
      if !sparse then Err(RuntimeError)
      else
        var pad := PaddingAt(idx, padding);
        var idx' := if padding.Some? && padding.value != 0
                    then seq(|idx|, k requires 0 <= k < |idx| => if pad[k] then 0 else idx[k])
                    else idx;
        assert forall k :: 0 <= k < |idx| ==> idx'[k] == if pad[k] then 0 else idx[k];
        var g :- Gather(x, idx');
        Ok(seq(|idx|, k requires 0 <= k < |idx| => if pad[k] then fill else g[k]))
  }

  /** Masking commutes with an entry-wise map `f`, when the fill is mapped
      too: the same cases succeed, and the masked row of `f(x)` is `f` of
      the masked row of `x`. */
  lemma ApplyMaskMap<T, U>(x: seq<T>, y: seq<U>, f: T -> U, mask: Option<MaskTensor>, sparse: bool,
                           padding: Option<int>, fill: T)
    requires |y| == |x| && forall i :: 0 <= i < |x| ==> y[i] == f(x[i])
    ensures var a, b := ApplyMask(x, mask, sparse, padding, fill), ApplyMask(y, mask, sparse, padding, f(fill));
      && (a.Ok? <==> b.Ok?)
      && (a.Err? ==> a.error == b.error)
      && (a.Ok? ==> |b.value| == |a.value| && forall i :: 0 <= i < |a.value| ==> b.value[i] == f(a.value[i]))
  {
    match mask
    case None =>
    case Some(BoolMask(keep)) =>
      if !sparse {
        WhereMap(keep, x, y, f, fill);
      }
    case Some(IndexMask(idx)) =>
  }

  lemma WhereMap<T, U>(keep: seq<bool>, x: seq<T>, y: seq<U>, f: T -> U, fill: T)
    requires |y| == |x| && forall i :: 0 <= i < |x| ==> y[i] == f(x[i])
    ensures var a, b := Where(keep, x, fill), Where(keep, y, f(fill));
      && (a.Ok? <==> b.Ok?)
      && (a.Err? ==> a.error == b.error)
      && (a.Ok? ==> |b.value| == |a.value| && forall i :: 0 <= i < |a.value| ==> b.value[i] == f(a.value[i]))
  {
  }

  function MaskLogits<T>(logits: seq<T>, mask: Option<MaskTensor>, negInf: T, sparse: bool, padding: Option<int>): Result<seq<T>>
  {
    ApplyMask(logits, mask, sparse, padding, negInf)
  }

  function MaskProbs(probs: seq<real>, mask: Option<MaskTensor>, sparse: bool, padding: Option<int>): Result<seq<real>>
  {
    ApplyMask(probs, mask, sparse, padding, 0.0)
  }

  /** A dense mask applied twice is applied once. */
  lemma DenseMaskIdempotent<T>(x: seq<T>, keep: seq<bool>, fill: T)
    requires |keep| == |x|
    ensures var once := ApplyMask(x, Some(BoolMask(keep)), false, None, fill).value;
      ApplyMask(once, Some(BoolMask(keep)), false, None, fill) == Ok(once)
  {
    var once := ApplyMask(x, Some(BoolMask(keep)), false, None, fill).value;
    var twice := ApplyMask(once, Some(BoolMask(keep)), false, None, fill).value;
    assert twice == once;
  }

  /** An all-true dense mask leaves the row alone. */
  lemma DenseMaskAllTrue<T>(x: seq<T>, fill: T)
    ensures ApplyMask(x, Some(BoolMask(Repeat(true, |x|))), false, None, fill) == Ok(x)
  {
    assert ApplyMask(x, Some(BoolMask(Repeat(true, |x|))), false, None, fill).value == x;
  }

  /** The positions a dense mask keeps, ascending. */
  function KeptFrom(keep: seq<bool>, i: nat): (r: seq<int>)
    requires i <= |keep|
    ensures forall k :: 0 <= k < |r| ==> i <= r[k] < |keep| && keep[r[k]]
    decreases |keep| - i
  {
    if i == |keep| then []
    else (if keep[i] then [i] else []) + KeptFrom(keep, i + 1)
  }

  function Kept(keep: seq<bool>): seq<int>
  {
    KeptFrom(keep, 0)
  }

  lemma {:induction false} GatherKeptFrom<T>(x: seq<T>, keep: seq<bool>, i: nat)
    requires |keep| == |x| && i <= |x|
    ensures Gather(x, KeptFrom(keep, i)) == Ok(Select(x[i..], keep[i..]))
    decreases |x| - i
  {
    if i < |x| {
      GatherKeptFrom(x, keep, i + 1);
      var g := Select(x[i + 1..], keep[i + 1..]);
      assert x[i..][1..] == x[i + 1..] && keep[i..][1..] == keep[i + 1..];
      assert Select(x[i..], keep[i..]) == (if keep[i] then [x[i]] else []) + g;
      var r := Gather(x, KeptFrom(keep, i));
      assert r.Ok?;
      assert r.value == (if keep[i] then [x[i]] else []) + g;
    } else {
      assert x[i..] == [] && keep[i..] == [];
    }
  }

  /** A sparse mask listing the positions a dense mask keeps selects
      exactly the entries the dense mask keeps, in order: the sparse form
      is the compressed dense form. */
  lemma SparseIsCompressedDense<T>(x: seq<T>, keep: seq<bool>, fill: T)
    requires |keep| == |x|
    ensures ApplyMask(x, Some(IndexMask(Kept(keep))), true, None, fill) == Ok(Select(x, keep))
  {
    GatherKeptFrom(x, keep, 0);
    assert x[0..] == x && keep[0..] == keep;
    var idx := Kept(keep);
    var g := Gather(x, idx).value;
    var r := ApplyMask(x, Some(IndexMask(idx)), true, None, fill);
    assert forall k :: 0 <= k < |idx| ==> !PaddingAt(idx, None)[k];
    assert r.Ok?;
    assert r.value == g;
  }

  /** Dense masking keeps every entry the mask selects. */
  lemma DenseKeepsKept<T>(x: seq<T>, keep: seq<bool>, fill: T)
    requires |keep| == |x|
    ensures Select(ApplyMask(x, Some(BoolMask(keep)), false, None, fill).value, keep) == Select(x, keep)
  {
    var y := ApplyMask(x, Some(BoolMask(keep)), false, None, fill).value;
    SelectKeepsKept(x, y, keep);
  }

  /** Rows that agree wherever the mask is set select the same entries. */
  lemma {:induction false} SelectKeepsKept<T>(x: seq<T>, y: seq<T>, keep: seq<bool>)
    requires |x| == |y| == |keep|
    requires forall i :: 0 <= i < |x| && keep[i] ==> x[i] == y[i]
    ensures Select(y, keep) == Select(x, keep)
  {
    if |x| > 0 {
      SelectKeepsKept(x[1..], y[1..], keep[1..]);
    }
  }

  // ---------------------------------------------------------------------
  // The masked distribution

  /** A `MaskedCategorical` after construction: the masked logits, the mask
      and whether it is sparse, the fill value and the padding value. */
  datatype MaskedCategorical<T> = MaskedCategorical(
    logits: seq<T>, mask: Option<MaskTensor>, sparse: bool, negInf: T, padding: Option<int>)

  /** `MaskedCategorical.__init__`: exactly one of `probs` and `logits`;
      masked probabilities are turned into logits by `log`. */
  function NewMaskedCategorical(probs: Option<seq<real>>, logits: Option<seq<real>>, mask: Option<MaskTensor>,
                                negInf: real, sparseMask: bool, padding: Option<int>,
                                log: real -> real): (r: Result<MaskedCategorical<real>>)
    ensures probs.Some? == logits.Some? ==> r == Err(ValueError)
    ensures logits.Some? && probs.None? ==> (r.Ok? <==> MaskLogits(logits.value, mask, negInf, sparseMask, padding).Ok?)
    ensures probs.Some? && logits.None? ==> (r.Ok? <==> MaskProbs(probs.value, mask, sparseMask, padding).Ok?)
    ensures r.Err? && probs.Some? != logits.Some? ==> r.error == RuntimeError
    ensures r.Ok? ==> && r.value.sparse == (mask.Some? && sparseMask) && r.value.mask == mask
                      && r.value.negInf == negInf && r.value.padding == padding
    ensures r.Ok? && logits.Some? ==> MaskLogits(logits.value, mask, negInf, sparseMask, padding) == Ok(r.value.logits)
    ensures r.Ok? && probs.Some? ==>
              var p := MaskProbs(probs.value, mask, sparseMask, padding).value;
              |r.value.logits| == |p| && forall i :: 0 <= i < |p| ==> r.value.logits[i] == log(p[i])
  {
    if probs.Some? == logits.Some? then Err(ValueError)
    else
      var l :- if logits.None?
               then (var p :- MaskProbs(probs.value, mask, sparseMask, padding);
                     Ok(seq(|p|, i requires 0 <= i < |p| => log(p[i]))))
               else MaskLogits(logits.value, mask, negInf, sparseMask, padding);
      Ok(MaskedCategorical(l, mask, mask.Some? && sparseMask, negInf, padding))
  }

  /** The two ways of constructing agree: probabilities give the same
      distribution as their logarithms given as logits, provided `log`
      sends the masked probability 0 to `neg_inf` (as it does for the
      default `-inf`). */
  lemma ProbsAgreeWithLogits(p: seq<real>, l: seq<real>, mask: Option<MaskTensor>, negInf: real,
                             sparseMask: bool, padding: Option<int>, log: real -> real)
    requires log(0.0) == negInf
    requires |l| == |p| && forall i :: 0 <= i < |p| ==> l[i] == log(p[i])
    ensures NewMaskedCategorical(Some(p), None, mask, negInf, sparseMask, padding, log)
            == NewMaskedCategorical(None, Some(l), mask, negInf, sparseMask, padding, log)
  {
    ApplyMaskMap(p, l, log, mask, sparseMask, padding, 0.0);
    var a := NewMaskedCategorical(Some(p), None, mask, negInf, sparseMask, padding, log);
    var b := NewMaskedCategorical(None, Some(l), mask, negInf, sparseMask, padding, log);
    if a.Ok? {
      assert a.value.logits == b.value.logits;
    }
  }

  /** `MaskedCategorical.sample` for one mask row: the base distribution
      draws positions of the compressed row, and a sparse mask maps each
      drawn position `j` back to the index `mask[j]`. */
  function SparseSample<T>(d: MaskedCategorical<T>, draws: seq<int>): (r: Result<seq<int>>)
    requires d.sparse ==> d.mask.Some?
    ensures !d.sparse ==> r == Ok(draws)
    ensures d.sparse && d.mask.value.IndexMask? ==>
      var idx := d.mask.value.idx;
      && (r.Ok? <==> forall t :: 0 <= t < |draws| ==> 0 <= draws[t] < |idx|)
      && (r.Ok? ==> |r.value| == |draws| && forall t :: 0 <= t < |draws| ==> r.value[t] == idx[draws[t]])
  {
    if !d.sparse then Ok(draws)
    else
      match d.mask.value
      case BoolMask(_) => Err(RuntimeError)
      case IndexMask(idx) => Gather(idx, draws)
  }

  /** Every sparse sample is one of the listed indices. */
  lemma SparseSampleInMask<T>(d: MaskedCategorical<T>, draws: seq<int>)
    requires d.sparse && d.mask.Some? && d.mask.value.IndexMask?
    requires SparseSample(d, draws).Ok?
    ensures forall t :: 0 <= t < |draws| ==> SparseSample(d, draws).value[t] in d.mask.value.idx
  {
  }

  /** The first position of `v` in `idx`: what `argmax` of the match row
      returns. */
  function FirstMatch(idx: seq<int>, v: int): (r: Option<nat>)
    ensures r.Some? ==> r.value < |idx| && idx[r.value] == v && forall k :: 0 <= k < r.value ==> idx[k] != v
    ensures r.None? ==> forall k :: 0 <= k < |idx| ==> idx[k] != v
  {
    if |idx| == 0 then None
    else if idx[0] == v then Some(0)
    else match FirstMatch(idx[1..], v)
      case None => None
      case Some(k) => Some(k + 1)
  }

  /** `MaskedCategorical.log_prob` of one value for one mask row: with a
      sparse mask the value is looked up among the listed indices, the base
      log-probability `lp` of its first position is taken, and a value not
      listed gets `neg_inf` (`argmax` of an all-false row is position 0,
      whose entry is then overwritten). An empty index list cannot be
      viewed as `(1, -1, 0)`, whose free dimension is ambiguous for zero
      elements, so it raises RuntimeError. */
  function SparseLogProb<T>(d: MaskedCategorical<T>, lp: seq<T>, v: int): (r: Result<T>)
    requires d.sparse && d.mask.Some? && d.mask.value.IndexMask?
    requires |lp| == |d.mask.value.idx|
    ensures var idx := d.mask.value.idx;
      && (r.Ok? <==> |idx| > 0)
      && (r.Err? ==> r.error == RuntimeError)
      && (r.Ok? ==> match FirstMatch(idx, v)
                    case None => r.value == d.negInf
                    case Some(k) => r.value == lp[k])
  {
    var idx := d.mask.value.idx;
    if |idx| == 0 then Err(RuntimeError)
    else
      var k := match FirstMatch(idx, v) case None => 0 case Some(k) => k;
      var base := lp[k];
      if FirstMatch(idx, v).None? then Ok(d.negInf) else Ok(base)
  }

  /** Sampling and scoring agree: when the listed indices are distinct,
      the log-probability of a sample drawn at position `j` is the base
      log-probability of position `j`. */
  lemma SampleLogProbRoundTrip<T>(d: MaskedCategorical<T>, lp: seq<T>, j: int)
    requires d.sparse && d.mask.Some? && d.mask.value.IndexMask?
    requires |lp| == |d.mask.value.idx|
    requires forall a, b :: 0 <= a < b < |d.mask.value.idx| ==> d.mask.value.idx[a] != d.mask.value.idx[b]
    requires 0 <= j < |d.mask.value.idx|
    ensures SparseSample(d, [j]).Ok?
    ensures SparseLogProb(d, lp, SparseSample(d, [j]).value[0]) == Ok(lp[j])
  {
    var idx := d.mask.value.idx;
    var v := SparseSample(d, [j]).value[0];
    assert v == idx[j];
    match FirstMatch(idx, v)
    case None =>
    case Some(k) =>
      assert k == j;
  }

  /** A value outside the mask scores `neg_inf`. */
  lemma SparseLogProbAbsent<T>(d: MaskedCategorical<T>, lp: seq<T>, v: int)
    requires d.sparse && d.mask.Some? && d.mask.value.IndexMask?
    requires |lp| == |d.mask.value.idx| > 0
    requires v !in d.mask.value.idx
    ensures SparseLogProb(d, lp, v) == Ok(d.negInf)
  {
    var idx := d.mask.value.idx;
    assert forall k :: 0 <= k < |idx| ==> idx[k] != v;
  }
}
