/** `split_trajectories` (torchrl/collectors/utils.py): a flat rollout whose
    transitions carry trajectory ids is cut into runs of equal ids, and the
    runs are stacked into a `[num_runs, longest_run]` table, zero-padded on
    the right, with a boolean validity mask. */
module Trajectories {
  import opened Wrappers
  import opened Seqs

  /** A rollout as handed to the splitter: a 1-D batch `[T]` or a 2-D batch
      `[B, T]`, each transition paired with its trajectory id. */
  datatype Rollout<T> =
    | Flat(steps: seq<T>, ids: seq<int>)
    | Batched(rows: seq<seq<T>>, rowIds: seq<seq<int>>)

  /** The split table: padded rows and the mask telling real entries from padding. */
  datatype Padded<T> = Padded(rows: seq<seq<T>>, mask: seq<seq<bool>>)

  /** Tensor shape discipline: ids and transitions have the same shape and a
      2-D batch is rectangular. */
  predicate WellShaped<T>(r: Rollout<T>)
  {
    match r
    case Flat(steps, ids) => |steps| == |ids|
    case Batched(rows, rowIds) =>
      && |rows| == |rowIds|
      && (forall i :: 0 <= i < |rows| ==> |rows[i]| == |rowIds[i]|)
      && (forall i :: 0 <= i < |rowIds| ==> |rowIds[i]| == |rowIds[0]|)
  }

  /** The transitions in row-major order (`view(-1)`). */
  function Items<T>(r: Rollout<T>): seq<T>
  {
    match r
    case Flat(steps, _) => steps
    case Batched(rows, _) => Flatten(rows)
  }

  /** The trajectory ids in row-major order (`traj_ids.view(-1)`). */
  function FlatIds<T>(r: Rollout<T>): seq<int>
  {
    match r
    case Flat(_, ids) => ids
    case Batched(_, rowIds) => Flatten(rowIds)
  }

  /** The size of the last (time) dimension, `traj_ids.shape[-1]`. */
  function TimeDim<T>(r: Rollout<T>): nat
  {
    match r
    case Flat(_, ids) => |ids|
    case Batched(_, rowIds) => if |rowIds| == 0 then 0 else |rowIds[0]|
  }

  lemma ItemsMatchIds<T>(r: Rollout<T>)
    requires WellShaped(r)
    ensures |Items(r)| == |FlatIds(r)|
  {
    if r.Batched? {
      FlattenLength(r.rows);
      FlattenLength(r.rowIds);
      assert Lengths(r.rows) == Lengths(r.rowIds);
    }
  }

  // ---------------------------------------------------------------------
  // Runs of equal ids

  /** Length of the maximal run of copies of `s[0]` at the head of `s`. */
  function LeadRun(s: seq<int>): (n: nat)
    requires |s| > 0
    ensures 1 <= n <= |s|
    ensures forall k :: 0 <= k < n ==> s[k] == s[0]
    ensures n < |s| ==> s[n] != s[0]
  {
    if |s| == 1 || s[1] != s[0] then 1 else 1 + LeadRun(s[1..])
  }

  /** `unique_consecutive`: one id per maximal run, in encounter order. */
  function UniqueConsecutive(s: seq<int>): seq<int>
    decreases |s|
  {
    if |s| == 0 then [] else [s[0]] + UniqueConsecutive(s[LeadRun(s)..])
  }

  /** Lengths of the maximal runs of equal ids, in encounter order. */
  function RunLengths(s: seq<int>): (r: seq<nat>)
    ensures |r| == |UniqueConsecutive(s)|
    ensures Sum(r) == |s|
    ensures forall k :: 0 <= k < |r| ==> r[k] >= 1
    decreases |s|
  {
    if |s| == 0 then [] else [LeadRun(s)] + RunLengths(s[LeadRun(s)..])
  }

  /** For each id of `u`, its number of occurrences in `s`. */
  function CountsOf(s: seq<int>, u: seq<int>): (r: seq<nat>)
    ensures |r| == |u|
    ensures forall k :: 0 <= k < |u| ==> r[k] == Count(s, u[k])
  {
    if |u| == 0 then [] else [Count(s, u[0])] + CountsOf(s, u[1..])
  }

  /** What the code computes as `splits`: for each consecutive-unique id,
      the number of occurrences of that id in the WHOLE sequence. */
  function Splits(s: seq<int>): (r: seq<nat>)
    ensures |r| == |UniqueConsecutive(s)|
  {
    CountsOf(s, UniqueConsecutive(s))
  }

  /** Every id occupies a single contiguous run: the id of the leading run
      never occurs again after it, and the same holds of what follows. */
  predicate Contiguous(s: seq<int>)
    decreases |s|
  {
    |s| == 0 || (s[0] !in s[LeadRun(s)..] && Contiguous(s[LeadRun(s)..]))
  }

  lemma {:induction false} UniqueConsecutiveFrom(s: seq<int>)
    ensures forall k :: 0 <= k < |UniqueConsecutive(s)| ==> UniqueConsecutive(s)[k] in s
    decreases |s|
  {
    if |s| > 0 {
      var rest := s[LeadRun(s)..];
      UniqueConsecutiveFrom(rest);
      forall k | 1 <= k < |UniqueConsecutive(s)|
        ensures UniqueConsecutive(s)[k] in s
      {
        assert UniqueConsecutive(s)[k] == UniqueConsecutive(rest)[k - 1];
      }
    }
  }

  /** The leading run and the rest of the ids, as a concatenation. */
  lemma LeadRunSplit(s: seq<int>)
    requires |s| > 0
    ensures s == s[..LeadRun(s)] + s[LeadRun(s)..]
    ensures s[..LeadRun(s)] == Repeat(s[0], LeadRun(s))
  {
    assert s == s[..LeadRun(s)] + s[LeadRun(s)..];
  }

  /** Counting an id over the whole sequence: the leading run contributes
      its length for the leading id and nothing for any other id. */
  lemma CountAcrossLeadRun(s: seq<int>, x: int)
    requires |s| > 0
    ensures Count(s, x) == (if x == s[0] then LeadRun(s) else 0) + Count(s[LeadRun(s)..], x)
  {
    var n := LeadRun(s);
    LeadRunSplit(s);
    CountAppend(s[..n], s[n..], x);
    if x == s[0] {
      CountRepeat(s[0], n);
    } else {
      CountAbsent(s[..n], x);
    }
  }

  /** Counting ids that all lie after the leading run, and differ from the
      leading id, gives the same counts in the rest alone. */
  lemma {:induction false} CountsOfRest(s: seq<int>, u: seq<int>)
    requires |s| > 0
    requires forall k :: 0 <= k < |u| ==> u[k] != s[0]
    ensures CountsOf(s, u) == CountsOf(s[LeadRun(s)..], u)
  {
    if |u| > 0 {
      CountAcrossLeadRun(s, u[0]);
      CountsOfRest(s, u[1..]);
    }
  }

  /** One step of the run decomposition of `splits`: when the leading id
      does not come back, its count is the run length and every later id
      is counted in the rest alone. */
  lemma SplitsStep(s: seq<int>)
    requires |s| > 0 && s[0] !in s[LeadRun(s)..]
    ensures Splits(s) == [LeadRun(s)] + Splits(s[LeadRun(s)..])
  {
    var rest := s[LeadRun(s)..];
    var ur := UniqueConsecutive(rest);
    var u := [s[0]] + ur;
    assert UniqueConsecutive(s) == u;
    assert u[1..] == ur;
    assert CountsOf(s, u) == [Count(s, s[0])] + CountsOf(s, ur);
    CountAcrossLeadRun(s, s[0]);
    CountAbsent(rest, s[0]);
    UniqueConsecutiveFrom(rest);
    CountsOfRest(s, ur);
    assert Splits(rest) == CountsOf(rest, ur);
    assert Count(s, s[0]) == LeadRun(s);
    assert Splits(s) == [Count(s, s[0])] + CountsOf(s, ur);
  }

  /** Under contiguity, counting all occurrences of an id measures its run:
      the code's `splits` are exactly the run lengths. */
  lemma {:induction false} SplitsAreRunLengths(s: seq<int>)
    requires Contiguous(s)
    ensures Splits(s) == RunLengths(s)
    decreases |s|
  {
    if |s| > 0 {
      SplitsAreRunLengths(s[LeadRun(s)..]);
      SplitsStep(s);
    }
  }

  // ---------------------------------------------------------------------
  // Splitting, padding and the mask

  /** `tensor.split(lens, 0)`: consecutive pieces of the given lengths. */
  function SplitBy<T>(items: seq<T>, lens: seq<nat>): (r: seq<seq<T>>)
    requires Sum(lens) == |items|
    ensures |r| == |lens|
    ensures forall k :: 0 <= k < |r| ==> |r[k]| == lens[k]
    ensures Flatten(r) == items
    decreases |lens|
  {
    if |lens| == 0 then []
    else
      SumNat(lens[1..]);
      assert items == items[..lens[0]] + items[lens[0]..];
      [items[..lens[0]]] + SplitBy(items[lens[0]..], lens[1..])
  }

  /** `max(*lens)`. */
  function MaxLen(lens: seq<nat>): (m: nat)
    requires |lens| > 0
    ensures forall k :: 0 <= k < |lens| ==> lens[k] <= m
    ensures exists k :: 0 <= k < |lens| && lens[k] == m
  {
    if |lens| == 1 then lens[0]
    else
      var m := MaxLen(lens[1..]);
      assert forall k :: 1 <= k < |lens| ==> lens[k] == lens[1..][k - 1];
      if lens[0] >= m then lens[0] else m
  }

  function PadRows<T>(chunks: seq<seq<T>>, width: nat, zero: T): (r: seq<seq<T>>)
    requires forall k :: 0 <= k < |chunks| ==> |chunks[k]| <= width
    ensures |r| == |chunks|
  {
    if |chunks| == 0 then []
    else [chunks[0] + Repeat(zero, width - |chunks[0]|)] + PadRows(chunks[1..], width, zero)
  }

  function MaskRows<T>(chunks: seq<seq<T>>, width: nat): (r: seq<seq<bool>>)
    requires forall k :: 0 <= k < |chunks| ==> |chunks[k]| <= width
    ensures |r| == |chunks|
  {
    if |chunks| == 0 then []
    else [Repeat(true, |chunks[0]|) + Repeat(false, width - |chunks[0]|)] + MaskRows(chunks[1..], width)
  }

  /** `stack([pad(c, [0, MAX - len(c)]) for c in chunks])` with a mask that
      was all-true before padding. */
  function PadStack<T>(chunks: seq<seq<T>>, zero: T): (p: Padded<T>)
    requires |chunks| > 0
    ensures |p.rows| == |p.mask| == |chunks|
    ensures forall i :: 0 <= i < |chunks| ==>
      |p.rows[i]| == |p.mask[i]| == MaxLen(Lengths(chunks))
    ensures forall i :: 0 <= i < |chunks| ==>
      |chunks[i]| <= |p.rows[i]| && p.rows[i][..|chunks[i]|] == chunks[i]
    ensures forall i, j :: 0 <= i < |chunks| && |chunks[i]| <= j < |p.rows[i]| ==> p.rows[i][j] == zero
    ensures forall i, j :: 0 <= i < |chunks| && 0 <= j < |p.mask[i]| ==> (p.mask[i][j] <==> j < |chunks[i]|)
  {
    var width := MaxLen(Lengths(chunks));
    var p := Padded(PadRows(chunks, width, zero), MaskRows(chunks, width));
    PadStackShape(chunks, width, zero);
    p
  }

  lemma {:induction false} PadStackShape<T>(chunks: seq<seq<T>>, width: nat, zero: T)
    requires forall k :: 0 <= k < |chunks| ==> |chunks[k]| <= width
    ensures forall i :: 0 <= i < |chunks| ==>
      |PadRows(chunks, width, zero)[i]| == |MaskRows(chunks, width)[i]| == width
    ensures forall i :: 0 <= i < |chunks| ==> PadRows(chunks, width, zero)[i][..|chunks[i]|] == chunks[i]
    ensures forall i, j :: 0 <= i < |chunks| && |chunks[i]| <= j < width ==>
      PadRows(chunks, width, zero)[i][j] == zero
    ensures forall i, j :: 0 <= i < |chunks| && 0 <= j < width ==>
      (MaskRows(chunks, width)[i][j] <==> j < |chunks[i]|)
  {
    if |chunks| > 0 {
      PadStackShape(chunks[1..], width, zero);
      forall i | 1 <= i < |chunks|
        ensures PadRows(chunks, width, zero)[i] == PadRows(chunks[1..], width, zero)[i - 1]
        ensures MaskRows(chunks, width)[i] == MaskRows(chunks[1..], width)[i - 1]
        ensures chunks[i] == chunks[1..][i - 1]
      {
      }
    }
  }

  /** Re-flattening by mask: the masked prefix of every row, concatenated. */
  function Unmask<T>(p: Padded<T>): seq<T>
    requires |p.rows| == |p.mask|
    requires forall i :: 0 <= i < |p.rows| ==> |p.rows[i]| == |p.mask[i]|
    decreases |p.rows|
  {
    if |p.rows| == 0 then []
    else Select(p.rows[0], p.mask[0]) + Unmask(Padded(p.rows[1..], p.mask[1..]))
  }

  /** `mask.sum()`. */
  function MaskTotal(mask: seq<seq<bool>>): nat
  {
    if |mask| == 0 then 0 else Count(mask[0], true) + MaskTotal(mask[1..])
  }

  lemma {:induction false} SelectPadded<T>(a: seq<T>, pad: seq<T>)
    ensures Select(a + pad, Repeat(true, |a|) + Repeat(false, |pad|)) == a
    ensures Count(Repeat(true, |a|) + Repeat(false, |pad|), true) == |a|
  {
    var m := Repeat(true, |a|) + Repeat(false, |pad|);
    if |a| == 0 {
      assert a + pad == pad;
      assert m == Repeat(false, |pad|);
      SelectNone(pad);
      CountAbsent(Repeat(false, |pad|), true);
    } else {
      assert (a + pad)[1..] == a[1..] + pad;
      assert m[1..] == Repeat(true, |a[1..]|) + Repeat(false, |pad|);
      SelectPadded(a[1..], pad);
    }
  }

  lemma {:induction false} PadStackUnmask<T>(chunks: seq<seq<T>>, width: nat, zero: T)
    requires forall k :: 0 <= k < |chunks| ==> |chunks[k]| <= width
    ensures forall i :: 0 <= i < |chunks| ==>
      |PadRows(chunks, width, zero)[i]| == |MaskRows(chunks, width)[i]|
    ensures Unmask(Padded(PadRows(chunks, width, zero), MaskRows(chunks, width))) == Flatten(chunks)
    ensures MaskTotal(MaskRows(chunks, width)) == |Flatten(chunks)|
  {
    PadStackShape(chunks, width, zero);
    if |chunks| > 0 {
      var c := chunks[0];
      SelectPadded(c, Repeat(zero, width - |c|));
      PadStackUnmask(chunks[1..], width, zero);
    }
  }

  lemma PadStackRecovers<T>(chunks: seq<seq<T>>, zero: T)
    requires |chunks| > 0
    ensures Recovers(PadStack(chunks, zero), Flatten(chunks))
  {
    PadStackUnmask(chunks, MaxLen(Lengths(chunks)), zero);
  }

  function TrueMasks<T>(rows: seq<seq<T>>): (m: seq<seq<bool>>)
    ensures |m| == |rows|
    ensures forall i :: 0 <= i < |rows| ==> m[i] == Repeat(true, |rows[i]|)
  {
    if |rows| == 0 then [] else [Repeat(true, |rows[0]|)] + TrueMasks(rows[1..])
  }

  /** The fast path: content unchanged, an all-true mask, a 1-D rollout
      unsqueezed to `[1, T]`. */
  function FastPath<T>(r: Rollout<T>): Padded<T>
  {
    match r
    case Flat(steps, _) => Padded([steps], [Repeat(true, |steps|)])
    case Batched(rows, _) => Padded(rows, TrueMasks(rows))
  }

  lemma {:induction false} TrueMasksUnmask<T>(rows: seq<seq<T>>)
    ensures Unmask(Padded(rows, TrueMasks(rows))) == Flatten(rows)
    ensures MaskTotal(TrueMasks(rows)) == |Flatten(rows)|
  {
    if |rows| > 0 {
      SelectPadded(rows[0], []);
      assert rows[0] + [] == rows[0];
      assert Repeat(true, |rows[0]|) + Repeat(false, 0) == Repeat(true, |rows[0]|);
      TrueMasksUnmask(rows[1..]);
    }
  }

  lemma FastPathUnmask<T>(r: Rollout<T>)
    ensures Recovers(FastPath(r), Items(r))
  {
    if r.Flat? {
      SelectPadded(r.steps, []);
      assert r.steps + [] == r.steps;
      assert Repeat(true, |r.steps|) + Repeat(false, 0) == Repeat(true, |r.steps|);
      assert Unmask(FastPath(r)) == r.steps + Unmask(Padded([], []));
    } else {
      TrueMasksUnmask(r.rows);
    }
  }

  /** The mask of `p` picks out exactly `items`, in order, and counts them. */
  ghost predicate Recovers<T>(p: Padded<T>, items: seq<T>)
  {
    && |p.rows| == |p.mask|
    && (forall i :: 0 <= i < |p.rows| ==> |p.rows[i]| == |p.mask[i]|)
    && Unmask(p) == items
    && MaskTotal(p.mask) == |items|
  }

  /** `len(set(splits)) == 1`. */
  predicate OneDistinct(s: seq<nat>)
  {
    |s| > 0 && forall k :: 0 <= k < |s| ==> s[k] == s[0]
  }

  predicate TakesFastPath<T>(r: Rollout<T>)
  {
    var splits := Splits(FlatIds(r));
    OneDistinct(splits) && splits[0] == TimeDim(r)
  }

  /** `split_trajectories`. Whatever path is taken, a successful result
      re-flattens by mask to the input transitions, and the mask counts them.
      `hasDone` says whether the rollout carries a top-level `"done"` entry,
      which the slow path reads from every piece (`_get_meta("done")`, a
      KeyError when absent) before taking the longest piece. */
  function Split<T>(r: Rollout<T>, zero: T, hasDone: bool): (res: Result<Padded<T>>)
    requires WellShaped(r)
    ensures res.Ok? ==> Recovers(res.value, Items(r))
    ensures res.Err? <==>
      !TakesFastPath(r) && (Sum(Splits(FlatIds(r))) != |FlatIds(r)| || |Splits(FlatIds(r))| < 2 || !hasDone)
    ensures res == Err(TypeError) <==>
      && !TakesFastPath(r) && Sum(Splits(FlatIds(r))) == |FlatIds(r)|
      && (|Splits(FlatIds(r))| == 0 || (|Splits(FlatIds(r))| == 1 && hasDone))
    ensures res == Err(KeyError) <==>
      !TakesFastPath(r) && Sum(Splits(FlatIds(r))) == |FlatIds(r)| && |Splits(FlatIds(r))| > 0 && !hasDone
  {
    var splits := Splits(FlatIds(r));
    ItemsMatchIds(r);
    if TakesFastPath(r) then
      FastPathUnmask(r);
      Ok(FastPath(r))
    else if Sum(splits) != |FlatIds(r)| then Err(RuntimeError)
    else if |splits| > 0 && !hasDone then Err(KeyError)
    else if |splits| < 2 then Err(TypeError)
    else
      var chunks := SplitBy(Items(r), splits);
      PadStackRecovers(chunks, zero);
      Ok(PadStack(chunks, zero))
  }

  // ---------------------------------------------------------------------
  // The split table is the table of maximal runs

  /** The maximal runs of the transitions, cut where the id changes. */
  function Runs<T>(r: Rollout<T>): seq<seq<T>>
    requires WellShaped(r)
  {
    ItemsMatchIds(r);
    SplitBy(Items(r), RunLengths(FlatIds(r)))
  }

  /** One unfolding of the runs: the leading run, then the runs of the rest. */
  lemma RunsStep(s: seq<int>)
    requires |s| > 0
    ensures RunLengths(s) == [LeadRun(s)] + RunLengths(s[LeadRun(s)..])
    ensures SplitBy(s, RunLengths(s)) == [s[..LeadRun(s)]] + SplitBy(s[LeadRun(s)..], RunLengths(s[LeadRun(s)..]))
    ensures UniqueConsecutive(s) == [s[0]] + UniqueConsecutive(s[LeadRun(s)..])
  {
    var lens := RunLengths(s);
    assert lens[1..] == RunLengths(s[LeadRun(s)..]);
    assert lens[0] == LeadRun(s);
  }

  /** The inductive step of RunsAreMaximal, over plain sequences: prepending
      one maximal run to a maximal run decomposition keeps it maximal. */
  lemma MaximalCons(x: int, n: nat, ur: seq<int>, lr: seq<nat>, pr: seq<seq<int>>)
    requires |lr| == |ur| == |pr|
    requires forall k :: 0 <= k < |pr| ==> pr[k] == Repeat(ur[k], lr[k])
    requires forall k :: 0 <= k < |ur| - 1 ==> ur[k] != ur[k + 1]
    requires |ur| > 0 ==> ur[0] != x
    ensures forall k :: 0 <= k < |pr| + 1 ==>
      ([Repeat(x, n)] + pr)[k] == Repeat(([x] + ur)[k], ([n] + lr)[k])
    ensures forall k :: 0 <= k < |ur| ==> ([x] + ur)[k] != ([x] + ur)[k + 1]
  {
    forall k | 0 <= k < |pr| + 1
      ensures ([Repeat(x, n)] + pr)[k] == Repeat(([x] + ur)[k], ([n] + lr)[k])
    {
      if k > 0 {
        assert ([Repeat(x, n)] + pr)[k] == pr[k - 1];
        assert ([x] + ur)[k] == ur[k - 1] && ([n] + lr)[k] == lr[k - 1];
      }
    }
    forall k | 0 <= k < |ur|
      ensures ([x] + ur)[k] != ([x] + ur)[k + 1]
    {
      assert ([x] + ur)[k + 1] == ur[k];
      if k > 0 { assert ([x] + ur)[k] == ur[k - 1]; }
    }
  }

  /** Each run of ids is a block of copies of one id, and neighbouring runs
      carry different ids: the runs are maximal. */
  lemma {:induction false} RunsAreMaximal(s: seq<int>)
    ensures forall k :: 0 <= k < |RunLengths(s)| ==>
      SplitBy(s, RunLengths(s))[k] == Repeat(UniqueConsecutive(s)[k], RunLengths(s)[k])
    ensures forall k :: 0 <= k < |UniqueConsecutive(s)| - 1 ==>
      UniqueConsecutive(s)[k] != UniqueConsecutive(s)[k + 1]
    decreases |s|
  {
    if |s| > 0 {
      var n := LeadRun(s);
      var rest := s[n..];
      RunsAreMaximal(rest);
      RunsStep(s);
      LeadRunSplit(s);
      var ur := UniqueConsecutive(rest);
      if |rest| > 0 {
        RunsStep(rest);
        assert ur[0] == rest[0] == s[n];
      }
      MaximalCons(s[0], n, ur, RunLengths(rest), SplitBy(rest, RunLengths(rest)));
    }
  }

  lemma {:induction false} SumConstant(s: seq<nat>, v: nat)
    requires forall k :: 0 <= k < |s| ==> s[k] == v
    ensures Sum(s) == |s| * v
  {
    if |s| > 0 {
      SumConstant(s[1..], v);
    }
  }

  lemma {:induction false} SplitByRows<T>(rows: seq<seq<T>>, w: nat)
    requires forall i :: 0 <= i < |rows| ==> |rows[i]| == w
    ensures Sum(Repeat(w, |rows|)) == |Flatten(rows)|
    ensures SplitBy(Flatten(rows), Repeat(w, |rows|)) == rows
  {
    SumConstant(Repeat(w, |rows|), w);
    FlattenLength(rows);
    SumConstant(Lengths(rows), w);
    if |rows| > 0 {
      SplitByRows(rows[1..], w);
      assert Repeat(w, |rows|)[1..] == Repeat(w, |rows[1..]|);
      assert Flatten(rows)[..w] == rows[0];
      assert Flatten(rows)[w..] == Flatten(rows[1..]);
    }
  }

  lemma {:induction false} PadStackNoPadding<T>(chunks: seq<seq<T>>, w: nat, zero: T)
    requires forall i :: 0 <= i < |chunks| ==> |chunks[i]| == w
    ensures PadRows(chunks, w, zero) == chunks
    ensures MaskRows(chunks, w) == TrueMasks(chunks)
  {
    if |chunks| > 0 {
      PadStackNoPadding(chunks[1..], w, zero);
      assert chunks[0] + Repeat(zero, 0) == chunks[0];
      assert Repeat(true, w) + Repeat(false, 0) == Repeat(true, w);
      assert chunks == [chunks[0]] + chunks[1..];
    }
  }

  lemma MaxLenConstant(lens: seq<nat>, w: nat)
    requires |lens| > 0
    requires forall k :: 0 <= k < |lens| ==> lens[k] == w
    ensures MaxLen(lens) == w
  {
  }

  lemma {:induction false} FastFlatIsOneRun<T>(steps: seq<T>, ids: seq<int>, zero: T)
    requires |steps| == |ids|
    requires Contiguous(ids)
    requires TakesFastPath(Flat(steps, ids))
    ensures Runs(Flat(steps, ids)) == [steps]
    ensures PadStack([steps], zero) == FastPath(Flat(steps, ids))
  {
    var lens := RunLengths(ids);
    SplitsAreRunLengths(ids);
    var t := |ids|;
    assert forall k :: 0 <= k < |lens| ==> lens[k] == t;
    SumConstant(lens, t);
    assert |lens| == 1;
    assert lens == Repeat(t, 1);
    SplitByRows([steps], t);
    assert Flatten([steps]) == steps;
    PadStackNoPadding([steps], t, zero);
    MaxLenConstant(Lengths([steps]), t);
  }

  lemma CancelFactor(a: nat, b: nat, t: nat)
    requires t >= 1 && a * t == b * t
    ensures a == b
  {
  }

  /** On the fast path of a 2-D batch, every run has the time length and
      there are as many runs as rows. */
  lemma FastRunCount(rowIds: seq<seq<int>>)
    requires |rowIds| > 0 ==> forall i :: 0 <= i < |rowIds| ==> |rowIds[i]| == |rowIds[0]|
    requires Contiguous(Flatten(rowIds))
    requires OneDistinct(Splits(Flatten(rowIds)))
    requires Splits(Flatten(rowIds))[0] == (if |rowIds| == 0 then 0 else |rowIds[0]|)
    ensures |rowIds| > 0 && |rowIds[0]| >= 1
    ensures forall k :: 0 <= k < |RunLengths(Flatten(rowIds))| ==>
      RunLengths(Flatten(rowIds))[k] == |rowIds[0]|
    ensures |RunLengths(Flatten(rowIds))| == |rowIds|
  {
    var lens := RunLengths(Flatten(rowIds));
    SplitsAreRunLengths(Flatten(rowIds));
    var t := lens[0];
    SumConstant(lens, t);
    FlattenLength(rowIds);
    SumConstant(Lengths(rowIds), t);
    CancelFactor(|lens|, |rowIds|, t);
  }

  lemma {:induction false} FastBatchedIsRows<T>(rows: seq<seq<T>>, rowIds: seq<seq<int>>, zero: T)
    requires WellShaped(Batched(rows, rowIds))
    requires Contiguous(Flatten(rowIds))
    requires TakesFastPath(Batched(rows, rowIds))
    ensures |rows| > 0
    ensures Runs(Batched(rows, rowIds)) == rows
    ensures PadStack(rows, zero) == FastPath(Batched(rows, rowIds))
  {
    var r := Batched(rows, rowIds);
    var lens := RunLengths(Flatten(rowIds));
    var t := TimeDim(r);
    FastRunCount(rowIds);
    assert lens == Repeat(t, |rows|);
    assert forall i :: 0 <= i < |rows| ==> |rows[i]| == t;
    SplitByRows(rows, t);
    PadStackNoPadding(rows, t, zero);
    MaxLenConstant(Lengths(rows), t);
  }

  /** On contiguous ids the code's table, from whichever path, is the table
      of maximal runs: row i is the i-th run followed by zero padding up to
      the longest run, and the fast path is only a shortcut to the same
      result. */
  lemma {:induction false} SplitFollowsRuns<T>(r: Rollout<T>, zero: T, hasDone: bool)
    requires WellShaped(r)
    requires Contiguous(FlatIds(r))
    requires Split(r, zero, hasDone).Ok?
    ensures |Runs(r)| > 0
    ensures Split(r, zero, hasDone).value == PadStack(Runs(r), zero)
  {
    SplitsAreRunLengths(FlatIds(r));
    if TakesFastPath(r) {
      match r
      case Flat(steps, ids) => FastFlatIsOneRun(steps, ids, zero);
      case Batched(rows, rowIds) => FastBatchedIsRows(rows, rowIds, zero);
    }
  }

  /** On contiguous ids the only failures are the single-run case off the
      fast path and the empty rollout, where `max(*[n])` receives fewer than
      two integers, and any non-empty rollout off the fast path without a
      `"done"` entry. */
  lemma {:induction false} SplitFailsOnlyOnSingleRun<T>(r: Rollout<T>, zero: T, hasDone: bool)
    requires WellShaped(r)
    requires Contiguous(FlatIds(r))
    ensures Split(r, zero, hasDone).Err? <==>
      || |FlatIds(r)| == 0
      || (|RunLengths(FlatIds(r))| == 1 && |FlatIds(r)| != TimeDim(r))
      || (!hasDone && !TakesFastPath(r))
    ensures Split(r, zero, hasDone).Err? ==>
      Split(r, zero, hasDone).error == if !hasDone && |FlatIds(r)| > 0 then KeyError else TypeError
  {
    var ids := FlatIds(r);
    var lens := RunLengths(ids);
    SplitsAreRunLengths(ids);
    if |lens| >= 2 {
      assert lens[0] >= 1 && lens[1] >= 1;
      assert Sum(lens) == lens[0] + Sum(lens[1..]);
      assert Sum(lens[1..]) == lens[1] + Sum(lens[2..]);
      SumNat(lens[2..]);
    }
  }

  /** A 2-D batch holding a single id in two rows: one run of length 4,
      the time dimension is 2, so the slow path is taken with one run; the
      missing `"done"` entry is noticed before `max`. */
  lemma SingleIdBatchFails()
    ensures Split(Batched([[10, 11], [12, 13]], [[7, 7], [7, 7]]), 0, true) == Err(TypeError)
    ensures Split(Batched([[10, 11], [12, 13]], [[7, 7], [7, 7]]), 0, false) == Err(KeyError)
  {
    var r: Rollout<int> := Batched([[10, 11], [12, 13]], [[7, 7], [7, 7]]);
    assert FlatIds(r) == [7, 7, 7, 7];
    assert Splits(FlatIds(r)) == [4];
  }
}
