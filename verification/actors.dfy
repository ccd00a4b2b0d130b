/** The key wiring and Q-value encoding of the probabilistic actors: the
    default keys of `Actor`, the output of `QValueHook` and its one-hot
    encodings, the checks of `QValueActor`, the fixed keys of
    `ActorCriticOperator` and the parameter order of its masked views.
    Networks and distributions are left abstract: Q-values are rows of
    reals and parameters are named values. */
module Actors {
  import opened Wrappers
  import opened Seqs
  import opened Discrete

  // ---------------------------------------------------------------------
  // Actor

  /** The keys an `Actor` is built with: missing input keys default to
      `["observation"]`, missing output keys to `["action"]`. */
  function ActorKeys(inKeys: Option<seq<string>>, outKeys: Option<seq<string>>): (r: (seq<string>, seq<string>))
    ensures inKeys.Some? ==> r.0 == inKeys.value
    ensures outKeys.Some? ==> r.1 == outKeys.value
    ensures inKeys.None? ==> r.0 == ["observation"]
    ensures outKeys.None? ==> r.1 == ["action"]
  {
    (if inKeys.None? then ["observation"] else inKeys.value,
     if outKeys.None? then ["action"] else outKeys.value)
  }

  /** Defaults are only filled in once: building again from the keys an
      actor ended up with changes nothing. */
  lemma ActorKeysStable(inKeys: Option<seq<string>>, outKeys: Option<seq<string>>)
    ensures var (i, o) := ActorKeys(inKeys, outKeys);
      ActorKeys(Some(i), Some(o)) == (i, o)
  {
  }

  // ---------------------------------------------------------------------
  // QValueHook

  /** `QValueHook._one_hot` on one row of Q-values: every position holding
      the row maximum is set. */
  function OneHot(value: seq<real>): (r: Result<seq<bool>>)
    ensures r.Ok? <==> |value| > 0
    ensures r.Ok? ==> |r.value| == |value|
    ensures r.Err? ==> r.error == IndexError
  {
    AtMax(value)
  }

  /** `_one_hot` marks exactly the positions holding the row maximum. */
  lemma OneHotMarksMaxima(value: seq<real>, i: int)
    requires OneHot(value).Ok? && 0 <= i < |value|
    ensures OneHot(value).value[i] <==> forall j :: 0 <= j < |value| ==> value[j] <= value[i]
  {
  }

  /** The pieces `value.split(var_nums, -1)` cuts from a row: the sizes must
      be non-negative and add up to the row length. */
  function Segments<T>(value: seq<T>, sizes: seq<int>): (r: Result<seq<seq<T>>>)
    ensures r.Ok? <==> (forall k :: 0 <= k < |sizes| ==> sizes[k] >= 0) && Sum(sizes) == |value|
    ensures r.Err? ==> r.error == RuntimeError
    ensures r.Ok? ==> |r.value| == |sizes| && Flatten(r.value) == value
    ensures r.Ok? ==> forall k :: 0 <= k < |sizes| ==> |r.value[k]| == sizes[k]
  {
    if |sizes| == 0 then (if |value| == 0 then Ok([]) else Err(RuntimeError))
    else if sizes[0] < 0 || sizes[0] > |value| then
      NegativeOrLongSizes(value, sizes);
      Err(RuntimeError)
    else
      match Segments(value[sizes[0]..], sizes[1..])
      case Err(e) => Err(e)
      case Ok(rest) =>
        assert value == value[..sizes[0]] + value[sizes[0]..];
        Ok([value[..sizes[0]]] + rest)
  }

  /** A first size that is negative or longer than the row rules the split
      out: the remaining sizes cannot make up the difference without a
      negative one. */
  lemma NegativeOrLongSizes<T>(value: seq<T>, sizes: seq<int>)
    requires |sizes| > 0 && (sizes[0] < 0 || sizes[0] > |value|)
    ensures !((forall k :: 0 <= k < |sizes| ==> sizes[k] >= 0) && Sum(sizes) == |value|)
  {
    if forall k :: 0 <= k < |sizes| ==> sizes[k] >= 0 {
      NonNegativeSum(sizes[1..]);
    }
  }

  lemma {:induction false} NonNegativeSum(s: seq<int>)
    requires forall k :: 0 <= k < |s| ==> s[k] >= 0
    ensures Sum(s) >= 0
  {
    if |s| > 0 {
      NonNegativeSum(s[1..]);
    }
  }

  /** The one-hot of every segment; an empty segment has no maximum. */
  function OneHotEach(segs: seq<seq<real>>): (r: Result<seq<seq<bool>>>)
    ensures r.Ok? <==> forall k :: 0 <= k < |segs| ==> |segs[k]| > 0
    ensures r.Ok? ==> |r.value| == |segs| && forall k :: 0 <= k < |segs| ==> Ok(r.value[k]) == OneHot(segs[k])
  {
    if |segs| == 0 then Ok([])
    else
      var head := OneHot(segs[0]);
      match OneHotEach(segs[1..])
      case Err(e) =>
        if head.Err? then head.PropagateFailure() else Err(e)
      case Ok(rest) =>
        if head.Err? then head.PropagateFailure()
        else
          assert forall k :: 1 <= k < |segs| ==> segs[k] == segs[1..][k - 1];
          Ok([head.value] + rest)
  }

  /** `QValueHook._mult_one_hot` called directly: without `var_nums` the
      split has no sizes; otherwise each segment is one-hot encoded and the
      encodings are concatenated. An empty size list splits an empty row
      into no pieces, and `torch.cat` of no tensors raises RuntimeError. */
  function MultOneHot(value: seq<real>, varNums: Option<seq<int>>): (r: Result<seq<bool>>)
    ensures varNums.None? ==> r == Err(TypeError)
    ensures varNums.Some? ==>
              (r.Ok? <==> && |varNums.value| > 0 && Sum(varNums.value) == |value|
                          && forall k :: 0 <= k < |varNums.value| ==> varNums.value[k] > 0)
    ensures r.Ok? ==> |r.value| == |value|
  {
    if varNums.None? then Err(TypeError)
    else
      var segs :- Segments(value, varNums.value);
      if |segs| == 0 then Err(RuntimeError)
      else
        var hots :- OneHotEach(segs);
        FlattenSameShape(segs, hots);
        Ok(Flatten(hots))
  }

  lemma {:induction false} FlattenSameShape(segs: seq<seq<real>>, hots: seq<seq<bool>>)
    requires |segs| == |hots| && forall k :: 0 <= k < |segs| ==> |segs[k]| == |hots[k]|
    ensures |Flatten(hots)| == |Flatten(segs)|
  {
    if |segs| > 0 {
      FlattenSameShape(segs[1..], hots[1..]);
    }
  }

  /** Segment `k` of the output is the one-hot of segment `k` of the input,
      so each segment has at least one set position. */
  lemma MultOneHotSegments(value: seq<real>, sizes: seq<int>)
    requires MultOneHot(value, Some(sizes)).Ok?
    ensures var segs := Segments(value, sizes).value;
      var out := MultOneHot(value, Some(sizes)).value;
      && Segments(out, sizes).Ok?
      && forall k :: 0 <= k < |sizes| ==>
           Ok(Segments(out, sizes).value[k]) == OneHot(segs[k])
           && Count(Segments(out, sizes).value[k], true) >= 1
  {
    var segs := Segments(value, sizes).value;
    var hots := OneHotEach(segs).value;
    var out := Flatten(hots);
    assert |out| == |value| == Sum(sizes);
    SegmentsOfFlatten(hots, sizes);
    forall k | 0 <= k < |sizes|
      ensures Count(hots[k], true) >= 1
    {
      AtMaxCount(segs[k]);
    }
  }

  /** Cutting a concatenation at the lengths of its pieces gives the pieces
      back. */
  lemma {:induction false} SegmentsOfFlatten<T>(pieces: seq<seq<T>>, sizes: seq<int>)
    requires |pieces| == |sizes| && forall k :: 0 <= k < |sizes| ==> |pieces[k]| == sizes[k]
    ensures Segments(Flatten(pieces), sizes) == Ok(pieces)
  {
    if |sizes| > 0 {
      SegmentsOfFlatten(pieces[1..], sizes[1..]);
      var f := Flatten(pieces);
      assert f == pieces[0] + Flatten(pieces[1..]);
      assert f[..sizes[0]] == pieces[0] && f[sizes[0]..] == Flatten(pieces[1..]);
      assert pieces == [pieces[0]] + pieces[1..];
    }
  }

  /** What `QValueHook.__call__` returns: the encoded action and the
      Q-values, unchanged. */
  datatype HookOutput = HookOutput(action: seq<bool>, values: seq<real>)

  /** `QValueHook.__call__`: the action space picks the encoder from
      `fun_dict`.  Only `"one_hot"` can be called with the Q-values alone:
      `_mult_one_hot` and `_binary` take a second `support` argument that
      the call does not pass, and an unknown action space is not a key of
      the dict. */
  function QValueHookCall(actionSpace: string, values: seq<real>): (r: Result<HookOutput>)
    ensures r.Ok? ==> r.value.values == values
    ensures r.Ok? <==> actionSpace == "one_hot" && |values| > 0
    ensures actionSpace == "mult_one_hot" || actionSpace == "binary" ==> r == Err(TypeError)
    ensures actionSpace !in {"one_hot", "mult_one_hot", "binary"} ==> r == Err(KeyError)
  {
    if actionSpace == "one_hot" then
      var action :- OneHot(values);
      Ok(HookOutput(action, values))
    else if actionSpace == "mult_one_hot" || actionSpace == "binary" then Err(TypeError)
    else Err(KeyError)
  }

  /** The action of a one-hot Q-value actor marks exactly the maximal
      Q-values, and at least one of them. */
  lemma QValueHookMarksMaxima(values: seq<real>)
    requires |values| > 0
    ensures var out := QValueHookCall("one_hot", values).value;
      && |out.action| == |values|
      && (forall i :: 0 <= i < |values| ==> (out.action[i] <==> forall j :: 0 <= j < |values| ==> values[j] <= values[i]))
      && Count(out.action, true) >= 1
  {
    AtMaxCount(values);
  }

  // ---------------------------------------------------------------------
  // QValueActor

  /** The distribution classes an operator can be given; only their
      identity matters here. */
  datatype DistClass = Delta | CategoricalDist | OtherDist(name: string)

  datatype QValueActor = QValueActor(inKeys: seq<string>, outKeys: seq<string>, actionSpace: string)

  /** `QValueActor.__init__`: the output keys are fixed, so passing them
      as well is a duplicate keyword argument; the distribution must be
      `Delta` (the `Actor` default). */
  function NewQValueActor(inKeys: Option<seq<string>>, outKeys: Option<seq<string>>,
                          dist: Option<DistClass>, actionSpace: string): (r: Result<QValueActor>)
    ensures outKeys.Some? ==> r == Err(TypeError)
    ensures r.Ok? <==> outKeys.None? && (dist.None? || dist.value == Delta)
    ensures r.Ok? ==> r.value.outKeys == ["action", "action_value"]
    ensures r.Ok? ==> r.value.inKeys == ActorKeys(inKeys, None).0
    ensures r.Ok? ==> r.value.actionSpace == actionSpace
  {
    if outKeys.Some? then Err(TypeError)
    else
      var (i, o) := ActorKeys(inKeys, Some(["action", "action_value"]));
      var d := if dist.None? then Delta else dist.value;
      if d != Delta then Err(AssertionError)
      else Ok(QValueActor(i, o, actionSpace))
  }

  /** `QValueActor.random_sample`: only the one-hot action space can be
      sampled; `weights` are the softmax of the drawn values and `u` the
      uniform threshold of `rand_one_hot`. */
  function RandomSample(a: QValueActor, weights: seq<real>, u: real): (r: Result<seq<bool>>)
    ensures r.Ok? <==> a.actionSpace == "one_hot"
    ensures r.Err? ==> r.error == NotImplementedError
    ensures r.Ok? ==> |r.value| == |weights|
  {
    if a.actionSpace == "one_hot" then Ok(RandOneHot(weights, u)) else Err(NotImplementedError)
  }

  /** A random one-hot action selects the first index whose cumulative
      weight exceeds the threshold, and nothing else. */
  lemma RandomSampleIsFirstAbove(a: QValueActor, weights: seq<real>, u: real)
    requires a.actionSpace == "one_hot" && NonNegative(weights)
    ensures forall i :: 0 <= i < |weights| ==>
      (RandomSample(a, weights, u).value[i] <==> FirstAbove(weights, u) == Some(i))
  {
    RandOneHotIsFirstAbove(weights, u);
  }

  // ---------------------------------------------------------------------
  // ActorCriticOperator

  /** Named parameters of one network, in registration order. */
  type Params<P> = seq<(string, P)>

  datatype ActorCritic<P> = ActorCritic(
    inKeys: seq<string>, outKeys: seq<string>,
    policyInKeys: seq<string>, policyOutKeys: seq<string>,
    valueInKeys: seq<string>, valueOutKeys: seq<string>,
    commonParams: Params<P>, policyParams: Params<P>, valueParams: Params<P>)

  /** `ActorCriticOperator.__init__`: output keys may not be given (an empty
      list is accepted); the common network reads `in_keys`, both heads read
      `"hidden_obs"`, and the outputs are the policy's followed by the
      value's. */
  function NewActorCritic<P>(inKeys: seq<string>, outKeys: Option<seq<string>>,
                             common: Params<P>, policy: Params<P>, value: Params<P>): (r: Result<ActorCritic<P>>)
    ensures r.Ok? <==> outKeys.None? || |outKeys.value| == 0
    ensures r.Err? ==> r.error == AssertionError
    ensures r.Ok? ==>
      && r.value.outKeys == ["action", "action_log_prob", "state_value"]
      && r.value.outKeys == r.value.policyOutKeys + r.value.valueOutKeys
      && r.value.policyInKeys == r.value.valueInKeys == ["hidden_obs"]
      && r.value.inKeys == inKeys
  {
    if outKeys.Some? && |outKeys.value| > 0 then Err(AssertionError)
    else
      var valueOut := ["state_value"];
      var policyOut := ["action", "action_log_prob"];
      Ok(ActorCritic(inKeys, policyOut + valueOut, ["hidden_obs"], policyOut, ["hidden_obs"], valueOut,
                     common, policy, value))
  }

  /** `named_parameters(prefix=p)` of a module: names are qualified by a
      nonempty prefix. */
  function Qualify<P>(prefix: string, ps: Params<P>): (r: Params<P>)
    ensures |r| == |ps|
    ensures forall k :: 0 <= k < |ps| ==>
      r[k].1 == ps[k].1 && r[k].0 == if prefix == "" then ps[k].0 else prefix + "." + ps[k].0
  {
    seq(|ps|, k requires 0 <= k < |ps| => (if prefix == "" then ps[k].0 else prefix + "." + ps[k].0, ps[k].1))
  }

  /** `OperatorMaskWrapper.named_parameters` for the wrapper of the head
      named `target`: the head's parameters first, then the common
      network's unless excluded.  The target is looked up by attribute name
      when the wrapper is made, and non-recursive enumeration is refused. */
  function NamedParameters<P>(ac: ActorCritic<P>, target: string, prefix: string, recurse: bool,
                              excludeCommon: bool): (r: Result<Params<P>>)
    ensures r.Ok? <==> (target == "policy_po" || target == "value_po") && recurse
    ensures target != "policy_po" && target != "value_po" ==> r == Err(AttributeError)
    ensures r.Ok? ==>
      var head := if target == "policy_po" then ac.policyParams else ac.valueParams;
      && |r.value| == |head| + (if excludeCommon then 0 else |ac.commonParams|)
      && r.value[..|head|] == Qualify(prefix, head)
      && r.value[|head|..] == if excludeCommon then [] else Qualify(prefix, ac.commonParams)
  {
    if target != "policy_po" && target != "value_po" then Err(AttributeError)
    else if !recurse then Err(AssertionError)
    else
      var head := if target == "policy_po" then ac.policyParams else ac.valueParams;
      var r := Qualify(prefix, head) + (if excludeCommon then [] else Qualify(prefix, ac.commonParams));
      assert r[..|head|] == Qualify(prefix, head);
      Ok(r)
  }

  /** Excluding the common network drops exactly its parameters from the
      end of the enumeration, and the two heads share that suffix. */
  lemma NamedParametersShareCommon<P>(ac: ActorCritic<P>, prefix: string)
    ensures var pol := NamedParameters(ac, "policy_po", prefix, true, false).value;
      var val := NamedParameters(ac, "value_po", prefix, true, false).value;
      && pol == NamedParameters(ac, "policy_po", prefix, true, true).value + Qualify(prefix, ac.commonParams)
      && val == NamedParameters(ac, "value_po", prefix, true, true).value + Qualify(prefix, ac.commonParams)
      && pol[|ac.policyParams|..] == val[|ac.valueParams|..]
  {
    var pol := NamedParameters(ac, "policy_po", prefix, true, false).value;
    var polx := NamedParameters(ac, "policy_po", prefix, true, true).value;
    assert pol == pol[..|ac.policyParams|] + pol[|ac.policyParams|..];
    assert polx == polx[..|ac.policyParams|];
    var val := NamedParameters(ac, "value_po", prefix, true, false).value;
    var valx := NamedParameters(ac, "value_po", prefix, true, true).value;
    assert val == val[..|ac.valueParams|] + val[|ac.valueParams|..];
    assert valx == valx[..|ac.valueParams|];
  }
}
