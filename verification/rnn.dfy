/** Configuration and step rules of the recurrent tensordict modules
    (`LSTMModule` and `GRUModule` in torchrl/modules/tensordict_module/rnn.py).

    Both classes share one shape: a value input followed by the hidden-state
    inputs (two for an LSTM, one for a GRU), an optional trailing `"is_init"`
    marker, and outputs named after `("next", <hidden key>)`. The model keeps
    the two classes as one datatype indexed by `Cell`, so that every rule is
    stated once and its two instances differ only in `HiddenCount`. */
module Rnn {
  import opened Wrappers
  import opened Seqs

  datatype Cell = LSTM | GRU

  /** Number of hidden-state tensors the cell carries. */
  function HiddenCount(c: Cell): nat
  {
    match c
    case LSTM => 2
    case GRU => 1
  }

  /** A tensordict key: a plain string or a tuple of strings. */
  datatype Key = Str(name: string) | Tup(parts: seq<string>)

  /** `make_tuple`: the tuple form of a key. */
  function MakeTuple(k: Key): seq<string>
  {
    match k
    case Str(s) => [s]
    case Tup(p) => p
  }

  /** A key in the form `unravel_key` produces: not a one-element tuple. */
  predicate Flat(k: Key)
  {
    !(k.Tup? && |k.parts| == 1)
  }

  /** `unravel_key` on a flat key: a one-element tuple becomes its string. */
  function Unravel(k: Key): (r: Key)
    ensures MakeTuple(r) == MakeTuple(k)
    ensures Flat(r)
    ensures Flat(k) ==> r == k
  {
    if k.Tup? && |k.parts| == 1 then Str(k.parts[0]) else k
  }

  function UnravelAll(ks: seq<Key>): (r: seq<Key>)
    ensures |r| == |ks|
    ensures forall i :: 0 <= i < |ks| ==> r[i] == Unravel(ks[i])
  {
    seq(|ks|, i requires 0 <= i < |ks| => Unravel(ks[i]))
  }

  predicate Unravelled(ks: seq<Key>)
  {
    forall i :: 0 <= i < |ks| ==> Flat(ks[i])
  }

  /** Python truthiness of a key: the empty string and the empty tuple are false. */
  predicate Truthy(k: Key)
  {
    match k
    case Str(s) => s != ""
    case Tup(p) => |p| > 0
  }

  const IsInit: Key := Str("is_init")

  /** `DEFAULT_IN_KEYS` of each class. */
  function DefaultInKeys(c: Cell): (r: seq<Key>)
    ensures |r| == HiddenCount(c)
  {
    match c
    case LSTM => [Str("recurrent_state_h"), Str("recurrent_state_c")]
    case GRU => [Str("recurrent_state")]
  }

  /** `DEFAULT_OUT_KEYS` of each class. */
  function DefaultOutKeys(c: Cell): (r: seq<Key>)
    ensures |r| == HiddenCount(c)
  {
    match c
    case LSTM => [Tup(["next", "recurrent_state_h"]), Tup(["next", "recurrent_state_c"])]
    case GRU => [Tup(["next", "recurrent_state"])]
  }

  /** The recurrent core (`nn.LSTM` / `nn.GRU`), reduced to the attributes the
      module inspects. */
  datatype Core = Core(batchFirst: bool, bidirectional: bool, numLayers: nat, hiddenSize: nat)

  /** The constructor arguments that describe the core: an instance, or the
      sizes to build one from. */
  datatype CoreArgs = CoreArgs(
    core: Option<Core>,
    inputSize: Option<nat>,
    hiddenSize: Option<nat>,
    numLayers: nat,
    batchFirst: bool,
    bidirectional: bool)

  /** The key arguments of the constructor. */
  datatype KeyArgs = KeyArgs(
    inKey: Option<Key>,
    inKeys: Option<seq<Key>>,
    outKey: Option<Key>,
    outKeys: Option<seq<Key>>)

  datatype RecurrentModule = RecurrentModule(
    cell: Cell,
    core: Core,
    inKeys: seq<Key>,
    outKeys: seq<Key>,
    recurrentMode: bool)

  /** The input keys the module accepts: a value and the hidden states,
      optionally followed by `"is_init"`. */
  predicate InArityOk(c: Cell, ins: seq<Key>)
  {
    var h := HiddenCount(c);
    |ins| == h + 1 || (|ins| == h + 2 && ins[h + 1] == IsInit)
  }

  /** What the constructor guarantees of every module it returns. */
  predicate WellFormed(m: RecurrentModule)
  {
    && m.core.batchFirst
    && !m.core.bidirectional
    && InArityOk(m.cell, m.inKeys)
    && IsInit in m.inKeys
    && |m.outKeys| == HiddenCount(m.cell) + 1
    && Unravelled(m.inKeys)
    && Unravelled(m.outKeys)
  }

  /** The argument checks of the `nn.LSTM` / `nn.GRU` constructor (torch's
      `RNNBase.__init__`), in its order: `hidden_size` must be an integer
      (TypeError) and positive, `num_layers` positive (ValueError), and
      allocating the input weights needs an integer `input_size`
      (TypeError). */
  function BuildCore(a: CoreArgs): (r: Result<Core>)
    ensures r.Ok? <==> a.hiddenSize.Some? && a.hiddenSize.value > 0 && a.numLayers > 0 && a.inputSize.Some?
    ensures r.Ok? ==> r.value.numLayers == a.numLayers && Some(r.value.hiddenSize) == a.hiddenSize
    ensures r.Ok? ==> r.value.batchFirst && !r.value.bidirectional
    ensures r.Err? ==> (r.error == TypeError <==> a.hiddenSize.None? || (a.hiddenSize.value > 0 && a.numLayers > 0))
    ensures r.Err? ==> r.error == TypeError || r.error == ValueError
  {
    match a.hiddenSize
    case None => Err(TypeError)
    case Some(h) =>
      if h == 0 then Err(ValueError)
      else if a.numLayers == 0 then Err(ValueError)
      else if a.inputSize.None? then Err(TypeError)
      else Ok(Core(true, false, a.numLayers, h))
  }

  /** The core checks at the head of `__init__`: an instance must be
      batch-first, unidirectional and come without sizes; otherwise one is
      built from the arguments, which must ask for the same layout. */
  function CheckCore(a: CoreArgs): (r: Result<Core>)
    ensures r.Ok? ==> r.value.batchFirst && !r.value.bidirectional
    ensures a.core.Some? && r.Ok? ==> r.value == a.core.value
    ensures a.core.Some? && (a.inputSize.Some? || a.hiddenSize.Some?) ==> r == Err(ValueError)
    ensures a.core.Some? ==>
              (r.Ok? <==> a.core.value.batchFirst && !a.core.value.bidirectional && a.inputSize.None? && a.hiddenSize.None?)
    ensures a.core.None? ==>
              (r.Ok? <==> && a.batchFirst && !a.bidirectional
                          && a.inputSize.Some? && a.hiddenSize.Some? && a.hiddenSize.value > 0 && a.numLayers > 0)
    ensures a.core.None? && r.Ok? ==> r.value.numLayers == a.numLayers && Some(r.value.hiddenSize) == a.hiddenSize
    ensures r.Err? && r.error != ValueError ==>
              r.error == TypeError && a.core.None? && (a.inputSize.None? || a.hiddenSize.None?)
  {
    match a.core
    case Some(c) =>
      if !c.batchFirst then Err(ValueError)
      else if c.bidirectional then Err(ValueError)
      else if a.inputSize.Some? || a.hiddenSize.Some? then Err(ValueError)
      else Ok(c)
    case None =>
      if !a.batchFirst then Err(ValueError)
      else if a.bidirectional then Err(ValueError)
      else BuildCore(a)
  }

  /** Building a core without sizes fails: both sizes default to `None`, and
      torch refuses a `hidden_size` that is not an integer. */
  lemma DefaultSizesRejected(a: CoreArgs)
    requires a.core.None? && a.batchFirst && !a.bidirectional
    requires a.hiddenSize.None?
    ensures CheckCore(a) == Err(TypeError)
  {
  }

  /** The first half of the key handling: exactly one of `key` and `keys`
      must be given (ValueError), and a truthy single key is followed by the
      class defaults. A falsy single key leaves the list unset (`None`). */
  function ExpandKeys(key: Option<Key>, keys: Option<seq<Key>>, defaults: seq<Key>): (r: Result<Option<seq<Key>>>)
    ensures r.Err? <==> key.Some? == keys.Some?
    ensures r.Err? ==> r.error == ValueError
    ensures r.Ok? ==> (r.value.None? <==> key.Some? && !Truthy(key.value))
    ensures r.Ok? && r.value.Some? && key.Some? ==> r.value.value == [key.value] + defaults
    ensures r.Ok? && keys.Some? ==> r.value == keys
  {
    if key.Some? == keys.Some? then Err(ValueError)
    else if key.Some? then
      if Truthy(key.value) then Ok(Some([key.value] + defaults)) else Ok(None)
    else Ok(keys)
  }

  /** `unravel_key_list`: iterating an unset list raises TypeError. */
  function UnravelList(ks: Option<seq<Key>>): (r: Result<seq<Key>>)
    ensures r.Ok? <==> ks.Some?
    ensures r.Err? ==> r.error == TypeError
    ensures r.Ok? ==> Unravelled(r.value) && |r.value| == |ks.value|
    ensures r.Ok? ==> forall i :: 0 <= i < |ks.value| ==> MakeTuple(r.value[i]) == MakeTuple(ks.value[i])
  {
    match ks
    case None => Err(TypeError)
    case Some(l) => Ok(UnravelAll(l))
  }

  /** Resolution of `key` / `keys` against the class defaults, both halves
      together: expansion, then unravelling. */
  function ResolveKeys(key: Option<Key>, keys: Option<seq<Key>>, defaults: seq<Key>): (r: Result<seq<Key>>)
    ensures key.Some? == keys.Some? ==> r == Err(ValueError)
    ensures key.Some? && keys.None? && Truthy(key.value) ==>
              r == Ok([Unravel(key.value)] + UnravelAll(defaults))
    ensures key.Some? && keys.None? && !Truthy(key.value) ==> r == Err(TypeError)
    ensures key.None? && keys.Some? ==> r == Ok(UnravelAll(keys.value))
    ensures r.Ok? ==> Unravelled(r.value)
  {
    var l :- ExpandKeys(key, keys, defaults);
    assert key.Some? && l.Some? ==> UnravelAll(l.value) == [Unravel(key.value)] + UnravelAll(defaults);
    UnravelList(l)
  }

  /** `in_keys + ["is_init"]` unless the marker is already present. */
  function WithIsInit(ins: seq<Key>): (r: seq<Key>)
    ensures IsInit in r
    ensures IsInit in ins ==> r == ins
    ensures IsInit !in ins ==> |r| == |ins| + 1 && r[..|ins|] == ins && r[|ins|] == IsInit
  {
    if IsInit in ins then ins else ins + [IsInit]
  }

  /** `LSTMModule.__init__` / `GRUModule.__init__`. */
  function NewRecurrentModule(c: Cell, a: CoreArgs, k: KeyArgs): (r: Result<RecurrentModule>)
    ensures r.Ok? ==> WellFormed(r.value) && r.value.cell == c && !r.value.recurrentMode
    ensures r.Ok? ==> CheckCore(a) == Ok(r.value.core)
    ensures r.Ok? ==> a.core.Some? || (a.inputSize.Some? && a.hiddenSize == Some(r.value.core.hiddenSize) && r.value.core.hiddenSize > 0)
    ensures r.Ok? ==> ResolveKeys(k.outKey, k.outKeys, DefaultOutKeys(c)) == Ok(r.value.outKeys)
    ensures r.Ok? ==>
              && ResolveKeys(k.inKey, k.inKeys, DefaultInKeys(c)).Ok?
              && r.value.inKeys == WithIsInit(ResolveKeys(k.inKey, k.inKeys, DefaultInKeys(c)).value)
    ensures CheckCore(a).Err? ==> r == Err(CheckCore(a).error)
  {
    var core :- CheckCore(a);
    var inList :- ExpandKeys(k.inKey, k.inKeys, DefaultInKeys(c));
    var outList :- ExpandKeys(k.outKey, k.outKeys, DefaultOutKeys(c));
    var ins :- UnravelList(inList);
    var outs :- UnravelList(outList);
    if !InArityOk(c, ins) then Err(ValueError)
    else if |outs| != HiddenCount(c) + 1 then Err(ValueError)
    else Ok(RecurrentModule(c, core, WithIsInit(ins), outs, false))
  }

  /** Neither or both of `in_key` / `in_keys` is rejected with a ValueError,
      whatever the rest of the arguments say, once the core is acceptable. */
  lemma InKeyExclusive(c: Cell, a: CoreArgs, k: KeyArgs)
    requires CheckCore(a).Ok?
    requires k.inKey.Some? == k.inKeys.Some?
    ensures NewRecurrentModule(c, a, k) == Err(ValueError)
  {
  }

  /** Neither or both of `out_key` / `out_keys` is rejected with a
      ValueError once the core is acceptable, whatever the input keys are:
      the check comes before either list is unravelled, so even an unset
      input list does not raise first. */
  lemma OutKeyExclusive(c: Cell, a: CoreArgs, k: KeyArgs)
    requires CheckCore(a).Ok?
    requires k.outKey.Some? == k.outKeys.Some?
    ensures NewRecurrentModule(c, a, k) == Err(ValueError)
  {
  }

  /** A falsy single input key is only an error once unravelling is reached:
      with no output key at all the exclusivity ValueError comes first, and
      with a truthy output key the unset input list raises TypeError. */
  lemma FalsyInKeyRaisesLate(c: Cell, a: CoreArgs, outKey: Key)
    requires CheckCore(a).Ok?
    ensures NewRecurrentModule(c, a, KeyArgs(Some(Str("")), None, None, None)) == Err(ValueError)
    ensures Truthy(outKey) ==> NewRecurrentModule(c, a, KeyArgs(Some(Str("")), None, Some(outKey), None)) == Err(TypeError)
  {
  }

  /** An input list of the wrong length is rejected: an LSTM takes 3 keys
      (or 4 ending in `"is_init"`), a GRU 2 (or 3). */
  lemma WrongInArity(c: Cell, a: CoreArgs, ins: seq<Key>, outKey: Key)
    requires CheckCore(a).Ok? && Truthy(outKey)
    requires |ins| != HiddenCount(c) + 1 && |ins| != HiddenCount(c) + 2
    ensures NewRecurrentModule(c, a, KeyArgs(None, Some(ins), Some(outKey), None)) == Err(ValueError)
  {
  }

  /** An output list of the wrong length is rejected: an LSTM gives 3 keys, a GRU 2. */
  lemma WrongOutArity(c: Cell, a: CoreArgs, inKey: Key, outs: seq<Key>)
    requires CheckCore(a).Ok? && Truthy(inKey)
    requires |outs| != HiddenCount(c) + 1
    ensures NewRecurrentModule(c, a, KeyArgs(Some(inKey), None, None, Some(outs))) == Err(ValueError)
  {
  }

  /** Two single keys expand with the class defaults, and `"is_init"` is
      appended: `[k, "recurrent_state_h", "recurrent_state_c", "is_init"]`
      and `[o, ("next", "recurrent_state_h"), ("next", "recurrent_state_c")]`
      for an LSTM. */
  lemma {:induction false} SingleKeysExpand(c: Cell, a: CoreArgs, inKey: Key, outKey: Key)
    requires CheckCore(a).Ok?
    requires Truthy(inKey) && Truthy(outKey)
    requires Unravel(inKey) != IsInit
    ensures NewRecurrentModule(c, a, KeyArgs(Some(inKey), None, Some(outKey), None))
            == Ok(RecurrentModule(c, CheckCore(a).value,
                                  [Unravel(inKey)] + DefaultInKeys(c) + [IsInit],
                                  [Unravel(outKey)] + DefaultOutKeys(c), false))
  {
    var ins := [Unravel(inKey)] + DefaultInKeys(c);
    assert UnravelAll([inKey] + DefaultInKeys(c)) == ins;
    assert UnravelAll([outKey] + DefaultOutKeys(c)) == [Unravel(outKey)] + DefaultOutKeys(c);
    assert IsInit !in ins;
  }

  /** The constructor accepts the keys of any module it built and gives them
      back unchanged: rebuilding from a module's own core and keys is the
      identity up to the mode flag. */
  lemma {:induction false} RebuildKeepsKeys(m: RecurrentModule)
    requires WellFormed(m)
    ensures NewRecurrentModule(m.cell, CoreArgs(Some(m.core), None, None, 1, true, false),
                               KeyArgs(None, Some(m.inKeys), None, Some(m.outKeys)))
            == Ok(m.(recurrentMode := false))
  {
    assert UnravelAll(m.inKeys) == m.inKeys;
    assert UnravelAll(m.outKeys) == m.outKeys;
  }

  /** Assigning `recurrent_mode` always raises: the mode is changed only by
      making a copy. */
  function SetRecurrentModeAttribute(m: RecurrentModule, value: bool): (r: Result<RecurrentModule>)
    ensures r == Err(RuntimeError)
  {
    Err(RuntimeError)
  }

  /** `set_recurrent_mode`: the module itself when the mode is unchanged,
      otherwise a module rebuilt from the same core and keys with the new mode. */
  function SetRecurrentMode(m: RecurrentModule, mode: bool): (r: Result<RecurrentModule>)
    ensures WellFormed(m) ==> r == Ok(m.(recurrentMode := mode))
  {
    if mode == m.recurrentMode then Ok(m)
    else
      var out :- NewRecurrentModule(m.cell, CoreArgs(Some(m.core), None, None, 1, true, false),
                                    KeyArgs(None, Some(m.inKeys), None, Some(m.outKeys)));
      assert WellFormed(m) ==> out == m.(recurrentMode := false) by {
        if WellFormed(m) {
          RebuildKeepsKeys(m);
        }
      }
      Ok(out.(recurrentMode := mode))
  }

  /** Switching the mode away and back gives the original module, and
      switching twice to the same mode is the same as switching once. */
  lemma SetRecurrentModeRoundTrip(m: RecurrentModule, mode: bool)
    requires WellFormed(m)
    ensures SetRecurrentMode(m, mode).Ok?
    ensures WellFormed(SetRecurrentMode(m, mode).value)
    ensures SetRecurrentMode(SetRecurrentMode(m, mode).value, m.recurrentMode) == Ok(m)
    ensures SetRecurrentMode(SetRecurrentMode(m, mode).value, mode) == SetRecurrentMode(m, mode)
  {
  }

  /** What `make_tensordict_primer` registers: the tuple form of every hidden
      input key and the per-entry shape `(num_layers, hidden_size)`. */
  datatype Primer = Primer(keys: seq<seq<string>>, numLayers: nat, hiddenSize: nat)

  /** The naming convention the primer relies on: the hidden output at
      position `h` is `("next", *<hidden input h>)`. */
  predicate NamedAfterNext(m: RecurrentModule, h: int)
    requires 0 <= h < |m.inKeys| && h < |m.outKeys|
  {
    MakeTuple(m.outKeys[h]) == ["next"] + MakeTuple(m.inKeys[h])
  }

  /** `make_tensordict_primer`. */
  function MakePrimer(m: RecurrentModule): (r: Result<Primer>)
    ensures WellFormed(m) ==> r.Ok? || r == Err(RuntimeError)
    ensures r.Ok? ==> |r.value.keys| == HiddenCount(m.cell)
    ensures r.Ok? ==>
              forall h :: 1 <= h <= HiddenCount(m.cell) ==>
                h < |m.inKeys| && h < |m.outKeys| && NamedAfterNext(m, h)
                && r.value.keys[h - 1] == MakeTuple(m.inKeys[h])
    ensures r == Err(RuntimeError) ==>
              exists h :: 1 <= h <= HiddenCount(m.cell) && h < |m.inKeys| && h < |m.outKeys|
                          && !NamedAfterNext(m, h)
  {
    var n := HiddenCount(m.cell);
    if |m.outKeys| <= n || |m.inKeys| <= n then Err(IndexError)
    else if exists h :: 1 <= h <= n && !NamedAfterNext(m, h) then Err(RuntimeError)
    else Ok(Primer(seq(n, i requires 0 <= i < n => MakeTuple(m.inKeys[i + 1])),
                   m.core.numLayers, m.core.hiddenSize))
  }

  /** A module built from single keys follows the naming convention, so its
      primer registers the class's default hidden keys. */
  lemma {:induction false} DefaultKeysPrime(c: Cell, a: CoreArgs, inKey: Key, outKey: Key)
    requires CheckCore(a).Ok?
    requires Truthy(inKey) && Truthy(outKey)
    requires Unravel(inKey) != IsInit
    ensures NewRecurrentModule(c, a, KeyArgs(Some(inKey), None, Some(outKey), None)).Ok?
    ensures MakePrimer(NewRecurrentModule(c, a, KeyArgs(Some(inKey), None, Some(outKey), None)).value).Ok?
    ensures MakePrimer(NewRecurrentModule(c, a, KeyArgs(Some(inKey), None, Some(outKey), None)).value).value.keys
            == seq(HiddenCount(c), i requires 0 <= i < HiddenCount(c) => MakeTuple(DefaultInKeys(c)[i]))
  {
    SingleKeysExpand(c, a, inKey, outKey);
    DefaultModulePrimer(c, CheckCore(a).value, Unravel(inKey), Unravel(outKey));
  }

  /** The primer of a module whose hidden keys are the class defaults. */
  lemma DefaultModulePrimer(c: Cell, core: Core, inKey: Key, outKey: Key)
    ensures var m := RecurrentModule(c, core, [inKey] + DefaultInKeys(c) + [IsInit], [outKey] + DefaultOutKeys(c), false);
      && MakePrimer(m).Ok?
      && MakePrimer(m).value.keys == seq(HiddenCount(c), i requires 0 <= i < HiddenCount(c) => MakeTuple(DefaultInKeys(c)[i]))
  {
    var m := RecurrentModule(c, core, [inKey] + DefaultInKeys(c) + [IsInit], [outKey] + DefaultOutKeys(c), false);
    match c
    case LSTM =>
      assert NamedAfterNext(m, 1) && NamedAfterNext(m, 2);
    case GRU =>
      assert NamedAfterNext(m, 1);
  }

  /** Hidden states renamed on the output side only break the convention:
      the primer refuses such a module. */
  lemma RenamedOutputRejected(m: RecurrentModule)
    requires WellFormed(m) && m.cell == GRU
    requires m.outKeys[1] == Str("hidden_out")
    ensures MakePrimer(m) == Err(RuntimeError)
  {
    assert (["next"] + MakeTuple(m.inKeys[1]))[0] == "next";
    assert !NamedAfterNext(m, 1);
  }

  // ---------------------------------------------------------------------
  // Step rules of `_lstm` / `_gru` and the `is_init` reset of `forward`.
  //
  // One batch row is modelled. A hidden input is one state per time step
  // (`S` stands for the `(num_layers, hidden_size)` block), or `None` when
  // the tensordict does not hold it. The recurrent core itself is a
  // parameter `cell` that maps the initial states to the final ones.
  // ---------------------------------------------------------------------

  predicate AllMissing<S>(hidden: seq<Option<seq<S>>>)
  {
    forall k :: 0 <= k < |hidden| ==> hidden[k].None?
  }

  predicate NoneMissing<S>(hidden: seq<Option<seq<S>>>)
  {
    forall k :: 0 <= k < |hidden| ==> hidden[k].Some?
  }

  /** Every given hidden input spans `steps` time steps. */
  predicate Spans<S>(hidden: seq<Option<seq<S>>>, steps: nat)
  {
    forall k :: 0 <= k < |hidden| && hidden[k].Some? ==> |hidden[k].value| == steps
  }

  /** `hidden_in[:, 0]`, with a missing input read as zeros. */
  function InitialStates<S>(hidden: seq<Option<seq<S>>>, zero: S): (r: seq<S>)
    requires forall k :: 0 <= k < |hidden| && hidden[k].Some? ==> |hidden[k].value| >= 1
    ensures |r| == |hidden|
  {
    seq(|hidden|, k requires 0 <= k < |hidden| =>
      if hidden[k].Some? then hidden[k].value[0] else zero)
  }

  /** The returned hidden states: `steps - 1` zero blocks, then the final state. */
  function PadHidden<S>(final: S, steps: nat, zero: S): (r: seq<S>)
    requires steps >= 1
    ensures |r| == steps && r[steps - 1] == final
    ensures forall t :: 0 <= t < steps - 1 ==> r[t] == zero
  {
    Repeat(zero, steps - 1) + [final]
  }

  /** `_lstm` / `_gru` on one batch row. */
  function StepHidden<S(!new)>(c: Cell, recurrent: bool, steps: nat, hidden: seq<Option<seq<S>>>,
                         zero: S, cell: seq<S> -> seq<S>): (r: Result<seq<seq<S>>>)
    requires |hidden| == HiddenCount(c)
    requires Spans(hidden, steps)
    requires forall x: seq<S> :: |cell(x)| == |x|
    ensures r.Ok? <==>
              (recurrent || steps == 1) && steps >= 1 && (AllMissing(hidden) || NoneMissing(hidden))
    ensures !recurrent && steps != 1 ==> r == Err(ValueError)
    ensures (recurrent || steps == 1) && !AllMissing(hidden) && !NoneMissing(hidden) ==> r == Err(RuntimeError)
    ensures r.Ok? ==> |r.value| == |hidden|
    ensures r.Ok? ==>
              forall k :: 0 <= k < |hidden| ==>
                |r.value[k]| == steps
                && r.value[k][steps - 1] == cell(InitialStates(hidden, zero))[k]
                && (forall t :: 0 <= t < steps - 1 ==> r.value[k][t] == zero)
  {
    if !recurrent && steps != 1 then Err(ValueError)
    else if !AllMissing(hidden) && !NoneMissing(hidden) then Err(RuntimeError)
    else if steps == 0 then Err(IndexError)
    else
      var final := cell(InitialStates(hidden, zero));
      Ok(seq(|hidden|, k requires 0 <= k < |hidden| => PadHidden(final[k], steps, zero)))
  }

  /** Only the first time step of a hidden input is read: inputs that agree
      there give the same result. */
  lemma OnlyFirstStepRead<S(!new)>(c: Cell, recurrent: bool, steps: nat, h1: seq<Option<seq<S>>>,
                             h2: seq<Option<seq<S>>>, zero: S, cell: seq<S> -> seq<S>)
    requires |h1| == HiddenCount(c) && |h2| == HiddenCount(c)
    requires Spans(h1, steps) && Spans(h2, steps)
    requires forall x: seq<S> :: |cell(x)| == |x|
    requires forall k :: 0 <= k < |h1| ==> h1[k].Some? == h2[k].Some?
    requires forall k :: 0 <= k < |h1| && h1[k].Some? && steps >= 1 ==> h1[k].value[0] == h2[k].value[0]
    ensures StepHidden(c, recurrent, steps, h1, zero, cell) == StepHidden(c, recurrent, steps, h2, zero, cell)
  {
    if steps >= 1 {
      assert InitialStates(h1, zero) == InitialStates(h2, zero);
    }
  }

  /** Missing hidden inputs behave exactly like inputs that are zero throughout. */
  lemma MissingIsZero<S(!new)>(c: Cell, recurrent: bool, steps: nat, zero: S, cell: seq<S> -> seq<S>)
    requires forall x: seq<S> :: |cell(x)| == |x|
    ensures StepHidden(c, recurrent, steps, Repeat(None, HiddenCount(c)), zero, cell)
            == StepHidden(c, recurrent, steps, Repeat(Some(Repeat(zero, steps)), HiddenCount(c)), zero, cell)
  {
    var none: seq<Option<seq<S>>> := Repeat(None, HiddenCount(c));
    var zeros := Repeat(Some(Repeat(zero, steps)), HiddenCount(c));
    if steps >= 1 {
      assert InitialStates(none, zero) == InitialStates(zeros, zero);
    }
  }

  /** `tensor[mask] = 0` on one row. */
  function ZeroWhere<S>(h: seq<S>, mask: seq<bool>, zero: S): (r: seq<S>)
    requires |h| == |mask|
    ensures |r| == |h|
    ensures forall t :: 0 <= t < |h| ==> r[t] == (if mask[t] then zero else h[t])
  {
    seq(|h|, t requires 0 <= t < |h| => if mask[t] then zero else h[t])
  }

  /** The reset at the head of `forward`: when some step starts a trajectory
      and the first hidden input is present, every hidden input is zeroed at
      those steps; assigning into a missing one raises. */
  function ResetAtInit<S>(hidden: seq<Option<seq<S>>>, isInit: seq<bool>, zero: S)
    : (r: Result<seq<Option<seq<S>>>>)
    requires |hidden| >= 1
    requires Spans(hidden, |isInit|)
    ensures r.Ok? ==> |r.value| == |hidden| && Spans(r.value, |isInit|)
    ensures r.Ok? ==> forall k :: 0 <= k < |hidden| ==> r.value[k].Some? == hidden[k].Some?
    ensures r.Ok? ==>
              forall k, t :: 0 <= k < |hidden| && hidden[k].Some? && 0 <= t < |isInit| ==>
                r.value[k].value[t] == (if isInit[t] && hidden[0].Some? then zero else hidden[k].value[t])
    ensures r.Err? <==> true in isInit && hidden[0].Some? && !NoneMissing(hidden)
    ensures r.Err? ==> r.error == TypeError
  {
    if true in isInit && hidden[0].Some? then
      if !NoneMissing(hidden) then Err(TypeError)
      else Ok(seq(|hidden|, k requires 0 <= k < |hidden| => Some(ZeroWhere(hidden[k].value, isInit, zero))))
    else Ok(hidden)
  }

  /** Resetting twice is resetting once. */
  lemma ResetIdempotent<S>(hidden: seq<Option<seq<S>>>, isInit: seq<bool>, zero: S)
    requires |hidden| >= 1
    requires Spans(hidden, |isInit|)
    requires ResetAtInit(hidden, isInit, zero).Ok?
    ensures ResetAtInit(ResetAtInit(hidden, isInit, zero).value, isInit, zero) == ResetAtInit(hidden, isInit, zero)
  {
    var once := ResetAtInit(hidden, isInit, zero).value;
    if true in isInit && hidden[0].Some? {
      assert once[0].Some? && NoneMissing(once);
      var twice := ResetAtInit(once, isInit, zero).value;
      forall k | 0 <= k < |hidden|
        ensures twice[k] == once[k]
      {
        assert twice[k].value == once[k].value;
      }
      assert twice == once;
    }
  }

  /** The hidden-state half of `forward`: the reset, then one call of the core. */
  function ForwardHidden<S(!new)>(m: RecurrentModule, hidden: seq<Option<seq<S>>>, isInit: seq<bool>,
                            zero: S, cell: seq<S> -> seq<S>): (r: Result<seq<seq<S>>>)
    requires |hidden| == HiddenCount(m.cell)
    requires Spans(hidden, |isInit|)
    requires forall x: seq<S> :: |cell(x)| == |x|
    ensures r.Ok? ==> |r.value| == |hidden|
    ensures r.Ok? ==> forall k :: 0 <= k < |hidden| ==> |r.value[k]| == |isInit|
  {
    var reset :- ResetAtInit(hidden, isInit, zero);
    StepHidden(m.cell, m.recurrentMode, |isInit|, reset, zero, cell)
  }

  /** A row whose first step starts a trajectory ignores the hidden state it
      was given: the result is the one for missing hidden inputs. */
  lemma {:induction false} FreshStartIgnoresCarriedState<S(!new)>(m: RecurrentModule, hidden: seq<Option<seq<S>>>,
                                                            isInit: seq<bool>, zero: S, cell: seq<S> -> seq<S>)
    requires |hidden| == HiddenCount(m.cell)
    requires Spans(hidden, |isInit|)
    requires forall x: seq<S> :: |cell(x)| == |x|
    requires |isInit| >= 1 && isInit[0]
    requires NoneMissing(hidden)
    ensures ForwardHidden(m, hidden, isInit, zero, cell)
            == StepHidden(m.cell, m.recurrentMode, |isInit|, Repeat(None, HiddenCount(m.cell)), zero, cell)
  {
    var reset := ResetAtInit(hidden, isInit, zero).value;
    var none: seq<Option<seq<S>>> := Repeat(None, HiddenCount(m.cell));
    assert true in isInit;
    assert InitialStates(reset, zero) == InitialStates(none, zero);
  }
}
