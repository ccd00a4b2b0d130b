/** Token-padding and rollout indexing of the RLHF rollout helper
    (torchrl/data/rlhf/utils.py).

    A batch of token ids is a list of rows of equal length; every row is
    treated independently except in `GeneratedTokens`, whose final reshape
    mixes rows. Padding is the end-of-sequence id. */
module RlhfTokens {
  import opened Wrappers
  import opened Seqs

  /** The id used both as end-of-sequence and as padding. */
  const EOS_TOKEN_ID: int := 50256

  /** `row != eos`, position by position. */
  function NotEos(row: seq<int>, eos: int): (m: seq<bool>)
    ensures |m| == |row|
    ensures forall j :: 0 <= j < |row| ==> (m[j] <==> row[j] != eos)
  {
    seq(|row|, j requires 0 <= j < |row| => row[j] != eos)
  }

  /** The non-padding tokens of a row, in order (`row[row != eos]`). */
  function Tokens(row: seq<int>, eos: int): seq<int>
  {
    Select(row, NotEos(row, eos))
  }

  predicate EosFree(s: seq<int>, eos: int)
  {
    forall j :: 0 <= j < |s| ==> s[j] != eos
  }

  /** Masked assignment `out[m] = vals` into a row filled with `fill`:
      the k-th set position of `m` receives `vals[k]`. */
  function Scatter<T>(m: seq<bool>, vals: seq<T>, fill: T): (r: seq<T>)
    requires Count(m, true) == |vals|
    ensures |r| == |m|
    ensures forall j :: 0 <= j < |m| && !m[j] ==> r[j] == fill
  {
    if |m| == 0 then []
    else if m[0] then [vals[0]] + Scatter(m[1..], vals[1..], fill)
    else [fill] + Scatter(m[1..], vals, fill)
  }

  /** The values left for the rest of the mask once its first bit is used. */
  function RestVals<T>(m: seq<bool>, v: seq<T>): seq<T>
    requires |m| > 0 && (m[0] ==> |v| > 0)
  {
    if m[0] then v[1..] else v
  }

  /** The first position `Scatter` writes. */
  function HeadOut<T>(m: seq<bool>, v: seq<T>, fill: T): T
    requires |m| > 0 && (m[0] ==> |v| > 0)
  {
    if m[0] then v[0] else fill
  }

  /** One unfolding of `Scatter`. */
  lemma ScatterCons<T>(m: seq<bool>, v: seq<T>, fill: T)
    requires |m| > 0 && Count(m, true) == |v|
    ensures Count(m[1..], true) == |RestVals(m, v)|
    ensures Scatter(m, v, fill) == [HeadOut(m, v, fill)] + Scatter(m[1..], RestVals(m, v), fill)
  {
  }

  /** One unfolding of `Scatter` on a concatenated mask. */
  lemma ScatterAppendHead<T>(ma: seq<bool>, va: seq<T>, mb: seq<bool>, vb: seq<T>, fill: T)
    requires |ma| > 0 && Count(ma, true) == |va| && Count(mb, true) == |vb|
    ensures Count(ma[1..] + mb, true) == |RestVals(ma, va) + vb|
    ensures Count(ma + mb, true) == |va + vb|
    ensures Scatter(ma + mb, va + vb, fill)
      == [HeadOut(ma, va, fill)] + Scatter(ma[1..] + mb, RestVals(ma, va) + vb, fill)
  {
    CountAppend(ma, mb, true);
    CountAppend(ma[1..], mb, true);
    var m, v := ma + mb, va + vb;
    assert m[0] == ma[0] && m[1..] == ma[1..] + mb;
    if ma[0] {
      assert v[0] == va[0] && v[1..] == va[1..] + vb;
    }
  }

  lemma {:induction false} ScatterAppend<T>(ma: seq<bool>, va: seq<T>, mb: seq<bool>, vb: seq<T>, fill: T)
    requires Count(ma, true) == |va| && Count(mb, true) == |vb|
    ensures Count(ma + mb, true) == |va + vb|
    ensures Scatter(ma + mb, va + vb, fill) == Scatter(ma, va, fill) + Scatter(mb, vb, fill)
  {
    if |ma| == 0 {
      assert ma + mb == mb && va == [];
      assert va + vb == vb;
    } else {
      ScatterAppendHead(ma, va, mb, vb, fill);
      ScatterCons(ma, va, fill);
      var x, rest := HeadOut(ma, va, fill), RestVals(ma, va);
      ScatterAppend(ma[1..], rest, mb, vb, fill);
      var head, tail := Scatter(ma[1..], rest, fill), Scatter(mb, vb, fill);
      assert [x] + (head + tail) == ([x] + head) + tail;
    }
  }

  lemma {:induction false} ScatterAllSet<T>(vals: seq<T>, fill: T)
    ensures Count(Repeat(true, |vals|), true) == |vals|
    ensures Scatter(Repeat(true, |vals|), vals, fill) == vals
  {
    CountRepeat(true, |vals|);
    if |vals| > 0 {
      assert Repeat(true, |vals|)[1..] == Repeat(true, |vals| - 1);
      ScatterAllSet(vals[1..], fill);
    }
  }

  lemma {:induction false} ScatterNoneSet<T>(k: nat, fill: T)
    ensures Count(Repeat(false, k), true) == 0
    ensures Scatter(Repeat(false, k), [], fill) == Repeat(fill, k)
  {
    CountAbsent(Repeat(false, k), true);
    if k > 0 {
      assert Repeat(false, k)[1..] == Repeat(false, k - 1);
      ScatterNoneSet(k - 1, fill);
    }
  }

  /** Writing `k` set bits' worth of padding-free tokens and reading back the
      non-padding positions gives the tokens and the mask back. */
  lemma {:induction false} ScatterTokens(m: seq<bool>, vals: seq<int>, eos: int)
    requires Count(m, true) == |vals|
    requires EosFree(vals, eos)
    ensures NotEos(Scatter(m, vals, eos), eos) == m
    ensures Tokens(Scatter(m, vals, eos), eos) == vals
  {
    var r := Scatter(m, vals, eos);
    if |m| > 0 {
      if m[0] {
        ScatterTokens(m[1..], vals[1..], eos);
      } else {
        ScatterTokens(m[1..], vals, eos);
      }
      assert NotEos(r, eos)[1..] == NotEos(r[1..], eos);
      assert NotEos(r, eos) == [NotEos(r, eos)[0]] + NotEos(r[1..], eos);
    }
  }

  lemma {:induction false} TokensAreEosFree(row: seq<int>, eos: int)
    ensures |Tokens(row, eos)| == Count(NotEos(row, eos), true)
    ensures EosFree(Tokens(row, eos), eos)
  {
    SelectLength(row, NotEos(row, eos));
    if |row| > 0 {
      assert NotEos(row, eos)[1..] == NotEos(row[1..], eos);
      TokensAreEosFree(row[1..], eos);
    }
  }

  lemma CountReverse(m: seq<bool>, x: bool)
    ensures Count(Reverse(m), x) == Count(m, x)
    decreases |m|
  {
    if |m| > 0 {
      assert m == [m[0]] + m[1..];
      ReverseAppend([m[0]], m[1..]);
      CountAppend(Reverse(m[1..]), Reverse([m[0]]), x);
      CountReverse(m[1..], x);
    }
  }

  /** `_padded_right_to_left`: the non-padding tokens are written, in order,
      into the positions of the mirrored non-padding mask. */
  function RightToLeft(row: seq<int>, eos: int): (r: seq<int>)
    ensures |r| == |row|
    ensures Tokens(r, eos) == Tokens(row, eos)
  {
    var m := NotEos(row, eos);
    TokensAreEosFree(row, eos);
    CountReverse(m, true);
    ScatterTokens(Reverse(m), Tokens(row, eos), eos);
    Scatter(Reverse(m), Tokens(row, eos), eos)
  }

  /** A right-padded row `tokens ++ EOS^k` becomes the left-padded
      `EOS^k ++ tokens`. */
  lemma RightToLeftMovesPadding(tokens: seq<int>, k: nat, eos: int)
    requires EosFree(tokens, eos)
    ensures RightToLeft(tokens + Repeat(eos, k), eos) == Repeat(eos, k) + tokens
  {
    var row := tokens + Repeat(eos, k);
    var m := NotEos(row, eos);
    RightPaddedTokens(tokens, k, eos);
    ReverseAppend(Repeat(true, |tokens|), Repeat(false, k));
    ReverseRepeat(true, |tokens|);
    ReverseRepeat(false, k);
    assert Reverse(m) == Repeat(false, k) + Repeat(true, |tokens|);
    ScatterLeftPadding(tokens, k, eos);
  }

  /** A right-padded row marks its tokens and then its padding, and its
      non-padding tokens are the tokens. */
  lemma RightPaddedTokens(tokens: seq<int>, k: nat, eos: int)
    requires EosFree(tokens, eos)
    ensures NotEos(tokens + Repeat(eos, k), eos) == Repeat(true, |tokens|) + Repeat(false, k)
    ensures Tokens(tokens + Repeat(eos, k), eos) == tokens
  {
    var row := tokens + Repeat(eos, k);
    assert NotEos(row, eos) == Repeat(true, |tokens|) + Repeat(false, k);
    SelectAppend(tokens, Repeat(true, |tokens|), Repeat(eos, k), Repeat(false, k));
    SelectAll(tokens);
    SelectNone(Repeat(eos, k));
    assert tokens + [] == tokens;
  }

  /** Scattering tokens into `k` unset positions followed by one set
      position per token gives `k` fills followed by the tokens. */
  lemma ScatterLeftPadding(tokens: seq<int>, k: nat, eos: int)
    ensures Count(Repeat(false, k) + Repeat(true, |tokens|), true) == |tokens|
    ensures Scatter(Repeat(false, k) + Repeat(true, |tokens|), tokens, eos) == Repeat(eos, k) + tokens
  {
    ScatterNoneSet(k, eos);
    ScatterAllSet(tokens, eos);
    ScatterAppend(Repeat(false, k), [], Repeat(true, |tokens|), tokens, eos);
    assert [] + tokens == tokens;
  }

  /** `~cumprod(~mask)`: true from the first non-padding token onwards;
      `seen` records whether one has already occurred. */
  function Started(row: seq<int>, eos: int, seen: bool): (m: seq<bool>)
    ensures |m| == |row|
  {
    if |row| == 0 then []
    else
      var s := seen || row[0] != eos;
      [s] + Started(row[1..], eos, s)
  }

  /** Position of the first non-padding token, or the row length. */
  function FirstToken(row: seq<int>, eos: int): (f: nat)
    ensures f <= |row|
    ensures forall j :: 0 <= j < f ==> row[j] == eos
    ensures f < |row| ==> row[f] != eos
  {
    if |row| == 0 || row[0] != eos then 0 else 1 + FirstToken(row[1..], eos)
  }

  lemma {:induction false} StartedAlready(row: seq<int>, eos: int)
    ensures Started(row, eos, true) == Repeat(true, |row|)
  {
    if |row| > 0 {
      StartedAlready(row[1..], eos);
    }
  }

  lemma {:induction false} StartedIsSuffixMask(row: seq<int>, eos: int)
    ensures Started(row, eos, false)
            == Repeat(false, FirstToken(row, eos)) + Repeat(true, |row| - FirstToken(row, eos))
  {
    if |row| > 0 {
      if row[0] != eos {
        StartedAlready(row[1..], eos);
      } else {
        StartedIsSuffixMask(row[1..], eos);
      }
    }
  }

  /** `_padded_left_to_right`: everything from the first non-padding token
      on is written at the front of a row of `sequence_length` padding
      entries. `sequence_length` defaults to the row length; a negative one
      cannot be allocated and a shorter one cannot take the mask. */
  function LeftToRight(row: seq<int>, sequenceLength: Option<int>, eos: int): (r: Result<seq<int>>)
    ensures r.Ok? <==> (sequenceLength.None? || sequenceLength.value >= |row|)
    ensures r.Ok? ==> |r.value| == (if sequenceLength.None? then |row| else sequenceLength.value)
  {
    var len := if sequenceLength.None? then |row| else sequenceLength.value;
    if len < 0 then Err(RuntimeError)
    else if len < |row| then Err(IndexError)
    else
      var m := Started(row, eos, false);
      SelectLength(row, m);
      CountReverse(m, true);
      Ok(Scatter(Reverse(m), Select(row, m), eos) + Repeat(eos, len - |row|))
  }

  /** Masked indexing with the `Started` mask keeps the row from its first
      token on. */
  lemma StartedSelect(row: seq<int>, eos: int)
    ensures Select(row, Started(row, eos, false)) == row[FirstToken(row, eos)..]
  {
    var f := FirstToken(row, eos);
    var a, b := row[..f], row[f..];
    var ma, mb := Repeat(false, |a|), Repeat(true, |b|);
    StartedIsSuffixMask(row, eos);
    assert Started(row, eos, false) == ma + mb;
    assert row == a + b;
    SelectAppend(a, ma, b, mb);
    SelectNone(a);
    SelectAll(b);
    assert Select(a + b, ma + mb) == [] + b;
  }

  /** Scattering into a mask whose set bits come first. */
  lemma ScatterLeading<T>(vals: seq<T>, k: nat, fill: T)
    ensures Count(Repeat(true, |vals|) + Repeat(false, k), true) == |vals|
    ensures Scatter(Repeat(true, |vals|) + Repeat(false, k), vals, fill) == vals + Repeat(fill, k)
  {
    ScatterAllSet(vals, fill);
    ScatterNoneSet(k, fill);
    ScatterAppend(Repeat(true, |vals|), vals, Repeat(false, k), [], fill);
    assert vals + [] == vals;
  }

  /** What `_padded_left_to_right` means: the row from its first token on,
      followed by padding up to `sequence_length`. */
  lemma LeftToRightMovesSuffix(row: seq<int>, len: int, eos: int)
    requires len >= |row|
    ensures LeftToRight(row, Some(len), eos)
            == Ok(row[FirstToken(row, eos)..] + Repeat(eos, len - |row| + FirstToken(row, eos)))
  {
    var f := FirstToken(row, eos);
    LeftToRightSuffixAt(row, len, eos, f, len - |row| + f);
  }

  /** LeftToRightMovesSuffix with the first-token position `f` and the
      padding count `p` named by the caller. */
  lemma LeftToRightSuffixAt(row: seq<int>, len: int, eos: int, f: nat, p: nat)
    requires len >= |row| && f == FirstToken(row, eos) && p == len - |row| + f
    ensures LeftToRight(row, Some(len), eos) == Ok(row[f..] + Repeat(eos, p))
  {
    var m := Started(row, eos, false);
    var t := row[f..];
    var pad, lead := Repeat(false, f), Repeat(true, |t|);
    StartedIsSuffixMask(row, eos);
    assert m == pad + lead;
    StartedSelect(row, eos);
    var sel := Select(row, m);
    assert sel == t;
    ReverseAppend(pad, lead);
    ReverseRepeat(false, f);
    ReverseRepeat(true, |t|);
    assert Reverse(m) == lead + pad;
    ScatterLeading(t, f, eos);
    var sc := Scatter(Reverse(m), sel, eos);
    assert sc == t + Repeat(eos, f);
    assert LeftToRight(row, Some(len), eos) == Ok(sc + Repeat(eos, len - |row|));
    RepeatAppend(eos, f, len - |row|);
    assert (t + Repeat(eos, f)) + Repeat(eos, len - |row|) == t + Repeat(eos, p);
  }

  /** The padding round trip of `generate`: a right-padded prompt is moved
      to left padding, the model appends `gen` tokens (at most `maxNew`,
      padding included), and the result is moved back to right padding of
      the prompt length plus `maxNew`. The prompt and the gen tokens come
      out adjacent at the front, followed by padding. */
  lemma GenerateRoundTrip(prompt: seq<int>, k: nat, gen: seq<int>, maxNew: nat, eos: int)
    requires |prompt| > 0 && EosFree(prompt, eos)
    requires |gen| <= maxNew
    ensures LeftToRight(RightToLeft(prompt + Repeat(eos, k), eos) + gen, Some(|prompt| + k + maxNew), eos)
            == Ok(prompt + gen + Repeat(eos, k + maxNew - |gen|))
  {
    RightToLeftMovesPadding(prompt, k, eos);
    var body := prompt + gen;
    assert RightToLeft(prompt + Repeat(eos, k), eos) + gen == Repeat(eos, k) + body;
    LeftPaddedBack(k, body, |prompt| + k + maxNew, eos);
  }

  /** A row of `k` padding tokens followed by a body that starts with a
      token is moved back to the body followed by padding up to `len`. */
  lemma LeftPaddedBack(k: nat, body: seq<int>, len: int, eos: int)
    requires |body| > 0 && body[0] != eos && len >= k + |body|
    ensures LeftToRight(Repeat(eos, k) + body, Some(len), eos) == Ok(body + Repeat(eos, len - |body|))
  {
    var sample := Repeat(eos, k) + body;
    FirstTokenAfterPadding(k, body, eos);
    assert sample[k..] == body;
    LeftToRightSuffixAt(sample, len, eos, k, len - |body|);
  }

  lemma {:induction false} FirstTokenAfterPadding(k: nat, rest: seq<int>, eos: int)
    requires |rest| > 0 && rest[0] != eos
    ensures FirstToken(Repeat(eos, k) + rest, eos) == k
  {
    if k > 0 {
      assert (Repeat(eos, k) + rest)[1..] == Repeat(eos, k - 1) + rest;
      FirstTokenAfterPadding(k - 1, rest, eos);
    } else {
      assert Repeat(eos, k) + rest == rest;
    }
  }

  /** Entries of `row` at positions `j` with `start <= j < start + n`
      (`row[(idx >= start) & (idx < start + n)]`). */
  function Window(row: seq<int>, start: int, n: int): (w: seq<int>)
    ensures 0 <= start && start + n <= |row| && n >= 0 ==> w == row[start..start + n]
  {
    var lo := if start < 0 then 0 else if start > |row| then |row| else start;
    var hi := if start + n < lo then lo else if start + n > |row| then |row| else start + n;
    row[lo..hi]
  }

  /** `_get_generated_tokens`: the windows of every row are concatenated and
      reshaped to rows of `maxNew`. A `rindex` that does not match the batch
      fails the masked indexing; a non-positive width or a total that is not
      a multiple of it fails the reshape. */
  function GeneratedTokens(generated: seq<seq<int>>, rindex: seq<int>, maxNew: int): (r: Result<seq<seq<int>>>)
    ensures r.Ok? ==> maxNew >= 1 && forall i :: 0 <= i < |r.value| ==> |r.value[i]| == maxNew
  {
    if |rindex| != |generated| then Err(IndexError)
    else if maxNew <= 0 then Err(RuntimeError)
    else
      var flat := Flatten(seq(|generated|, i requires 0 <= i < |generated| => Window(generated[i], rindex[i], maxNew)));
      if !DividesEvenly(|flat|, maxNew) then Err(RuntimeError)
      else
        ChunksExact(flat, maxNew);
        Ok(Chunks(flat, maxNew))
  }

  /** When every window lies inside its row, row `i` of the result is exactly
      the `maxNew` tokens at `[rindex[i], rindex[i] + maxNew)` of row `i`. */
  lemma GeneratedTokensAreWindows(generated: seq<seq<int>>, rindex: seq<int>, maxNew: nat)
    requires |rindex| == |generated| && maxNew >= 1
    requires forall i :: 0 <= i < |generated| ==> 0 <= rindex[i] && rindex[i] + maxNew <= |generated[i]|
    ensures GeneratedTokens(generated, rindex, maxNew).Ok?
    ensures |GeneratedTokens(generated, rindex, maxNew).value| == |generated|
    ensures forall i :: 0 <= i < |generated| ==>
              GeneratedTokens(generated, rindex, maxNew).value[i] == generated[i][rindex[i]..rindex[i] + maxNew]
  {
    var windows := seq(|generated|, i requires 0 <= i < |generated| => Window(generated[i], rindex[i], maxNew));
    FlattenUniform(windows, maxNew);
    MultipleDivides(|windows|, maxNew);
  }

  /** Windows that run past the end of their rows leave a ragged total that
      the reshape rejects. */
  lemma RaggedWindowsFail()
    ensures GeneratedTokens([[1, 2, 3], [4, 5, 6]], [0, 2], 2) == Err(RuntimeError)
  {
    var windows := seq(2, i requires 0 <= i < 2 => Window([[1, 2, 3], [4, 5, 6]][i], [0, 2][i], 2));
    assert windows[0] == [1, 2, 3][0..2] == [1, 2];
    assert windows[1] == [4, 5, 6][2..3] == [6];
    assert windows == [[1, 2], [6]];
    assert Flatten(windows) == [1, 2] + Flatten([[6]]);
    assert Flatten([[6]]) == [6] + Flatten([]);
    assert CeilDiv(3, 2) == 2;
  }

  /** Prompt state `i` of a rollout: positions before `bound` keep their
      token, the rest is padding (`where(arange < bound, row, EOS)`). */
  function Prefix(row: seq<int>, bound: int, eos: int): (p: seq<int>)
    ensures |p| == |row|
  {
    seq(|row|, j requires 0 <= j < |row| => if j < bound then row[j] else eos)
  }

  /** The `n + 1` prompt states of a rollout, from the bare prompt to the
      prompt with all `n` generated tokens. */
  function PrefixStates(row: seq<int>, rindex: int, n: nat, eos: int): (s: seq<seq<int>>)
    ensures |s| == n + 1
    ensures forall i :: 0 <= i <= n ==> s[i] == Prefix(row, rindex + i, eos) && |s[i]| == |row|
  {
    seq(n + 1, i requires 0 <= i <= n => Prefix(row, rindex + i, eos))
  }

  /** The integer part of one row of `create_rollout_td`. */
  datatype RolloutSteps = RolloutSteps(
    action: seq<int>,
    inputIds: seq<seq<int>>,
    attentionMask: seq<seq<bool>>,
    nextInputIds: seq<seq<int>>,
    nextAttentionMask: seq<seq<bool>>,
    done: seq<bool>)

  /** Step at which the rollout of `row` ends: the number of generated
      non-padding tokens, capped at the last step. */
  function DoneIndex(row: seq<int>, rindex: int, maxNew: int, eos: int): (d: int)
    ensures d < maxNew
    ensures 0 <= d <==> 1 <= maxNew && rindex <= Count(NotEos(row, eos), true)
  {
    Min(Count(NotEos(row, eos), true) - rindex, maxNew - 1)
  }

  /** `create_rollout_td` for one row of `generated`, given its prompt
      length `rindex`. The `done` scatter fails when the done index is
      negative (no steps, or fewer tokens than the prompt length) and the
      action gather fails when a generated position lies outside the row. */
  function Rollout(row: seq<int>, rindex: int, maxNew: int, eos: int): (r: Result<RolloutSteps>)
    ensures r.Ok? <==> 1 <= maxNew && 0 <= rindex && rindex + maxNew <= |row|
                        && rindex <= Count(NotEos(row, eos), true)
    ensures r.Ok? ==>
              && |r.value.action| == |r.value.inputIds| == |r.value.nextInputIds| == |r.value.done| == maxNew
              && |r.value.attentionMask| == |r.value.nextAttentionMask| == maxNew
              && (forall t :: 0 <= t < maxNew ==>
                    |r.value.inputIds[t]| == |r.value.nextInputIds[t]| == |row|
                    && |r.value.attentionMask[t]| == |r.value.nextAttentionMask[t]| == |row|)
  {
    if maxNew < 0 then Err(RuntimeError)
    else
      var states := PrefixStates(row, rindex, maxNew, eos);
      var d := DoneIndex(row, rindex, maxNew, eos);
      if d < 0 then Err(RuntimeError)
      else if rindex < 0 || rindex + maxNew > |row| then Err(RuntimeError)
      else
        Ok(RolloutSteps(
          seq(maxNew, t requires 0 <= t < maxNew => row[rindex + t]),
          states[..maxNew],
          seq(maxNew, t requires 0 <= t < maxNew => NotEos(states[t], eos)),
          states[1..],
          seq(maxNew, t requires 0 <= t < maxNew => NotEos(states[t + 1], eos)),
          OneHotAt(maxNew, d)))
  }

  /** Moving the prompt bound one position right writes that position's
      token into the state. */
  lemma PrefixStep(row: seq<int>, b: int, eos: int)
    requires 0 <= b < |row|
    ensures Prefix(row, b + 1, eos) == Prefix(row, b, eos)[b := row[b]]
  {
  }

  /** The rollout replays generation one token per step: the first input is
      the prompt alone, each step's next input is its input with the action
      token written at position `rindex + t`, and that is also the
      following step's input. */
  lemma RolloutIsStepwise(row: seq<int>, rindex: int, maxNew: int, eos: int)
    requires Rollout(row, rindex, maxNew, eos).Ok?
    ensures var s := Rollout(row, rindex, maxNew, eos).value;
      && (forall j :: 0 <= j < |row| ==> s.inputIds[0][j] == (if j < rindex then row[j] else eos))
      && (forall t :: 0 <= t < maxNew ==> s.action[t] == row[rindex + t])
      && (forall t :: 0 <= t < maxNew ==> s.nextInputIds[t] == s.inputIds[t][rindex + t := s.action[t]])
      && (forall t :: 0 <= t < maxNew - 1 ==> s.nextInputIds[t] == s.inputIds[t + 1])
  {
    var s := Rollout(row, rindex, maxNew, eos).value;
    RolloutStates(row, rindex, maxNew, eos);
    forall t | 0 <= t < maxNew
      ensures s.nextInputIds[t] == s.inputIds[t][rindex + t := s.action[t]]
    {
      PrefixStep(row, rindex + t, eos);
    }
    forall t | 0 <= t < maxNew - 1
      ensures s.nextInputIds[t] == s.inputIds[t + 1]
    {
      assert rindex + t + 1 == rindex + (t + 1);
    }
  }

  /** The inputs of a rollout step are the prompt states at its bound. */
  lemma RolloutStates(row: seq<int>, rindex: int, maxNew: int, eos: int)
    requires Rollout(row, rindex, maxNew, eos).Ok?
    ensures var s := Rollout(row, rindex, maxNew, eos).value;
      && (forall t :: 0 <= t < maxNew ==> s.inputIds[t] == Prefix(row, rindex + t, eos))
      && (forall t :: 0 <= t < maxNew ==> s.nextInputIds[t] == Prefix(row, rindex + t + 1, eos))
      && (forall t :: 0 <= t < maxNew ==> s.action[t] == row[rindex + t])
  {
    var states := PrefixStates(row, rindex, maxNew, eos);
    forall t | 0 <= t < maxNew
      ensures states[1..][t] == Prefix(row, rindex + t + 1, eos)
    {
      assert states[1..][t] == states[t + 1];
      assert rindex + (t + 1) == rindex + t + 1;
    }
  }

  /** The attention masks of a rollout mark exactly the non-padding tokens
      of the matching inputs. */
  lemma RolloutAttention(row: seq<int>, rindex: int, maxNew: int, eos: int)
    requires Rollout(row, rindex, maxNew, eos).Ok?
    ensures var s := Rollout(row, rindex, maxNew, eos).value;
      forall t, j :: 0 <= t < maxNew && 0 <= j < |row| ==>
        (s.attentionMask[t][j] <==> s.inputIds[t][j] != eos)
        && (s.nextAttentionMask[t][j] <==> s.nextInputIds[t][j] != eos)
  {
    var s := Rollout(row, rindex, maxNew, eos).value;
    forall t | 0 <= t < maxNew
      ensures s.attentionMask[t] == NotEos(s.inputIds[t], eos)
      ensures s.nextAttentionMask[t] == NotEos(s.nextInputIds[t], eos)
    {
    }
  }

  /** Exactly one step of every rollout is marked done, at `DoneIndex`. */
  lemma RolloutDoneOnce(row: seq<int>, rindex: int, maxNew: int, eos: int)
    requires Rollout(row, rindex, maxNew, eos).Ok?
    ensures var d := DoneIndex(row, rindex, maxNew, eos);
      && 0 <= d < maxNew
      && Rollout(row, rindex, maxNew, eos).value.done[d]
      && Count(Rollout(row, rindex, maxNew, eos).value.done, true) == 1
  {
    OneHotAtCount(maxNew, DoneIndex(row, rindex, maxNew, eos));
  }

  lemma {:induction false} CountNotEosPadded(tokens: seq<int>, k: nat, eos: int)
    requires EosFree(tokens, eos)
    ensures Count(NotEos(tokens + Repeat(eos, k), eos), true) == |tokens|
  {
    var m := NotEos(tokens + Repeat(eos, k), eos);
    assert m == Repeat(true, |tokens|) + Repeat(false, k);
    CountAppend(Repeat(true, |tokens|), Repeat(false, k), true);
    CountRepeat(true, |tokens|);
    CountAbsent(Repeat(false, k), true);
  }

  /** On a right-padded row made of the prompt and `n` generated tokens,
      `done` falls on the step that samples the first padding token, or on
      the last step when generation used the whole budget; every earlier
      action is a real token. */
  lemma DoneAtFirstEos(prompt: seq<int>, gen: seq<int>, k: nat, maxNew: int, eos: int)
    requires EosFree(prompt + gen, eos)
    requires 1 <= maxNew && |prompt| + maxNew <= |prompt| + |gen| + k
    ensures var row := prompt + gen + Repeat(eos, k);
      && Rollout(row, |prompt|, maxNew, eos).Ok?
      && DoneIndex(row, |prompt|, maxNew, eos) == Min(|gen|, maxNew - 1)
      && (forall t :: 0 <= t < DoneIndex(row, |prompt|, maxNew, eos) ==>
            Rollout(row, |prompt|, maxNew, eos).value.action[t] != eos)
      && (|gen| < maxNew ==> Rollout(row, |prompt|, maxNew, eos).value.action[|gen|] == eos)
  {
    CountNotEosPadded(prompt + gen, k, eos);
    var row := prompt + gen + Repeat(eos, k);
    assert forall t :: 0 <= t < |gen| ==> row[|prompt| + t] == gen[t];
  }
}
