/** Sequence vocabulary shared by the tensor models: sums, repetition,
    concatenation of rows and fixed-size chunking. */
module Seqs {

  function Sum(s: seq<int>): int
  {
    if |s| == 0 then 0 else s[0] + Sum(s[1..])
  }

  lemma {:induction false} SumAppend(a: seq<int>, b: seq<int>)
    ensures Sum(a + b) == Sum(a) + Sum(b)
  {
    if |a| == 0 {
      assert a + b == b;
    } else {
      assert (a + b)[1..] == a[1..] + b;
      SumAppend(a[1..], b);
    }
  }

  lemma {:induction false} SumNat(s: seq<nat>)
    ensures Sum(s) >= 0
  {
    if |s| > 0 {
      SumNat(s[1..]);
    }
  }

  /** Clearing one entry lowers the sum by exactly that entry. */
  lemma {:induction false} SumClear(s: seq<int>, i: nat)
    requires i < |s|
    ensures Sum(s[i := 0]) + s[i] == Sum(s)
  {
    if i == 0 {
      assert s[i := 0][1..] == s[1..];
    } else {
      assert s[i := 0][1..] == s[1..][i - 1 := 0];
      SumClear(s[1..], i - 1);
    }
  }

  /** No position is named twice. */
  predicate Distinct(idx: seq<nat>)
  {
    forall j, k :: 0 <= j < k < |idx| ==> idx[j] != idx[k]
  }

  predicate InRange(idx: seq<nat>, n: nat)
  {
    forall k :: 0 <= k < |idx| ==> idx[k] < n
  }

  /** The entries of `vals` at the positions `idx`, in that order. */
  function Pick(vals: seq<nat>, idx: seq<nat>): (r: seq<nat>)
    requires InRange(idx, |vals|)
    ensures |r| == |idx| && forall k :: 0 <= k < |idx| ==> r[k] == vals[idx[k]]
  {
    seq(|idx|, k requires 0 <= k < |idx| => vals[idx[k]])
  }

  /** Counts taken at distinct positions sum to at most the whole. */
  lemma {:induction false} SumPickDistinct(vals: seq<nat>, idx: seq<nat>)
    requires InRange(idx, |vals|) && Distinct(idx)
    ensures Sum(Pick(vals, idx)) <= Sum(vals)
    decreases |idx|
  {
    if |idx| == 0 {
      SumNat(vals);
    } else {
      var i := idx[0];
      var cleared := vals[i := 0];
      var rest := idx[1..];
      SumClear(vals, i);
      assert Pick(vals, idx)[1..] == Pick(cleared, rest);
      SumPickDistinct(cleared, rest);
    }
  }

  /** `n` copies of `x`: the model of a constant-filled tensor row. */
  function Repeat<T>(x: T, n: nat): (r: seq<T>)
    ensures |r| == n
    ensures forall i :: 0 <= i < n ==> r[i] == x
  {
    seq(n, _ => x)
  }

  lemma RepeatAppend<T>(x: T, m: nat, n: nat)
    ensures Repeat(x, m) + Repeat(x, n) == Repeat(x, m + n)
  {
  }

  /** Row-major concatenation of rows (`tensor.view(-1)` on a 2-D tensor). */
  function Flatten<T>(ss: seq<seq<T>>): seq<T>
  {
    if |ss| == 0 then [] else ss[0] + Flatten(ss[1..])
  }

  /** The lengths of the rows. */
  function Lengths<T>(ss: seq<seq<T>>): (r: seq<int>)
    ensures |r| == |ss|
    ensures forall i :: 0 <= i < |ss| ==> r[i] == |ss[i]|
  {
    seq(|ss|, i requires 0 <= i < |ss| => |ss[i]|)
  }

  lemma {:induction false} FlattenLength<T>(ss: seq<seq<T>>)
    ensures |Flatten(ss)| == Sum(Lengths(ss))
  {
    if |ss| > 0 {
      assert Lengths(ss)[1..] == Lengths(ss[1..]);
      FlattenLength(ss[1..]);
    }
  }

  lemma {:induction false} FlattenAppend<T>(a: seq<seq<T>>, b: seq<seq<T>>)
    ensures Flatten(a + b) == Flatten(a) + Flatten(b)
  {
    if |a| == 0 {
      assert a + b == b;
    } else {
      assert (a + b)[1..] == a[1..] + b;
      FlattenAppend(a[1..], b);
    }
  }

  /** Number of occurrences of `x` in `s` (`(s == x).sum()`). */
  function Count<T(==)>(s: seq<T>, x: T): nat
  {
    if |s| == 0 then 0 else (if s[0] == x then 1 else 0) + Count(s[1..], x)
  }

  lemma {:induction false} CountAppend<T>(a: seq<T>, b: seq<T>, x: T)
    ensures Count(a + b, x) == Count(a, x) + Count(b, x)
  {
    if |a| == 0 {
      assert a + b == b;
    } else {
      assert (a + b)[1..] == a[1..] + b;
      CountAppend(a[1..], b, x);
    }
  }

  lemma {:induction false} CountAbsent<T>(s: seq<T>, x: T)
    requires forall i :: 0 <= i < |s| ==> s[i] != x
    ensures Count(s, x) == 0
  {
    if |s| > 0 {
      CountAbsent(s[1..], x);
    }
  }

  lemma {:induction false} CountRepeat<T>(x: T, n: nat)
    ensures Count(Repeat(x, n), x) == n
  {
    if n > 0 {
      assert Repeat(x, n)[1..] == Repeat(x, n - 1);
      CountRepeat(x, n - 1);
    }
  }

  /** Boolean-mask indexing `row[m]`: the entries whose mask bit is set, in order. */
  function Select<T>(row: seq<T>, m: seq<bool>): seq<T>
    requires |row| == |m|
  {
    if |row| == 0 then [] else (if m[0] then [row[0]] else []) + Select(row[1..], m[1..])
  }

  lemma {:induction false} SelectNone<T>(pad: seq<T>)
    ensures Select(pad, Repeat(false, |pad|)) == []
  {
    if |pad| > 0 {
      assert Repeat(false, |pad|)[1..] == Repeat(false, |pad| - 1);
      SelectNone(pad[1..]);
    }
  }

  lemma {:induction false} SelectLength<T>(row: seq<T>, m: seq<bool>)
    requires |row| == |m|
    ensures |Select(row, m)| == Count(m, true)
  {
    if |row| > 0 {
      SelectLength(row[1..], m[1..]);
    }
  }

  lemma {:induction false} SelectAll<T>(row: seq<T>)
    ensures Select(row, Repeat(true, |row|)) == row
  {
    if |row| > 0 {
      assert Repeat(true, |row|)[1..] == Repeat(true, |row| - 1);
      SelectAll(row[1..]);
    }
  }

  lemma {:induction false} SelectAppend<T>(a: seq<T>, ma: seq<bool>, b: seq<T>, mb: seq<bool>)
    requires |a| == |ma| && |b| == |mb|
    ensures Select(a + b, ma + mb) == Select(a, ma) + Select(b, mb)
  {
    if |a| == 0 {
      assert a + b == b && ma + mb == mb;
    } else {
      assert (a + b)[0] == a[0] && (a + b)[1..] == a[1..] + b;
      assert (ma + mb)[0] == ma[0] && (ma + mb)[1..] == ma[1..] + mb;
      SelectAppend(a[1..], ma[1..], b, mb);
      var h := if ma[0] then [a[0]] else [];
      assert Select(a + b, ma + mb) == h + (Select(a[1..], ma[1..]) + Select(b, mb));
      assert h + (Select(a[1..], ma[1..]) + Select(b, mb)) == (h + Select(a[1..], ma[1..])) + Select(b, mb);
    }
  }

  /** A Python slice bound resolved against a length: negative bounds count
      from the end, and bounds are clamped to `[0, n]`. */
  function PyIndex(i: int, n: nat): (r: nat)
    ensures r <= n
  {
    if i < 0 then (if i + n < 0 then 0 else i + n)
    else if i > n then n else i
  }

  /** Python `s[i:j]`. */
  function PySlice<T>(s: seq<T>, i: int, j: int): seq<T>
  {
    var a := PyIndex(i, |s|);
    var b := PyIndex(j, |s|);
    if a < b then s[a..b] else []
  }

  function Min(a: int, b: int): int
  {
    if a <= b then a else b
  }

  /** Ceiling of `a / b` for a non-negative `a` and a positive `b`,
      characterised by the two inequalities that define it. */
  function CeilDiv(a: nat, b: nat): (c: nat)
    requires b > 0
    ensures c * b >= a
    ensures c == 0 || (c - 1) * b < a
  {
    (a + b - 1) / b
  }

  /** Consecutive pieces of `s` of length `n`, the last one possibly shorter. */
  function Chunks<T>(s: seq<T>, n: nat): (r: seq<seq<T>>)
    requires n >= 1
    ensures Flatten(r) == s
    ensures forall k :: 0 <= k < |r| ==> 0 < |r[k]| <= n
    ensures forall k :: 0 <= k < |r| - 1 ==> |r[k]| == n
    decreases |s|
  {
    if |s| == 0 then []
    else
      var m := Min(n, |s|);
      assert s == s[..m] + s[m..];
      [s[..m]] + Chunks(s[m..], n)
  }

  /** The two inequalities of `CeilDiv` determine it. */
  lemma CeilDivUnique(a: nat, b: nat, c: nat)
    requires b > 0
    requires c * b >= a
    requires c == 0 || (c - 1) * b < a
    ensures c == CeilDiv(a, b)
  {
    var q := CeilDiv(a, b);
    if c < q {
      MulLe(c, q - 1, b);
      assert (q - 1) * b == q * b - b;
    } else if c > q {
      MulLe(q, c - 1, b);
    }
  }

  lemma MulSucc(x: int, b: int)
    ensures (x + 1) * b == x * b + b
  {
  }

  lemma MulLe(x: int, y: int, b: nat)
    requires x <= y
    ensures x * b <= y * b
  {
    assert y * b - x * b == (y - x) * b;
  }

  lemma {:induction false} ChunksCount<T>(s: seq<T>, n: nat)
    requires n >= 1
    ensures |Chunks(s, n)| == CeilDiv(|s|, n)
    decreases |s|
  {
    if |s| > 0 {
      var m := Min(n, |s|);
      assert Chunks(s, n) == [s[..m]] + Chunks(s[m..], n);
      if |s| <= n {
        assert s[m..] == [];
        CeilDivUnique(|s|, n, 1);
      } else {
        ChunksCount(s[m..], n);
        var c := |Chunks(s[m..], n)|;
        assert c * n >= |s| - n;
        assert c >= 1;
        assert (c - 1) * n < |s| - n;
        MulSucc(c - 1, n);
        MulSucc(c, n);
        CeilDivUnique(|s|, n, c + 1);
      }
    }
  }

  /** Chunking depends only on the length: equally long sequences are cut
      at the same places. */
  lemma {:induction false} ChunksSameShape<T, U>(a: seq<T>, b: seq<U>, n: nat)
    requires n >= 1 && |a| == |b|
    ensures Lengths(Chunks(a, n)) == Lengths(Chunks(b, n))
    decreases |a|
  {
    if |a| > 0 {
      var m := Min(n, |a|);
      ChunksSameShape(a[m..], b[m..], n);
    }
  }

  /** `s` back to front (`tensor.flip`). */
  function Reverse<T>(s: seq<T>): (r: seq<T>)
    ensures |r| == |s|
    ensures forall i :: 0 <= i < |s| ==> r[i] == s[|s| - 1 - i]
  {
    seq(|s|, i requires 0 <= i < |s| => s[|s| - 1 - i])
  }

  lemma ReverseAppend<T>(a: seq<T>, b: seq<T>)
    ensures Reverse(a + b) == Reverse(b) + Reverse(a)
  {
  }

  lemma ReverseRepeat<T>(x: T, n: nat)
    ensures Reverse(Repeat(x, n)) == Repeat(x, n)
  {
  }

  /** A Boolean row of length `n` that is true exactly at position `d`
      (`zeros(n).scatter(d, 1)`). */
  function OneHotAt(n: nat, d: int): (r: seq<bool>)
    ensures |r| == n
    ensures forall t :: 0 <= t < n ==> (r[t] <==> t == d)
  {
    seq(n, t => t == d)
  }

  lemma {:induction false} OneHotAtCount(n: nat, d: int)
    requires 0 <= d < n
    ensures Count(OneHotAt(n, d), true) == 1
  {
    var r := OneHotAt(n, d);
    assert r == Repeat(false, d) + [true] + Repeat(false, n - d - 1);
    CountAppend(Repeat(false, d) + [true], Repeat(false, n - d - 1), true);
    CountAppend(Repeat(false, d), [true], true);
    CountAbsent(Repeat(false, d), true);
    CountAbsent(Repeat(false, n - d - 1), true);
  }

  /** Rows of one common length `w` flatten to `|rows| * w` entries, and
      cutting the result into pieces of `w` gives the rows back
      (`view(-1)` followed by `reshape(-1, w)`). */
  lemma {:induction false} FlattenUniform<T>(rows: seq<seq<T>>, w: nat)
    requires w >= 1
    requires forall i :: 0 <= i < |rows| ==> |rows[i]| == w
    ensures |Flatten(rows)| == |rows| * w
    ensures Chunks(Flatten(rows), w) == rows
  {
    if |rows| > 0 {
      FlattenUniform(rows[1..], w);
      var s := Flatten(rows);
      assert s == rows[0] + Flatten(rows[1..]);
      MulPred(|rows|, w);
      assert Min(w, |s|) == w;
      assert s[..w] == rows[0];
      assert s[w..] == Flatten(rows[1..]);
      assert Chunks(s, w) == [s[..w]] + Chunks(s[w..], w);
    }
  }

  lemma MulPred(n: nat, w: nat)
    requires n >= 1
    ensures (n - 1) * w + w == n * w && (n - 1) * w <= n * w
  {
  }

  /** `w` divides `n`: the last of the `w`-sized pieces is full. */
  predicate DividesEvenly(n: nat, w: nat)
    requires w >= 1
  {
    CeilDiv(n, w) * w == n
  }

  lemma MultipleDivides(k: nat, w: nat)
    requires w >= 1
    ensures DividesEvenly(k * w, w)
  {
    assert k == 0 || (k - 1) * w == k * w - w;
    CeilDivUnique(k * w, w, k);
  }

  /** When `w` divides the length, every piece is full. */
  lemma {:induction false} ChunksExact<T>(s: seq<T>, n: nat)
    requires n >= 1 && DividesEvenly(|s|, n)
    ensures forall k :: 0 <= k < |Chunks(s, n)| ==> |Chunks(s, n)[k]| == n
    decreases |s|
  {
    if |s| > 0 {
      var c := CeilDiv(|s|, n);
      assert c >= 1;
      assert (c - 1) * n == c * n - n;
      assert |s| >= n;
      MultipleDivides(c - 1, n);
      ChunksExact(s[n..], n);
    }
  }
}
