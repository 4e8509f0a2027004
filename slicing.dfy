/**
 * Cutting a sequence into consecutive, non-overlapping windows, the shape of the
 * Python comprehension `[xs[i:i + n] for i in range(0, len(xs), n)]` used both by
 * the token chunker and by the word-chunked summarizer.
 */
module Slicing {

  function Min(a: int, b: int): int { if a <= b then a else b }

  /** Ceiling of a / n for a natural a and positive n. */
  function CeilDiv(a: nat, n: nat): nat
    requires n > 0
  {
    (a + n - 1) / n
  }

  /** Consecutive windows of n elements; only the last may be shorter. */
  function Windows<T>(xs: seq<T>, n: nat): seq<seq<T>>
    requires n > 0
    decreases |xs|
  {
    if |xs| == 0 then []
    else if |xs| <= n then [xs]
    else [xs[..n]] + Windows(xs[n..], n)
  }

  /** Concatenation of a sequence of sequences, in order. */
  function Flatten<T>(xss: seq<seq<T>>): seq<T>
  {
    if xss == [] then [] else xss[0] + Flatten(xss[1..])
  }

  /** Concatenating the windows in order gives back exactly the original sequence. */
  lemma {:induction false} WindowsFlatten<T>(xs: seq<T>, n: nat)
    requires n > 0
    ensures Flatten(Windows(xs, n)) == xs
    decreases |xs|
  {
    if |xs| == 0 {
    } else if |xs| <= n {
      assert Flatten(Windows(xs, n)) == xs + Flatten([]);
    } else {
      WindowsFlatten(xs[n..], n);
      assert Windows(xs, n)[1..] == Windows(xs[n..], n);
      assert xs == xs[..n] + xs[n..];
    }
  }

  lemma MulSign(d: int, n: int)
    requires n > 0
    ensures d >= 1 ==> d * n >= n
    ensures d <= -1 ==> d * n <= -n
  {
    assert d * n == (d - 1) * n + n;
    assert d * n == (d + 1) * n - n;
  }

  /** Euclidean division is determined by any quotient/remainder pair. */
  lemma DivUnique(x: int, n: int, q: int, r: int)
    requires n > 0 && 0 <= r < n && x == q * n + r
    ensures x / n == q
  {
    var q0, r0 := x / n, x % n;
    assert (q - q0) * n == r0 - r;
    MulSign(q - q0, n);
  }

  lemma DivStep(a: nat, n: nat)
    requires n > 0
    ensures (a + n) / n == a / n + 1
  {
    var q, r := a / n, a % n;
    assert a + n == (q + 1) * n + r;
    DivUnique(a + n, n, q + 1, r);
  }

  lemma DivMul(k: nat, n: nat)
    requires n > 0
    ensures (k * n) / n == k
  {
    DivUnique(k * n, n, k, 0);
  }

  lemma MulPred(k: int, n: int)
    ensures (k - 1) * n + n == k * n
  {
  }

  /** Slicing the suffix from n is slicing the whole sequence shifted by n. */
  lemma SliceShift<T>(xs: seq<T>, n: nat, a: nat, b: nat)
    requires n <= |xs| && a <= b <= |xs| - n
    ensures xs[n..][a..b] == xs[n + a .. n + b]
  {
  }

  /** A sequence of L elements gives ceil(L / n) windows, and none exactly when it is empty. */
  lemma {:induction false} WindowsCount<T>(xs: seq<T>, n: nat)
    requires n > 0
    ensures |Windows(xs, n)| == CeilDiv(|xs|, n)
    ensures |Windows(xs, n)| == 0 <==> |xs| == 0
    decreases |xs|
  {
    if |xs| == 0 {
      DivUnique(n - 1, n, 0, n - 1);
    } else if |xs| <= n {
      DivUnique(|xs| + n - 1, n, 1, |xs| - 1);
    } else {
      WindowsCount(xs[n..], n);
      DivStep(|xs| - 1, n);
      assert |xs[n..]| + n - 1 + n == |xs| - 1 + n;
    }
  }

  /**
   * Window k is the Python slice `xs[k * n : k * n + n]`: it starts at offset k * n,
   * which lies inside the sequence, and is clamped at the end of the sequence.
   */
  lemma {:induction false} WindowAt<T>(xs: seq<T>, n: nat, k: nat)
    requires n > 0 && k < |Windows(xs, n)|
    ensures k * n < |xs|
    ensures Windows(xs, n)[k] == xs[k * n .. Min(k * n + n, |xs|)]
    decreases |xs|
  {
    if |xs| <= n {
      assert k == 0;
    } else if k > 0 {
      WindowAt(xs[n..], n, k - 1);
      MulPred(k, n);
      SliceShift(xs, n, (k - 1) * n, Min((k - 1) * n + n, |xs| - n));
    }
  }

  /** Every window but the last holds exactly n elements; the last holds 1 to n. */
  lemma {:induction false} WindowSizes<T>(xs: seq<T>, n: nat, k: nat)
    requires n > 0 && k < |Windows(xs, n)|
    ensures k < |Windows(xs, n)| - 1 ==> |Windows(xs, n)[k]| == n
    ensures k == |Windows(xs, n)| - 1 ==> 1 <= |Windows(xs, n)[k]| <= n
    decreases |xs|
  {
    if |xs| > n && k > 0 {
      WindowSizes(xs[n..], n, k - 1);
    }
  }

  /** Window k exists exactly when its start offset k * n is inside the sequence. */
  lemma {:induction false} WindowExists<T>(xs: seq<T>, n: nat, k: nat)
    requires n > 0
    ensures k < |Windows(xs, n)| <==> k * n < |xs|
    decreases |xs|
  {
    MulSign(k, n);
    if |xs| > n && k > 0 {
      WindowExists(xs[n..], n, k - 1);
      MulPred(k, n);
    }
  }
}
