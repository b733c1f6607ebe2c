/**
 * Maxima and top-k selection over vectors of weights: what `torch.topk`
 * returns, with ties broken towards the lower index.
 */
module Selection {
  import opened Wrappers

  /** The largest entry of a non-empty vector: the value `torch.topk(v, 1)` returns. */
  function Max(v: seq<real>): (m: real)
    requires |v| > 0
    ensures m in v
  {
    if |v| == 1 then v[0]
    else
      var rest := Max(v[..|v| - 1]);
      if v[|v| - 1] > rest then v[|v| - 1] else rest
  }

  /** No entry is larger than Max. */
  lemma {:induction false} MaxIsUpperBound(v: seq<real>)
    requires |v| > 0
    ensures forall k :: 0 <= k < |v| ==> v[k] <= Max(v)
  {
    if |v| > 1 {
      MaxIsUpperBound(v[..|v| - 1]);
    }
  }

  /** Per edge of a row, the largest operation weight on that edge. */
  function EdgeMaxima(row: seq<seq<real>>): (r: seq<real>)
    requires forall j :: 0 <= j < |row| ==> |row[j]| > 0
    ensures |r| == |row|
    ensures forall j {:trigger r[j]} :: 0 <= j < |row| ==> r[j] == Max(row[j])
  {
    if |row| == 0 then [] else EdgeMaxima(row[..|row| - 1]) + [Max(row[|row| - 1])]
  }

  /**
   * Among the positions below n that are not in `chosen`, the first one
   * holding the largest value, or None when every such position is chosen.
   */
  function BestBelow(v: seq<real>, chosen: seq<nat>, n: nat): (b: Option<nat>)
    requires n <= |v|
    ensures b.None? <==> forall t :: 0 <= t < n ==> t in chosen
    ensures b.Some? ==> b.value < n && b.value !in chosen
  {
    if n == 0 then None
    else
      var rest := BestBelow(v, chosen, n - 1);
      if n - 1 in chosen then rest
      else if rest.None? || v[n - 1] > v[rest.value] then Some(n - 1)
      else rest
  }

  /** BestBelow finds a largest unchosen entry, and the first of them. */
  lemma {:induction false} BestBelowIsBest(v: seq<real>, chosen: seq<nat>, n: nat)
    requires n <= |v|
    ensures var b := BestBelow(v, chosen, n);
      b.Some? ==>
        && (forall t :: 0 <= t < n && t !in chosen ==> v[t] <= v[b.value])
        && (forall t :: 0 <= t < b.value && t !in chosen ==> v[t] < v[b.value])
  {
    if n > 0 {
      BestBelowIsBest(v, chosen, n - 1);
    }
  }

  /** The first index of a largest entry: the index `torch.topk(v, 1)` returns. */
  function ArgMax(v: seq<real>): (m: nat)
    requires |v| > 0
    ensures m < |v| && v[m] == Max(v)
    ensures forall t :: 0 <= t < m ==> v[t] < v[m]
  {
    var b := BestBelow(v, [], |v|);
    assert 0 !in [];
    BestBelowIsBest(v, [], |v|);
    var m := b.value;
    assert v[m] == Max(v) by {
      MaxIsUpperBound(v);
      var t :| 0 <= t < |v| && v[t] == Max(v);
      assert v[t] <= v[m];
    }
    m
  }

  /** k distinct positions below n leave some position below n out, when k < n. */
  lemma {:induction false} Pigeonhole(chosen: seq<nat>, n: nat)
    requires |chosen| < n
    requires forall a :: 0 <= a < |chosen| ==> chosen[a] < n
    requires forall a, b :: 0 <= a < b < |chosen| ==> chosen[a] != chosen[b]
    ensures exists t :: 0 <= t < n && t !in chosen
    decreases n
  {
    if n - 1 !in chosen {
      assert 0 <= n - 1 < n;
    } else {
      var p :| 0 <= p < |chosen| && chosen[p] == n - 1;
      var rest := chosen[..p] + chosen[p + 1..];
      assert forall a :: 0 <= a < |rest| ==> rest[a] == (if a < p then chosen[a] else chosen[a + 1]);
      Pigeonhole(rest, n - 1);
      var t :| 0 <= t < n - 1 && t !in rest;
      forall q | 0 <= q < |chosen|
        ensures chosen[q] != t
      {
        if q < p {
          assert rest[q] == chosen[q];
        } else if q > p {
          assert rest[q - 1] == chosen[q];
        }
      }
      assert 0 <= t < n && t !in chosen;
    }
  }

  /**
   * The indices `torch.topk(v, k)` returns, largest first: k times the
   * first largest entry not chosen yet.
   */
  function TopK(v: seq<real>, k: nat): (idx: seq<nat>)
    requires k <= |v|
    ensures |idx| == k
    ensures forall a :: 0 <= a < k ==> idx[a] < |v|
    decreases k, 0
  {
    if k == 0 then []
    else
      var prev := TopK(v, k - 1);
      TopKDistinct(v, k - 1);
      Pigeonhole(prev, |v|);
      var b := BestBelow(v, prev, |v|);
      prev + [b.value]
  }

  /** TopK never selects a position twice. */
  lemma {:induction false} TopKDistinct(v: seq<real>, k: nat)
    requires k <= |v|
    ensures forall a, b :: 0 <= a < b < k ==> TopK(v, k)[a] != TopK(v, k)[b]
    decreases k, 1
  {
    if k > 0 {
      var prev := TopK(v, k - 1);
      TopKDistinct(v, k - 1);
      Pigeonhole(prev, |v|);
      BestBelowIsBest(v, prev, |v|);
    }
  }

  /**
   * `idx` is a top-k selection of v: k distinct positions of v, in
   * non-increasing order of value, and no unselected entry larger than a
   * selected one.
   */
  ghost predicate IsTopK(v: seq<real>, idx: seq<nat>, k: nat) {
    && |idx| == k
    && (forall a :: 0 <= a < k ==> idx[a] < |v|)
    && (forall a, b :: 0 <= a < b < k ==> idx[a] != idx[b])
    && (forall a, b :: 0 <= a < b < k && idx[a] < |v| && idx[b] < |v| ==> v[idx[a]] >= v[idx[b]])
    && (forall t, a :: 0 <= t < |v| && t !in idx && 0 <= a < k && idx[a] < |v| ==> v[t] <= v[idx[a]])
  }

  /** Each shorter selection is a prefix of a longer one. */
  lemma {:induction false} TopKPrefix(v: seq<real>, j: nat, k: nat)
    requires j <= k <= |v|
    ensures TopK(v, j) == TopK(v, k)[..j]
    decreases k - j
  {
    if j < k {
      TopKPrefix(v, j, k - 1);
      assert TopK(v, k)[..k - 1] == TopK(v, k - 1);
      assert TopK(v, k)[..j] == TopK(v, k)[..k - 1][..j];
    }
  }

  /** The a-th selected index holds the largest value outside the first a selected. */
  lemma TopKStep(v: seq<real>, a: nat, k: nat)
    requires a < k <= |v|
    ensures forall t :: 0 <= t < |v| && t !in TopK(v, k)[..a] ==> v[t] <= v[TopK(v, k)[a]]
  {
    var before := TopK(v, a);
    TopKDistinct(v, a);
    Pigeonhole(before, |v|);
    var b := BestBelow(v, before, |v|);
    BestBelowIsBest(v, before, |v|);
    assert TopK(v, a + 1) == before + [b.value];
    TopKPrefix(v, a, k);
    TopKPrefix(v, a + 1, k);
    assert TopK(v, k)[a] == TopK(v, a + 1)[a] == b.value;
    assert TopK(v, k)[..a] == before;
  }

  /** TopK is a top-k selection. */
  lemma TopKIsTopK(v: seq<real>, k: nat)
    requires k <= |v|
    ensures IsTopK(v, TopK(v, k), k)
  {
    var idx := TopK(v, k);
    TopKDistinct(v, k);
    forall a, b | 0 <= a < b < k
      ensures v[idx[a]] >= v[idx[b]]
    {
      TopKStep(v, a, k);
      assert idx[b] !in idx[..a];
    }
    forall t, a | 0 <= t < |v| && t !in idx && 0 <= a < k
      ensures v[t] <= v[idx[a]]
    {
      TopKStep(v, a, k);
      assert t !in idx[..a];
    }
  }
}
