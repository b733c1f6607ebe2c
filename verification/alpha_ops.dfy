/**
 * The architecture weights ("alphas") and the two mutations the agent can
 * apply to them: raise or lower one operation's share on one edge, clamped
 * near the ends of [0, 1], with a 0.01 floor added to the whole edge and
 * the result written back through log(x) + ln 10.
 */
module AlphaOps {
  import opened Wrappers

  /** The amount both mutations ask for by default. */
  const DefaultProb: real := 0.3
  /** Added to every weight of a mutated edge, so that no weight is 0. */
  const Floor: real := 0.01

  /**
   * Alphas of a DARTS cell: one row per intermediate node, row i holding
   * the i + 2 edges into node i + 2, each edge one weight per primitive.
   */
  ghost predicate DartsShape(alphas: seq<seq<seq<real>>>, nodes: nat, nOps: nat) {
    && |alphas| == nodes
    && (forall i :: 0 <= i < nodes ==> |alphas[i]| == i + 2)
    && (forall i, j :: 0 <= i < nodes && 0 <= j < |alphas[i]| ==> |alphas[i][j]| == nOps)
  }

  lemma ShapeAfterWrite(alphas: seq<seq<seq<real>>>, nodes: nat, nOps: nat, i: nat, j: nat, edge: seq<real>)
    requires DartsShape(alphas, nodes, nOps) && i < nodes && j < i + 2 && |edge| == nOps
    ensures DartsShape(alphas[i := alphas[i][j := edge]], nodes, nOps)
  {
  }

  type Positive = r: real | r > 0.0 witness 1.0

  /**
   * The exponential and the natural logarithm the environment computes
   * with, given as functions; the exponential is positive.
   */
  datatype Numerics = Numerics(exp: real -> Positive, log: real -> real)

  /** sum_j exp(x_j) over the weights of an edge. */
  function SumExp(num: Numerics, v: seq<real>): real {
    if |v| == 0 then 0.0 else SumExp(num, v[..|v| - 1]) + num.exp(v[|v| - 1])
  }

  lemma {:induction false} SumExpPositive(num: Numerics, v: seq<real>)
    requires |v| > 0
    ensures SumExp(num, v) > 0.0
  {
    assert num.exp(v[|v| - 1]) > 0.0;
    if |v| > 1 {
      SumExpPositive(num, v[..|v| - 1]);
    }
  }

  /** exp(x_i) / z for every weight x_i of an edge. */
  function Scaled(num: Numerics, v: seq<real>, z: real): (r: seq<real>)
    requires z > 0.0
    ensures |r| == |v|
  {
    if |v| == 0 then [] else Scaled(num, v[..|v| - 1], z) + [num.exp(v[|v| - 1]) / z]
  }

  lemma {:induction false} ScaledAt(num: Numerics, v: seq<real>, z: real)
    requires z > 0.0
    ensures forall i :: 0 <= i < |v| ==> Scaled(num, v, z)[i] == num.exp(v[i]) / z
  {
    if |v| > 0 {
      ScaledAt(num, v[..|v| - 1], z);
    }
  }

  /** Softmax of one edge's weights: exp(x_i) / sum_j exp(x_j). */
  function Softmax(num: Numerics, v: seq<real>): (r: seq<real>)
    ensures |r| == |v|
  {
    if |v| == 0 then []
    else
      SumExpPositive(num, v);
      Scaled(num, v, SumExp(num, v))
  }

  /** Every normalised weight is positive. */
  lemma SoftmaxPositive(num: Numerics, v: seq<real>)
    ensures forall i :: 0 <= i < |v| ==> Softmax(num, v)[i] > 0.0
  {
    if |v| > 0 {
      SumExpPositive(num, v);
      var z := SumExp(num, v);
      ScaledAt(num, v, z);
      forall i | 0 <= i < |v|
        ensures Softmax(num, v)[i] > 0.0
      {
        var a := num.exp(v[i]);
        assert a > 0.0;
        assert a / z * z == a;
      }
    }
  }

  /** Softmax over every edge of one row. */
  function NormalizeRow(num: Numerics, row: seq<seq<real>>): (r: seq<seq<real>>)
    ensures |r| == |row|
  {
    if |row| == 0 then [] else NormalizeRow(num, row[..|row| - 1]) + [Softmax(num, row[|row| - 1])]
  }

  /** Softmax over every edge of every row: the normalised view of the alphas. */
  function NormalizeAll(num: Numerics, alphas: seq<seq<seq<real>>>): (r: seq<seq<seq<real>>>)
    ensures |r| == |alphas|
  {
    if |alphas| == 0 then [] else NormalizeAll(num, alphas[..|alphas| - 1]) + [NormalizeRow(num, alphas[|alphas| - 1])]
  }

  lemma {:induction false} NormalizeRowAt(num: Numerics, row: seq<seq<real>>)
    ensures forall j :: 0 <= j < |row| ==> NormalizeRow(num, row)[j] == Softmax(num, row[j])
  {
    if |row| > 0 {
      NormalizeRowAt(num, row[..|row| - 1]);
    }
  }

  /** Edge j of row i of the normalised view is the softmax of edge j of row i of the alphas. */
  lemma {:induction false} NormalizeAllAt(num: Numerics, alphas: seq<seq<seq<real>>>)
    ensures forall i :: 0 <= i < |alphas| ==>
      |NormalizeAll(num, alphas)[i]| == |alphas[i]| &&
      forall j :: 0 <= j < |alphas[i]| ==> NormalizeAll(num, alphas)[i][j] == Softmax(num, alphas[i][j])
  {
    if |alphas| > 0 {
      NormalizeAllAt(num, alphas[..|alphas| - 1]);
      NormalizeRowAt(num, alphas[|alphas| - 1]);
    }
  }

  /** Normalising keeps the DARTS shape. */
  lemma NormalizedShape(num: Numerics, alphas: seq<seq<seq<real>>>, nodes: nat, nOps: nat)
    requires DartsShape(alphas, nodes, nOps)
    ensures DartsShape(NormalizeAll(num, alphas), nodes, nOps)
  {
    NormalizeAllAt(num, alphas);
  }

  /** The write-back `log(x) + C` with C = ln 10, applied to every weight of an edge. */
  function InverseSoftmax(num: Numerics, edge: seq<real>): (r: seq<real>)
    ensures |r| == |edge|
    ensures forall k {:trigger r[k]} :: 0 <= k < |edge| ==> r[k] == num.log(edge[k]) + num.log(10.0)
  {
    var c := num.log(10.0);
    seq(|edge|, k requires 0 <= k < |edge| => num.log(edge[k]) + c)
  }

  /**
   * The one fact about exp and log the write-back relies on: for positive
   * x, exp(log(x) + ln 10) = 10 x.
   */
  ghost predicate ExpInvertsLog(num: Numerics) {
    forall x :: x > 0.0 ==> num.exp(num.log(x) + num.log(10.0)) == 10.0 * x
  }

  /** A sequence of positive weights has a positive sum. */
  lemma {:induction false} SumPositive(e: seq<real>)
    requires |e| > 0 && forall k :: 0 <= k < |e| ==> e[k] > 0.0
    ensures Sum(e) > 0.0
  {
    if |e| > 1 {
      SumPositive(e[..|e| - 1]);
    }
  }

  /** The exponentials of a written-back edge sum to ten times the edge. */
  lemma {:induction false} SumExpInverse(num: Numerics, e: seq<real>)
    requires ExpInvertsLog(num) && forall k :: 0 <= k < |e| ==> e[k] > 0.0
    ensures SumExp(num, InverseSoftmax(num, e)) == 10.0 * Sum(e)
  {
    if |e| > 0 {
      var n := |e| - 1;
      var w := InverseSoftmax(num, e);
      assert w[..n] == InverseSoftmax(num, e[..n]);
      SumExpInverse(num, e[..n]);
      assert num.exp(w[n]) == 10.0 * e[n];
    }
  }

  /**
   * The round trip of the write-back: the softmax that update_states takes
   * of a written-back edge of positive weights is that edge divided by its
   * sum, so the constant ln 10 cancels out.
   */
  lemma SoftmaxOfInverse(num: Numerics, e: seq<real>)
    requires ExpInvertsLog(num) && |e| > 0 && forall k :: 0 <= k < |e| ==> e[k] > 0.0
    ensures Sum(e) > 0.0
    ensures forall i :: 0 <= i < |e| ==> Softmax(num, InverseSoftmax(num, e))[i] == e[i] / Sum(e)
  {
    SumPositive(e);
    var w := InverseSoftmax(num, e);
    SumExpInverse(num, e);
    var z := SumExp(num, w);
    assert Softmax(num, w) == Scaled(num, w, z);
    ScaledAt(num, w, z);
    var total := Sum(e);
    assert |w| == |e| && z == 10.0 * total && total > 0.0;
    forall i | 0 <= i < |e|
      ensures Softmax(num, w)[i] == e[i] / total
    {
      var x := e[i];
      assert num.exp(num.log(x) + num.log(10.0)) == 10.0 * x;
      Cancel(x, num.exp(w[i]), z, total);
    }
  }

  /** Scaling a ratio's both sides by ten leaves it unchanged. */
  lemma Cancel(a: real, ea: real, z: real, total: real)
    requires ea == 10.0 * a && z == 10.0 * total && total > 0.0
    ensures ea / z == a / total
  {
  }

  /**
   * The amount increase_op adds: prob, unless cur + prob passes 1.0, in
   * which case the surplus over 0.99 is taken off so the op lands on 0.99.
   */
  function IncreaseAmount(cur: real, prob: real): (p: real)
    ensures cur + p == (if cur + prob > 1.0 then 0.99 else cur + prob)
    ensures prob >= 0.0 && cur <= 0.99 ==> p >= 0.0
    ensures cur > 0.99 && cur + prob > 1.0 ==> p < 0.0
  {
    if cur + prob > 1.0 then
      var surplus := cur + prob - 0.99;
      prob - surplus
    else
      prob
  }

  /** Whether increase_op mutates: only an exact landing on 1.0 is refused. */
  function IncreaseApplies(cur: real, prob: real): (b: bool)
    ensures b <==> cur + prob != 1.0
    ensures b ==> cur + IncreaseAmount(cur, prob) < 1.0
  {
    cur + IncreaseAmount(cur, prob) < 1.0
  }

  /**
   * The amount decrease_op takes off: prob, unless cur - prob drops below
   * 0.0, in which case it becomes cur - 0.01 so the op lands on 0.01.
   */
  function DecreaseAmount(cur: real, prob: real): (p: real)
    ensures cur - p == (if cur - prob < 0.0 then 0.01 else cur - prob)
    ensures prob >= 0.0 && cur >= 0.01 ==> p >= 0.0
    ensures cur < 0.01 && cur - prob < 0.0 ==> p < 0.0
  {
    if cur - prob < 0.0 then
      var surplus := prob - cur + 0.01;
      prob - surplus
    else
      prob
  }

  /** Whether decrease_op mutates: only an exact landing on 0.0 is refused. */
  function DecreaseApplies(cur: real, prob: real): (b: bool)
    ensures b <==> cur != prob
    ensures b ==> cur - DecreaseAmount(cur, prob) > 0.0
  {
    cur - DecreaseAmount(cur, prob) > 0.0
  }

  /** The edge after `curr_op += delta` and then `curr_edge += 0.01`. */
  function ShiftOp(edge: seq<real>, op: nat, delta: real): (r: seq<real>)
    requires op < |edge|
    ensures |r| == |edge|
    ensures forall k {:trigger r[k]} :: 0 <= k < |edge| ==> r[k] == edge[k] + (if k == op then delta else 0.0) + Floor
  {
    var bumped := edge[op := edge[op] + delta];
    seq(|bumped|, k requires 0 <= k < |bumped| => bumped[k] + Floor)
  }

  function Sum(v: seq<real>): real {
    if |v| == 0 then 0.0 else Sum(v[..|v| - 1]) + v[|v| - 1]
  }

  lemma {:induction false} SumPointwise(r: seq<real>, v: seq<real>, op: nat, delta: real)
    requires |r| == |v| && op < |v|
    requires forall k :: 0 <= k < |v| ==> r[k] == v[k] + (if k == op then delta else 0.0) + Floor
    ensures Sum(r) == Sum(v) + delta + Floor * (|v| as real)
    decreases |v|
  {
    var n := |v| - 1;
    if op == n {
      SumShifted(r[..n], v[..n]);
    } else {
      SumPointwise(r[..n], v[..n], op, delta);
    }
  }

  lemma {:induction false} SumShifted(r: seq<real>, v: seq<real>)
    requires |r| == |v|
    requires forall k :: 0 <= k < |v| ==> r[k] == v[k] + Floor
    ensures Sum(r) == Sum(v) + Floor * (|v| as real)
    decreases |v|
  {
    if |v| > 0 {
      SumShifted(r[..|v| - 1], v[..|v| - 1]);
    }
  }

  /** Summing exp(x_i) / z is summing exp(x_i) and dividing by z. */
  lemma {:induction false} SumScaled(num: Numerics, v: seq<real>, z: real)
    requires z > 0.0
    ensures Sum(Scaled(num, v, z)) == SumExp(num, v) / z
  {
    if |v| > 0 {
      var n := |v| - 1;
      var s := Scaled(num, v, z);
      assert s[..n] == Scaled(num, v[..n], z);
      SumScaled(num, v[..n], z);
      assert SumExp(num, v[..n]) / z + num.exp(v[n]) / z == (SumExp(num, v[..n]) + num.exp(v[n])) / z;
    }
  }

  /** The weights of a normalised edge sum to one. */
  lemma SoftmaxSumsToOne(num: Numerics, v: seq<real>)
    requires |v| > 0
    ensures Sum(Softmax(num, v)) == 1.0
  {
    SumExpPositive(num, v);
    var z := SumExp(num, v);
    SumScaled(num, v, z);
    assert z / z == 1.0;
  }

  /**
   * A mutation does not renormalise: the edge's total grows by the shift
   * plus 0.01 per operation.
   */
  lemma ShiftOpSum(edge: seq<real>, op: nat, delta: real)
    requires op < |edge|
    ensures Sum(ShiftOp(edge, op, delta)) == Sum(edge) + delta + Floor * (|edge| as real)
  {
    SumPointwise(ShiftOp(edge, op, delta), edge, op, delta);
  }

  /**
   * The normalised edge after increase_op, or None when it refuses. An
   * applied increase leaves the target below 1.01 and, when the edge had
   * no negative weight and the request is non-negative, every weight at
   * least 0.01, so the logarithm of the write-back is taken of positive
   * values only.
   */
  function Increased(edge: seq<real>, op: nat, prob: real): (r: Option<seq<real>>)
    requires op < |edge|
    ensures r.Some? <==> edge[op] + prob != 1.0
    ensures r.Some? ==> |r.value| == |edge| && r.value[op] < 1.0 + Floor
    ensures r.Some? && prob >= 0.0 && (forall k :: 0 <= k < |edge| ==> edge[k] >= 0.0) ==>
      forall k :: 0 <= k < |edge| ==> r.value[k] >= Floor
  {
    var cur := edge[op];
    if IncreaseApplies(cur, prob) then Some(ShiftOp(edge, op, IncreaseAmount(cur, prob)))
    else None
  }

  /**
   * The normalised edge after decrease_op, or None when it refuses. An
   * applied decrease leaves the target above 0.01 and, when the edge had
   * no negative weight, every weight at least 0.01.
   */
  function Decreased(edge: seq<real>, op: nat, prob: real): (r: Option<seq<real>>)
    requires op < |edge|
    ensures r.Some? <==> edge[op] != prob
    ensures r.Some? ==> |r.value| == |edge| && r.value[op] > Floor
    ensures r.Some? && (forall k :: 0 <= k < |edge| ==> edge[k] >= 0.0) ==>
      forall k :: 0 <= k < |edge| ==> r.value[k] >= Floor
  {
    var cur := edge[op];
    if DecreaseApplies(cur, prob) then Some(ShiftOp(edge, op, -DecreaseAmount(cur, prob)))
    else None
  }

  /** The softmax of the write-back of e gives back e divided by its (positive) sum. */
  ghost predicate WriteBackRestores(num: Numerics, e: seq<real>) {
    Sum(e) > 0.0 && forall i :: 0 <= i < |e| ==> Softmax(num, InverseSoftmax(num, e))[i] == e[i] / Sum(e)
  }

  /**
   * An applied mutation of a normalised edge survives the write-back: the
   * next normalisation yields the mutated edge scaled to sum 1.
   */
  lemma MutationRestored(num: Numerics, edge: seq<real>, op: nat, prob: real)
    requires ExpInvertsLog(num) && op < |edge| && forall k :: 0 <= k < |edge| ==> edge[k] >= 0.0
    ensures prob >= 0.0 && Increased(edge, op, prob).Some? ==> WriteBackRestores(num, Increased(edge, op, prob).value)
    ensures Decreased(edge, op, prob).Some? ==> WriteBackRestores(num, Decreased(edge, op, prob).value)
  {
    if prob >= 0.0 && Increased(edge, op, prob).Some? {
      SoftmaxOfInverse(num, Increased(edge, op, prob).value);
    }
    if Decreased(edge, op, prob).Some? {
      SoftmaxOfInverse(num, Decreased(edge, op, prob).value);
    }
  }

  /** An increase of 0.3 on an op already at 0.99 applies with amount 0: only the floor moves it. */
  lemma IncreaseAtCap()
    ensures IncreaseAmount(0.99, DefaultProb) == 0.0 && IncreaseApplies(0.99, DefaultProb)
  {
  }

  /** A decrease of 0.3 on an op at 0.0 applies, and raises it to 0.01 before the floor. */
  lemma DecreaseAtZero()
    ensures DecreaseAmount(0.0, DefaultProb) == -0.01 && DecreaseApplies(0.0, DefaultProb)
  {
  }
}
