/**
 * The reward remap: an accuracy is mapped onto a piecewise-linear scale
 * pivoted at the running baseline accuracy b. Accuracies above b go
 * linearly from [b, 1] onto [0, 4], accuracies below b from [0, b] onto
 * [-0.1, 0], and b itself onto exactly 0.
 */
module Reward {
  import opened Wrappers

  /** `b1 + (s - a1) * (b2 - b1) / (a2 - a1)`: [a1, a2] mapped linearly onto [b1, b2]. */
  function Remap(s: real, a1: real, a2: real, b1: real, b2: real): (r: Result<real, Error>)
    ensures r.Err? <==> a2 - a1 == 0.0
    ensures r.Err? ==> r.error == ZeroDivisionError
  {
    if a2 - a1 == 0.0 then Err(ZeroDivisionError)
    else Ok(b1 + ((s - a1) * (b2 - b1)) / (a2 - a1))
  }

  /**
   * The remap is linear from [a1, a2] onto [b1, b2]: a1 goes to b1, a2 to
   * b2, and a point between the ends lands between their images.
   */
  lemma RemapEnds(s: real, a1: real, a2: real, b1: real, b2: real)
    requires a1 < a2
    ensures Remap(a1, a1, a2, b1, b2) == Ok(b1)
    ensures Remap(a2, a1, a2, b1, b2) == Ok(b2)
    ensures a1 <= s <= a2 && b1 <= b2 ==> b1 <= Remap(s, a1, a2, b1, b2).value <= b2
  {
    assert ((a2 - a1) * (b2 - b1)) / (a2 - a1) == b2 - b1;
    if a1 <= s <= a2 && b1 <= b2 {
      var t := (s - a1) * (b2 - b1);
      assert 0.0 <= t <= (a2 - a1) * (b2 - b1);
      DivMonotone(0.0, t, a2 - a1);
      DivMonotone(t, (a2 - a1) * (b2 - b1), a2 - a1);
    }
  }

  /**
   * The reward for `accuracy` against `baseline`. The only failures are the
   * two divisions by a zero-width segment, neither of which the source
   * guards.
   */
  function ScaleReward(baseline: real, accuracy: real): (r: Result<real, Error>)
    ensures r.Err? <==> (baseline == 1.0 && accuracy > 1.0) || (baseline == 0.0 && accuracy < 0.0)
    ensures r.Err? ==> r.error == ZeroDivisionError
    ensures accuracy == baseline ==> r == Ok(0.0)
    ensures r.Ok? && baseline < accuracy && baseline < 1.0 ==>
      0.0 < r.value && (accuracy <= 1.0 ==> r.value <= 4.0)
    ensures r.Ok? && accuracy < baseline && 0.0 < baseline ==>
      r.value < 0.0 && (0.0 <= accuracy ==> -0.1 <= r.value)
  {
    if baseline == accuracy then Ok(0.0)
    else if baseline <= accuracy then
      var r := Remap(accuracy, baseline, 1.0, 0.0, 4.0);
      if r.Ok? && baseline < 1.0 then
        UpperSegment(baseline, accuracy);
        r
      else r
    else
      var r := Remap(accuracy, 0.0, baseline, -0.1, 0.0);
      if r.Ok? && 0.0 < baseline then
        LowerSegment(baseline, accuracy);
        r
      else r
  }

  lemma UpperSegment(b: real, acc: real)
    requires b < acc && b < 1.0
    ensures 0.0 < (acc - b) * 4.0 / (1.0 - b)
    ensures acc <= 1.0 ==> (acc - b) * 4.0 / (1.0 - b) <= 4.0
  {
    var d := 1.0 - b;
    assert (acc - b) * 4.0 / d == 4.0 * ((acc - b) / d);
    if acc <= 1.0 {
      assert (acc - b) / d <= d / d;
    }
  }

  lemma LowerSegment(b: real, acc: real)
    requires acc < b && 0.0 < b
    ensures -0.1 + acc * 0.1 / b < 0.0
    ensures 0.0 <= acc ==> -0.1 <= -0.1 + acc * 0.1 / b
  {
    assert acc * 0.1 / b == 0.1 * (acc / b);
    assert acc / b < b / b;
  }

  /** With baseline and accuracy in [0, 1] the remap never fails and stays in the reward range [-0.1, 4]. */
  lemma RewardInRange(baseline: real, accuracy: real)
    requires 0.0 <= baseline <= 1.0 && 0.0 <= accuracy <= 1.0
    ensures ScaleReward(baseline, accuracy).Ok?
    ensures -0.1 <= ScaleReward(baseline, accuracy).value <= 4.0
  {
  }

  lemma DivMonotone(x: real, y: real, d: real)
    requires 0.0 < d && x <= y
    ensures x / d <= y / d
  {
    assert x / d * d == x && y / d * d == y;
  }

  lemma UpperSlope(b: real, x: real, y: real)
    requires b < 1.0 && x <= y
    ensures (x - b) * 4.0 / (1.0 - b) <= (y - b) * 4.0 / (1.0 - b)
  {
    DivMonotone((x - b) * 4.0, (y - b) * 4.0, 1.0 - b);
  }

  lemma LowerSlope(b: real, x: real, y: real)
    requires 0.0 < b && x <= y
    ensures x * 0.1 / b <= y * 0.1 / b
  {
    DivMonotone(x * 0.1, y * 0.1, b);
  }

  /** For a fixed baseline in [0, 1], a higher accuracy never earns a lower reward. */
  lemma {:induction false} RewardMonotone(baseline: real, acc1: real, acc2: real)
    requires 0.0 <= baseline <= 1.0
    requires 0.0 <= acc1 <= acc2 <= 1.0
    ensures ScaleReward(baseline, acc1).Ok? && ScaleReward(baseline, acc2).Ok?
    ensures ScaleReward(baseline, acc1).value <= ScaleReward(baseline, acc2).value
  {
    var b := baseline;
    var r1, r2 := ScaleReward(b, acc1), ScaleReward(b, acc2);
    if b < acc1 {
      assert r1 == Ok(0.0 + ((acc1 - b) * (4.0 - 0.0)) / (1.0 - b));
      assert r2 == Ok(0.0 + ((acc2 - b) * (4.0 - 0.0)) / (1.0 - b));
      UpperSlope(b, acc1, acc2);
    } else if acc2 < b {
      assert r1 == Ok(-0.1 + ((acc1 - 0.0) * (0.0 - -0.1)) / (b - 0.0));
      assert r2 == Ok(-0.1 + ((acc2 - 0.0) * (0.0 - -0.1)) / (b - 0.0));
      LowerSlope(b, acc1, acc2);
    }
  }

  /** Baseline 0.5 and accuracy 0.75: (0.75 - 0.5) * 4 / (1 - 0.5) = 2. */
  lemma HalfwayExample()
    ensures ScaleReward(0.5, 0.75) == Ok(2.0)
  {
  }
}
