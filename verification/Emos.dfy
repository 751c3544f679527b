/**
 * internal/emos/compute.go: the estimated MOS of a session, over the reals. The polynomial is the one of
 * Annex B of ITU-T Recommendation G.107; it is not monotone, the score is.
 */
module Emos {
  /** Classes in order of quality. */
  datatype Outcome = Failed | Degraded | Success

  function Rank(o: Outcome): nat {
    match o case Failed => 0 case Degraded => 1 case Success => 2
  }

  datatype Score = Score(emos: real, outcome: Outcome)

  const DefaultLossCoeff: real := 7.5

  /** Packet-loss impairment; the rate is a fraction. */
  function LossImpairment(lossRate: real, lossCoeff: real): real {
    var lossPct := lossRate * 100.0;
    if lossPct < 1.0 then 0.0
    else if lossPct < 5.0 then (lossPct - 1.0) * 3.0
    else 12.0 + (lossPct - 5.0) * lossCoeff
  }

  /** Round-trip impairment. */
  function DelayImpairment(rttMs: real): real {
    if rttMs < 50.0 then 0.0
    else if rttMs < 250.0 then (rttMs - 50.0) * 0.04
    else 8.0 + (rttMs - 250.0) * 0.025
  }

  function Clamp(x: real, lo: real, hi: real): real {
    if x < lo then lo else if x > hi then hi else x
  }

  function Cubic(r: real): real {
    1.0 + 0.035 * r + r * (r - 60.0) * (100.0 - r) * 0.000007
  }

  function Rating(lossRate: real, rttMs: real, lossCoeff: real): real {
    93.2 - LossImpairment(lossRate, lossCoeff) - DelayImpairment(rttMs)
  }

  function Mos(r: real): real {
    Clamp(Cubic(Clamp(r, 0.0, 100.0)), 1.0, 5.0)
  }

  function Classify(mos: real): Outcome {
    if mos >= 3.5 then Success else if mos >= 2.0 then Degraded else Failed
  }

  function ComputeEMOS(lossRate: real, rttMs: real, lossCoeff: real): Score {
    var mos := Mos(Rating(lossRate, rttMs, lossCoeff));
    Score(mos, Classify(mos))
  }

  // ----- the cubic -------------------------------------------------------------------

  /** What multiplies r in the cubic, apart from a positive constant. */
  function Bracket(r: real): real {
    160.0 * r - r * r - 1000.0
  }

  lemma {:induction false} CubicFactors(r: real)
    ensures Cubic(r) - 1.0 == 0.000007 * (r * Bracket(r))
  {
  }

  /** On its own the cubic is not monotone: it falls before it rises. */
  lemma {:induction false} CubicDips()
    ensures Cubic(1.0) < Cubic(0.0) < Cubic(100.0)
  {
  }

  lemma {:induction false} NonnegativeProduct(a: real, b: real)
    requires a >= 0.0 && b >= 0.0
    ensures a * b >= 0.0
  {
  }

  lemma {:induction false} SquareBound(x: real)
    requires 6.0 <= x <= 100.0
    ensures x * x <= 106.0 * x - 600.0
  {
    NonnegativeProduct(x - 6.0, 100.0 - x);
    assert (x - 6.0) * (100.0 - x) == 106.0 * x - 600.0 - x * x;
  }

  lemma {:induction false} ProductBound(x: real, y: real)
    ensures 2.0 * (x * y) <= x * x + y * y
  {
  }

  /** The difference quotient of r * Bracket(r) is positive from 6 to 100. */
  lemma {:induction false} QuotientPositive(x: real, y: real)
    requires 6.0 <= x <= 100.0 && 6.0 <= y <= 100.0
    ensures 160.0 * (x + y) - (x * x + x * y + y * y) - 1000.0 >= 800.0 + (x + y)
  {
    SquareBound(x);
    SquareBound(y);
    ProductBound(x, y);
  }

  /** From 6 on the cubic rises. */
  lemma {:induction false} CubicRises(x: real, y: real)
    requires 6.0 <= x <= y <= 100.0
    ensures Cubic(x) <= Cubic(y) && (x < y ==> Cubic(x) < Cubic(y))
  {
    var cx, cy, wx, wy := Cubic(x), Cubic(y), x * Bracket(x), y * Bracket(y);
    assert cx - 1.0 == 0.000007 * wx by { CubicFactors(x); }
    assert cy - 1.0 == 0.000007 * wy by { CubicFactors(y); }
    assert wx <= wy && (x < y ==> wx < wy) by { WeightedRises(x, y); }
  }

  lemma {:induction false} WeightedRises(x: real, y: real)
    requires 6.0 <= x <= y <= 100.0
    ensures x * Bracket(x) <= y * Bracket(y) && (x < y ==> x * Bracket(x) < y * Bracket(y))
  {
    var quotient := 160.0 * (x + y) - (x * x + x * y + y * y) - 1000.0;
    var product := (y - x) * quotient;
    assert quotient > 0.0 by { QuotientPositive(x, y); }
    assert y * Bracket(y) - x * Bracket(x) == product by { DifferenceFactors(x, y); }
    assert product >= 0.0 && (x < y ==> product > 0.0) by { PositiveProduct(y - x, quotient); }
  }

  lemma {:induction false} DifferenceFactors(x: real, y: real)
    ensures y * Bracket(y) - x * Bracket(x) == (y - x) * (160.0 * (x + y) - (x * x + x * y + y * y) - 1000.0)
  {
  }

  lemma {:induction false} PositiveProduct(a: real, b: real)
    requires a >= 0.0 && b > 0.0
    ensures a * b >= 0.0 && (a > 0.0 ==> a * b > 0.0)
  {
  }

  /** Below the root of the bracket the score is clamped to one, and nowhere else. */
  lemma {:induction false} FloorExactlyWhen(r: real)
    ensures Mos(r) == 1.0 <==> r <= 0.0 || (r <= 80.0 && Bracket(r) <= 0.0)
    ensures Mos(r) > 1.0 ==> r > 6.0
  {
    if 0.0 < r <= 6.0 {
      assert r * (154.0 - r) <= 6.0 * 154.0;
      assert Bracket(r) < 0.0;
    }
    if 80.0 < r <= 100.0 {
      SquareBound(r);
      assert Bracket(r) > 0.0;
    }
    if 0.0 < r <= 100.0 {
      CubicFactors(r);
      SignOfProduct(r, Bracket(r));
    } else {
      assert Cubic(0.0) == 1.0 && Cubic(100.0) == 4.5;
    }
  }

  lemma {:induction false} SignOfProduct(a: real, b: real)
    requires a > 0.0
    ensures a * b <= 0.0 <==> b <= 0.0
  {
  }

  /** The clamp at one removes the dip: the score never falls as the rating rises. */
  lemma {:induction false} MosMonotone(x: real, y: real)
    requires x <= y
    ensures Mos(x) <= Mos(y)
  {
    FloorExactlyWhen(x);
    if Mos(x) > 1.0 {
      CubicRises(Clamp(x, 0.0, 100.0), Clamp(y, 0.0, 100.0));
    }
  }

  /** The clamp at five is never reached, and 4.5 only by a rating that is clamped to 100. */
  lemma {:induction false} MosBounds(r: real)
    ensures 1.0 <= Mos(r) <= 4.5 && Cubic(Clamp(r, 0.0, 100.0)) <= 4.5
    ensures Mos(r) < 4.5 <==> r < 100.0
  {
    var c := Clamp(r, 0.0, 100.0);
    assert Cubic(100.0) == 4.5;
    FloorExactlyWhen(r);
    if c >= 6.0 {
      CubicRises(c, 100.0);
    } else {
      if Mos(r) > 1.0 { assert false; }
    }
  }

  // ----- the score -------------------------------------------------------------------

  /** A lower rating never gives a better score or class. */
  lemma {:induction false} LowerRating(l1: real, t1: real, k1: real, l2: real, t2: real, k2: real)
    requires Rating(l2, t2, k2) <= Rating(l1, t1, k1)
    ensures NoBetter(ComputeEMOS(l2, t2, k2), ComputeEMOS(l1, t1, k1))
  {
    MosMonotone(Rating(l2, t2, k2), Rating(l1, t1, k1));
  }

  ghost predicate NoBetter(a: Score, b: Score) {
    a.emos <= b.emos && Rank(a.outcome) <= Rank(b.outcome)
  }

  /** More delay is never better, whatever the loss and the coefficient. */
  lemma {:induction false} MonotoneInRtt(lossRate: real, lossCoeff: real, t1: real, t2: real)
    requires t1 <= t2
    ensures NoBetter(ComputeEMOS(lossRate, t2, lossCoeff), ComputeEMOS(lossRate, t1, lossCoeff))
  {
    LowerRating(lossRate, t1, lossCoeff, lossRate, t2, lossCoeff);
  }

  /** A larger coefficient is never better, whatever the loss. */
  lemma {:induction false} MonotoneInCoeff(lossRate: real, rttMs: real, k1: real, k2: real)
    requires k1 <= k2
    ensures NoBetter(ComputeEMOS(lossRate, rttMs, k2), ComputeEMOS(lossRate, rttMs, k1))
  {
    var over := lossRate * 100.0 - 5.0;
    if over >= 0.0 {
      ScaleMonotone(over, k1, k2);
    }
    LowerRating(lossRate, rttMs, k1, lossRate, rttMs, k2);
  }

  lemma {:induction false} ScaleMonotone(n: real, a: real, b: real)
    requires n >= 0.0 && a <= b
    ensures n * a <= n * b && a * n <= b * n
  {
  }

  lemma {:induction false} ImpairmentMonotone(lossCoeff: real, l1: real, l2: real)
    requires lossCoeff >= 0.0 && l1 <= l2
    ensures 0.0 <= LossImpairment(l1, lossCoeff) <= LossImpairment(l2, lossCoeff)
  {
    var o1, o2 := l1 * 100.0 - 5.0, l2 * 100.0 - 5.0;
    assert o1 >= 0.0 ==> o1 * lossCoeff >= 0.0 by { if o1 >= 0.0 { NonnegativeProduct(o1, lossCoeff); } }
    assert o2 >= 0.0 ==> o2 * lossCoeff >= 0.0 by { if o2 >= 0.0 { NonnegativeProduct(o2, lossCoeff); } }
    assert o2 * lossCoeff - o1 * lossCoeff >= 0.0 by {
      NonnegativeProduct(o2 - o1, lossCoeff);
      assert (o2 - o1) * lossCoeff == o2 * lossCoeff - o1 * lossCoeff;
    }
  }

  lemma {:induction false} MonotoneInLoss(rttMs: real, lossCoeff: real, l1: real, l2: real)
    requires lossCoeff >= 0.0 && l1 <= l2
    ensures NoBetter(ComputeEMOS(l2, rttMs, lossCoeff), ComputeEMOS(l1, rttMs, lossCoeff))
  {
    ImpairmentMonotone(lossCoeff, l1, l2);
    LowerRating(l1, rttMs, lossCoeff, l2, rttMs, lossCoeff);
  }

  /** More loss is never better. */
  ghost predicate LossNeverHelps(lossCoeff: real) {
    forall l1: real, l2: real, t: real | 0.0 <= l1 <= l2 ::
      NoBetter(ComputeEMOS(l2, t, lossCoeff), ComputeEMOS(l1, t, lossCoeff))
  }

  /** The score falls with loss exactly for the coefficients that are not negative. */
  lemma {:induction false} LossNeverHelpsExactlyWhen(lossCoeff: real)
    ensures LossNeverHelps(lossCoeff) <==> lossCoeff >= 0.0
  {
    if lossCoeff >= 0.0 {
      forall l1: real, l2: real, t: real | 0.0 <= l1 <= l2
        ensures NoBetter(ComputeEMOS(l2, t, lossCoeff), ComputeEMOS(l1, t, lossCoeff))
      {
        MonotoneInLoss(t, lossCoeff, l1, l2);
      }
    } else {
      var more := MoreLossHelps(lossCoeff);
      assert !NoBetter(ComputeEMOS(more, 0.0, lossCoeff), ComputeEMOS(0.05, 0.0, lossCoeff));
    }
  }

  /** A negative coefficient rewards the loss that takes one point off the impairment at five percent. */
  lemma {:induction false} MoreLossHelps(lossCoeff: real) returns (more: real)
    requires lossCoeff < 0.0
    ensures more > 0.05 && ComputeEMOS(more, 0.0, lossCoeff).emos > ComputeEMOS(0.05, 0.0, lossCoeff).emos
  {
    var step := 1.0 / (0.0 - lossCoeff);
    more := (5.0 + step) / 100.0;
    assert step > 0.0 && step * lossCoeff == -1.0;
    assert more * 100.0 - 5.0 == step;
    assert LossImpairment(more, lossCoeff) == 11.0;
    assert LossImpairment(0.05, lossCoeff) == 12.0;
    CubicRises(81.2, 82.2);
    MosBounds(82.2);
    FloorExactlyWhen(81.2);
  }

  /** The class is read off the score: from 3.5 a success, from 2.0 degraded, below that failed. */
  lemma {:induction false} ClassExactlyWhen(lossRate: real, rttMs: real, lossCoeff: real)
    ensures var s := ComputeEMOS(lossRate, rttMs, lossCoeff);
      && (s.outcome == Success <==> s.emos >= 3.5) && (s.outcome == Failed <==> s.emos < 2.0)
      && s.emos == Mos(93.2 - LossImpairment(lossRate, lossCoeff) - DelayImpairment(rttMs))
  {
  }

  /** Between its clamps the score is the polynomial of the recommendation. */
  lemma {:induction false} MosIsCubic(r: real)
    ensures Mos(r) > 1.0 && r <= 100.0 ==> Mos(r) == 1.0 + 0.000007 * (r * (160.0 * r - r * r - 1000.0))
  {
    if Mos(r) > 1.0 && r <= 100.0 {
      MosBounds(r);
      FloorExactlyWhen(r);
      CubicFactors(r);
    }
  }

  /** With a coefficient that is not negative neither upper clamp is reached. */
  lemma {:induction false} ScoreRange(lossRate: real, rttMs: real, lossCoeff: real)
    requires lossCoeff >= 0.0
    ensures Rating(lossRate, rttMs, lossCoeff) <= 93.2
    ensures 1.0 <= ComputeEMOS(lossRate, rttMs, lossCoeff).emos < 4.5
  {
    ImpairmentMonotone(lossCoeff, lossRate, lossRate);
    MosBounds(Rating(lossRate, rttMs, lossCoeff));
  }

  /** All three together: worse inputs never give a better score or class. */
  lemma {:induction false} WorseNeverBetter(l1: real, t1: real, k1: real, l2: real, t2: real, k2: real)
    requires l1 <= l2 && t1 <= t2 && 0.0 <= k1 <= k2
    ensures NoBetter(ComputeEMOS(l2, t2, k2), ComputeEMOS(l1, t1, k1))
  {
    MonotoneInCoeff(l2, t2, k1, k2);
    MonotoneInLoss(t2, k1, l1, l2);
    MonotoneInRtt(l1, k1, t1, t2);
  }

  // ----- the impairments -------------------------------------------------------------

  /** How far x is past the start of a section of the given width, at most to its end. */
  function Ramp(x: real, start: real, width: real): real {
    Clamp(x - start, 0.0, width)
  }

  /** How far x is past start, without end. */
  function Beyond(x: real, start: real): real {
    if x < start then 0.0 else x - start
  }

  /**
   * The cases join without a jump: each impairment is a sum of ramps, 3 per percent of loss from 1 to 5 and
   * the coefficient after that, 0.04 per millisecond from 50 to 250 and 0.025 after that.
   */
  lemma {:induction false} ImpairmentsAreRamps(lossRate: real, rttMs: real, lossCoeff: real)
    ensures LossImpairment(lossRate, lossCoeff)
         == 3.0 * Ramp(100.0 * lossRate, 1.0, 4.0) + Beyond(100.0 * lossRate, 5.0) * lossCoeff
    ensures DelayImpairment(rttMs) == 0.04 * Ramp(rttMs, 50.0, 200.0) + 0.025 * Beyond(rttMs, 250.0)
    ensures lossRate <= 0.01 && rttMs <= 50.0 ==> Rating(lossRate, rttMs, lossCoeff) == 93.2
  {
  }

  /** The calibration points of the default coefficient. */
  lemma {:induction false} ReferencePoints()
    ensures var s := ComputeEMOS(0.0, 20.0, DefaultLossCoeff); 4.3 <= s.emos <= 4.5 && s.outcome == Success
    ensures var s := ComputeEMOS(0.10, 100.0, DefaultLossCoeff); 2.1 <= s.emos <= 2.3
    ensures ComputeEMOS(0.10, 50.0, DefaultLossCoeff).outcome == Degraded
    ensures ComputeEMOS(0.15, 0.0, DefaultLossCoeff) == Score(1.0, Failed)
    ensures ComputeEMOS(0.30, 300.0, DefaultLossCoeff) == Score(1.0, Failed)
  {
  }
}
