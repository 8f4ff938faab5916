/**
 * The decision rule of `predict_sentiment` (api/index.py:77-78, 163-175): a
 * linear score `coef . vector + intercept`, the logistic sigmoid of it as the
 * probability of the positive class, and a strict `> 0.5` test. `np.exp` is a
 * parameter, since floating point is not modelled.
 */
module Scorer {
  import opened Wrappers
  import opened Faults
  import opened Vectorizer

  datatype Sentiment = Positive | Negative

  /** The label and the probability reported for it. */
  datatype Decision = Decision(sentiment: Sentiment, confidence: real)

  // ---------------------------------------------------------------- the exponential

  /** What every `exp` satisfies: its values are positive. */
  ghost predicate ExpPositive(exp: real -> real)
  {
    forall x :: exp(x) > 0.0
  }

  /** The laws of `exp` the sign argument needs: positive, strictly increasing, and 1 at 0. */
  ghost predicate ExpLaw(exp: real -> real)
  {
    ExpPositive(exp)
    && (forall x, y :: x < y ==> exp(x) < exp(y))
    && exp(0.0) == 1.0
  }

  // ---------------------------------------------------------------- the score

  /** `np.dot` of two vectors of equal length: 0 when every position has a zero on one side. */
  function Dot(a: seq<real>, b: seq<real>): (r: real)
    requires |a| == |b|
    ensures (forall i :: 0 <= i < |a| ==> a[i] == 0.0 || b[i] == 0.0) ==> r == 0.0
  {
    if a == [] then 0.0
    else
      assert forall i :: 0 <= i < |a| - 1 ==> a[1..][i] == a[i + 1] && b[1..][i] == b[i + 1];
      a[0] * b[0] + Dot(a[1..], b[1..])
  }

  /**
   * The linear score `coef . vector + intercept`. numpy refuses vectors of
   * different lengths; inside the `try` that becomes a 500 response.
   */
  function Score(coef: seq<real>, intercept: real, vector: seq<real>): (r: Result<real, Fault>)
    ensures r.Failure? <==> |coef| != |vector|
    ensures r.Failure? ==> r.error == DimensionMismatch
  {
    if |coef| != |vector| then Failure(DimensionMismatch) else Success(Dot(coef, vector) + intercept)
  }

  /** The zero vector (a review with no known word) scores exactly the intercept. */
  lemma ZeroVectorScoresIntercept(coef: seq<real>, intercept: real)
    ensures Score(coef, intercept, Zeros(|coef|)) == Success(intercept)
  {
  }

  // ---------------------------------------------------------------- the sigmoid

  lemma QuotientBelowOne(d: real)
    requires d > 1.0
    ensures 0.0 < 1.0 / d < 1.0
  {
  }

  /** `1 / (1 + exp(-x))`: a probability strictly between 0 and 1. */
  function Sigmoid(x: real, exp: real -> real): (p: real)
    requires exp(-x) > 0.0
    ensures 0.0 < p < 1.0
  {
    QuotientBelowOne(1.0 + exp(-x));
    1.0 / (1.0 + exp(-x))
  }

  /** The sigmoid exceeds one half exactly when `exp(-x)` is below 1. */
  lemma {:induction false} SigmoidAboveHalf(x: real, exp: real -> real)
    requires exp(-x) > 0.0
    ensures Sigmoid(x, exp) > 0.5 <==> exp(-x) < 1.0
    ensures Sigmoid(x, exp) == 0.5 <==> exp(-x) == 1.0
  {
    var e := exp(-x);
    var d := 1.0 + e;
    var p := 1.0 / d;
    assert p * d == 1.0;
    if e < 1.0 {
      assert p > 0.5;
    } else if e == 1.0 {
      assert d == 2.0;
    } else {
      assert p < 0.5;
    }
  }

  // ---------------------------------------------------------------- the decision

  /** The probability the model gives label `s` when the positive class has probability `p`. */
  function ProbabilityOf(s: Sentiment, p: real): real
  {
    match s
    case Positive => p
    case Negative => 1.0 - p
  }

  /**
   * `prob_pos > 0.5` gives Positive with confidence `prob_pos`, anything else
   * Negative with confidence `1 - prob_pos`: the reported confidence is the
   * probability of the label chosen, and that label is the more likely one,
   * with the tie going to Negative.
   */
  function Decide(p: real): (d: Decision)
    ensures d.sentiment == Positive <==> p > 0.5
    ensures d.confidence == ProbabilityOf(d.sentiment, p)
    ensures forall s :: ProbabilityOf(s, p) <= d.confidence
    ensures d.confidence >= 0.5
  {
    if p > 0.5 then Decision(Positive, p) else Decision(Negative, 1.0 - p)
  }

  /** For a probability strictly inside (0, 1) the confidence lies in [0.5, 1), and is 0.5 only at the tie. */
  lemma ConfidenceRange(p: real)
    requires 0.0 < p < 1.0
    ensures 0.5 <= Decide(p).confidence < 1.0
    ensures Decide(p).confidence == 0.5 <==> p == 0.5
  {
  }

  /** `prob_pos == 0.5` is reported as Negative with confidence 0.5. */
  lemma TieIsNegative()
    ensures Decide(0.5) == Decision(Negative, 0.5)
  {
  }

  /**
   * Scoring a vector: the linear score, its sigmoid, and the decision. A length
   * mismatch between weights and vector is the only failure.
   */
  function Classify(coef: seq<real>, intercept: real, vector: seq<real>, exp: real -> real)
    : (r: Result<Decision, Fault>)
    requires ExpPositive(exp)
    ensures r.Failure? <==> |coef| != |vector|
    ensures r.Success? ==> 0.5 <= r.value.confidence < 1.0
  {
    match Score(coef, intercept, vector)
    case Failure(e) => Failure(e)
    case Success(logit) =>
      var p := Sigmoid(logit, exp);
      ConfidenceRange(p);
      Success(Decide(p))
  }

  /** With a genuine exponential the label is Positive exactly when the score is positive. */
  lemma PositiveIffScorePositive(x: real, exp: real -> real)
    requires ExpLaw(exp)
    ensures Decide(Sigmoid(x, exp)).sentiment == Positive <==> x > 0.0
    ensures x == 0.0 ==> Decide(Sigmoid(x, exp)) == Decision(Negative, 0.5)
  {
    SigmoidAboveHalf(x, exp);
    if x > 0.0 {
      assert exp(-x) < exp(0.0);
    } else if x < 0.0 {
      assert exp(0.0) < exp(-x);
    }
  }
}
