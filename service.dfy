/**
 * The request path of the inference service (api/index.py:24-40, 144-192):
 * a lazily loaded parameter bundle, and `predict_sentiment`, which cleans the
 * review, vectorises it, scores it and, for a Negative review, annotates pain
 * points. Whether the parameter file exists and what it holds are inputs; the
 * file read and JSON decoding are not modelled.
 */
module Service {
  import opened Wrappers
  import opened Faults
  import opened Seqs
  import opened TextSteps
  import opened Cleaner
  import opened Tokenizer
  import opened Vectorizer
  import opened Scorer
  import opened PainPoints

  /** The exported model: vocabulary, IDF weights, the coefficient row and the intercept. */
  datatype Bundle = Bundle(
    vocabulary: map<string, nat>,
    idf: seq<real>,
    coefficients: seq<real>,
    intercept: real)

  /** The response body: the label, its confidence and the pain points found. */
  datatype Prediction = Prediction(sentiment: Sentiment, confidence: real, painPoints: seq<string>)

  // ---------------------------------------------------------------- loading

  /**
   * `load_params` as a state transition: a loaded bundle is kept as it is;
   * otherwise the file is read when it exists and the state stays unloaded
   * when it does not.
   */
  function AfterLoad(current: Option<Bundle>, fileExists: bool, file: Bundle): (next: Option<Bundle>)
    ensures current.Some? ==> next == current
    ensures current.None? ==> (next.Some? <==> fileExists)
    ensures next.Some? && current.None? ==> next.value == file
  {
    if current.Some? then current else if fileExists then Some(file) else None
  }

  /** The state after a series of load attempts, each with its own view of the file. */
  function AfterLoads(current: Option<Bundle>, attempts: seq<(bool, Bundle)>): Option<Bundle>
    decreases |attempts|
  {
    if attempts == [] then current
    else AfterLoads(AfterLoad(current, attempts[0].0, attempts[0].1), attempts[1..])
  }

  /** Once a bundle is loaded, no later attempt replaces it, whatever the file holds then. */
  lemma {:induction false} LoadedIsPermanent(b: Bundle, attempts: seq<(bool, Bundle)>)
    ensures AfterLoads(Some(b), attempts) == Some(b)
  {
    if attempts != [] {
      LoadedIsPermanent(b, attempts[1..]);
    }
  }

  /** Starting unloaded, the bundle in use is the one read by the first attempt that found the file. */
  lemma {:induction false} FirstFoundWins(attempts: seq<(bool, Bundle)>, k: nat)
    requires k < |attempts| && attempts[k].0
    requires forall j :: 0 <= j < k ==> !attempts[j].0
    ensures AfterLoads(None, attempts) == Some(attempts[k].1)
  {
    if k == 0 {
      LoadedIsPermanent(attempts[0].1, attempts[1..]);
    } else {
      FirstFoundWins(attempts[1..], k - 1);
    }
  }

  /** With the file missing every time, the service never leaves the unloaded state. */
  lemma {:induction false} NeverFoundStaysUnloaded(attempts: seq<(bool, Bundle)>)
    requires forall j :: 0 <= j < |attempts| ==> !attempts[j].0
    ensures AfterLoads(None, attempts) == None
  {
    if attempts != [] {
      NeverFoundStaysUnloaded(attempts[1..]);
    }
  }

  // ---------------------------------------------------------------- prediction

  /** The tokens the vectoriser sees for a review: those of its cleaned text. */
  function ReviewTokens(review: string): seq<string>
  {
    Tokenize(CleanTextSimple(Str(review)))
  }

  /**
   * `predict_sentiment` with a loaded bundle. It fails when a counted
   * vocabulary index is not a valid position or when the coefficient row and
   * the vector differ in length; otherwise the confidence lies in [0.5, 1) and
   * pain points are reported only for a Negative review.
   */
  function Predict(b: Bundle, review: string, exp: real -> real, sqrt: real -> real)
    : (r: Result<Prediction, Fault>)
    requires ExpPositive(exp)
    ensures r.Failure? <==>
      (HasKnownToken(ReviewTokens(review), b.vocabulary) && !IndicesFit(ReviewTokens(review), b.vocabulary, b.idf))
      || |b.coefficients| != |b.vocabulary|
    ensures r.Success? ==> 0.5 <= r.value.confidence < 1.0
    ensures r.Success? && r.value.sentiment == Positive ==> r.value.painPoints == []
    ensures r.Success? ==> IsSubsequence(r.value.painPoints, PAIN_POINTS)
  {
    match Tfidf(ReviewTokens(review), b.vocabulary, b.idf, sqrt)
    case Failure(e) => Failure(e)
    case Success(vector) =>
      match Classify(b.coefficients, b.intercept, vector, exp)
      case Failure(e) => Failure(e)
      case Success(d) => Success(Prediction(d.sentiment, d.confidence, PainPointsFor(review, d.sentiment)))
  }

  /** The answer to a request in a given load state: unloaded means `NotLoaded` (HTTP 500). */
  function Respond(params: Option<Bundle>, review: string, exp: real -> real, sqrt: real -> real)
    : (r: Result<Prediction, Fault>)
    requires ExpPositive(exp)
    ensures params.None? ==> r == Failure(NotLoaded)
    ensures r.Success? ==> params.Some?
    ensures r.Failure? && r.error == NotLoaded ==> params.None?
    ensures r.Failure? ==> r.error.Status() == 500
  {
    if params.None? then Failure(NotLoaded) else Predict(params.value, review, exp, sqrt)
  }

  /**
   * A review with no word from the vocabulary gets the zero vector, so the
   * intercept alone decides: Positive exactly when it is positive.
   */
  lemma UnknownWordsDecidedByIntercept(b: Bundle, review: string, exp: real -> real, sqrt: real -> real)
    requires ExpLaw(exp)
    requires !HasKnownToken(ReviewTokens(review), b.vocabulary)
    requires |b.coefficients| == |b.vocabulary|
    ensures Predict(b, review, exp, sqrt).Success?
    ensures Predict(b, review, exp, sqrt).value.sentiment == Positive <==> b.intercept > 0.0
  {
    ZeroVectorScoresIntercept(b.coefficients, b.intercept);
    PositiveIffScorePositive(b.intercept, exp);
  }

  /** A Negative answer reports exactly the catalog phrases found in the lowercased review, each once. */
  lemma NegativeReportsFoundPhrases(b: Bundle, review: string, exp: real -> real, sqrt: real -> real)
    requires ExpPositive(exp)
    requires Predict(b, review, exp, sqrt).Success?
    requires Predict(b, review, exp, sqrt).value.sentiment == Negative
    ensures forall p :: p in Predict(b, review, exp, sqrt).value.painPoints <==>
      p in PAIN_POINTS && IsSubstring(p, Lower(review))
    ensures Distinct(Predict(b, review, exp, sqrt).value.painPoints)
  {
    PainPointsDistinct(review, Negative);
  }

  /** The service state: the bundle, once loaded (the module-level `model_params`). */
  class InferenceEngine {
    var params: Option<Bundle>

    /** The process starts with nothing loaded. */
    constructor()
      ensures params == None
    {
      params := None;
    }

    /** `load_params()`: read the bundle if none is loaded and the file exists. */
    method LoadParams(fileExists: bool, file: Bundle)
      modifies this
      ensures params == AfterLoad(old(params), fileExists, file)
    {
      if params.Some? {
        return;
      }
      if fileExists {
        params := Some(file);
      }
    }

    /**
     * `predict_sentiment(request)`: load if needed, refuse when still
     * unloaded, then clean, vectorise, score and annotate.
     */
    method PredictSentiment(review: string, fileExists: bool, file: Bundle, exp: real -> real, sqrt: real -> real)
      returns (r: Result<Prediction, Fault>)
      requires ExpPositive(exp)
      modifies this
      ensures params == AfterLoad(old(params), fileExists, file)
      ensures r == Respond(params, review, exp, sqrt)
    {
      LoadParams(fileExists, file);
      if params.None? {
        return Failure(NotLoaded);
      }
      var b := params.value;
      var cleaned := CleanTextSimple(Str(review));
      var vector := TfidfTransform(cleaned, b.vocabulary, b.idf, sqrt);
      if vector.Failure? {
        return Failure(vector.error);
      }
      var decision := Classify(b.coefficients, b.intercept, vector.value, exp);
      if decision.Failure? {
        return Failure(decision.error);
      }
      var d := decision.value;
      var warnings := FindPainPoints(review, d.sentiment);
      r := Success(Prediction(d.sentiment, d.confidence, warnings));
    }
  }
}
