/**
 * The pain-point annotator of `predict_sentiment` (api/index.py:134, 181-186):
 * for a Negative review, the catalog phrases that occur in the lowercased
 * original review, in catalog order.
 */
module PainPoints {
  import opened Seqs
  import opened TextSteps
  import opened Scorer

  /** The phrase catalog of api/index.py:134. */
  const PAIN_POINTS: seq<string> := [
    "bad quality", "waste of money", "poor quality", "defective product",
    "not original", "worst product", "fake", "damage"
  ]

  /** Python's `p in s` on strings: `p` occurs in `s` as a contiguous block, starting at some position. */
  predicate IsSubstring(p: string, s: string): (r: bool)
    decreases |s|
    ensures r <==> exists k :: 0 <= k <= |s| && StartsWith(s[k..], p)
  {
    if StartsWith(s, p) then
      assert s[0..] == s;
      true
    else if s == [] then
      assert forall k :: 0 <= k <= |s| ==> s[k..] == s;
      false
    else
      var r := IsSubstring(p, s[1..]);
      assert forall k :: 0 <= k <= |s[1..]| ==> s[1..][k..] == s[k + 1..];
      assert (exists k :: 0 <= k <= |s| && StartsWith(s[k..], p)) ==> r by {
        if exists k :: 0 <= k <= |s| && StartsWith(s[k..], p) {
          var k :| 0 <= k <= |s| && StartsWith(s[k..], p);
          assert k != 0 by { assert s[0..] == s; }
          assert s[1..][k - 1..] == s[k..];
        }
      }
      r
  }

  /** The phrases of `catalog` that occur in `text`, in catalog order. */
  function Matching(catalog: seq<string>, text: string): (r: seq<string>)
    ensures forall p :: p in r <==> p in catalog && IsSubstring(p, text)
    ensures IsSubsequence(r, catalog)
  {
    if catalog == [] then []
    else
      var init := catalog[..|catalog| - 1];
      var x := catalog[|catalog| - 1];
      var prefix := Matching(init, text);
      assert catalog == init + [x];
      SubsequenceOfLonger(prefix, init, x);
      SubsequenceSnoc(prefix, init, x);
      if IsSubstring(x, text) then prefix + [x] else prefix
  }

  /**
   * The warnings of one request: none unless the review was judged Negative,
   * otherwise the catalog phrases found in the lowercased review, each once.
   */
  function PainPointsFor(review: string, sentiment: Sentiment): (r: seq<string>)
    ensures sentiment == Positive ==> r == []
    ensures sentiment == Negative ==> forall p :: p in r <==> p in PAIN_POINTS && IsSubstring(p, Lower(review))
    ensures IsSubsequence(r, PAIN_POINTS)
  {
    if sentiment == Negative then Matching(PAIN_POINTS, Lower(review)) else []
  }

  /** The loop over the catalog that appends each phrase found to `warnings`. */
  method FindPainPoints(review: string, sentiment: Sentiment) returns (warnings: seq<string>)
    ensures warnings == PainPointsFor(review, sentiment)
  {
    warnings := [];
    if sentiment == Negative {
      var lowerRev := Lower(review);
      for i := 0 to |PAIN_POINTS|
        invariant warnings == Matching(PAIN_POINTS[..i], lowerRev)
      {
        assert PAIN_POINTS[..i + 1][..i] == PAIN_POINTS[..i];
        var point := PAIN_POINTS[i];
        if IsSubstring(point, lowerRev) {
          warnings := warnings + [point];
        }
      }
      assert PAIN_POINTS[..|PAIN_POINTS|] == PAIN_POINTS;
    }
  }

  /** Filtering a catalog without repeats gives a list without repeats. */
  lemma {:induction false} MatchingDistinct(catalog: seq<string>, text: string)
    requires Distinct(catalog)
    ensures Distinct(Matching(catalog, text))
    decreases |catalog|
  {
    if catalog != [] {
      var init := catalog[..|catalog| - 1];
      var x := catalog[|catalog| - 1];
      assert Distinct(init);
      MatchingDistinct(init, text);
      assert x !in init;
    }
  }

  /** No phrase is reported twice. */
  lemma PainPointsDistinct(review: string, sentiment: Sentiment)
    ensures Distinct(PainPointsFor(review, sentiment))
  {
    if sentiment == Negative {
      MatchingDistinct(PAIN_POINTS, Lower(review));
    }
  }
}
