/**
 * `simple_tfidf_transform` (api/index.py:45-75): raw term counts of the
 * in-vocabulary tokens, times the IDF weights, L2-normalised when the norm is
 * positive. `np.linalg.norm` is the square root of the sum of squares; the
 * square root is a parameter, since floating point is not modelled.
 */
module Vectorizer {
  import opened Wrappers
  import opened Faults
  import opened Seqs
  import opened Tokenizer

  // ---------------------------------------------------------------- term frequencies

  function Last<T>(s: seq<T>): T
    requires s != []
  {
    s[|s| - 1]
  }

  /** Number of tokens whose vocabulary index is `i`. */
  function CountOf(tokens: seq<string>, vocab: map<string, nat>, i: nat): nat
  {
    if tokens == [] then 0
    else
      CountOf(tokens[..|tokens| - 1], vocab, i)
      + (if Last(tokens) in vocab && vocab[Last(tokens)] == i then 1 else 0)
  }

  /** An index is counted exactly when some token in the vocabulary maps to it. */
  lemma {:induction false} CountOfPositive(tokens: seq<string>, vocab: map<string, nat>, i: nat)
    ensures CountOf(tokens, vocab, i) > 0 <==> exists t :: t in tokens && t in vocab && vocab[t] == i
  {
    if tokens != [] {
      var init := tokens[..|tokens| - 1];
      CountOfPositive(init, vocab, i);
      assert tokens == init + [Last(tokens)];
      assert forall t :: t in tokens <==> t in init || t == Last(tokens);
    }
  }

  /** Some token of the document is in the vocabulary. */
  predicate HasKnownToken(tokens: seq<string>, vocab: map<string, nat>)
  {
    exists t :: t in tokens && t in vocab
  }

  /**
   * The tokens' vocabulary indices are valid positions of both the output
   * vector (`len(vocab)`) and `idf`; otherwise numpy raises `IndexError`.
   */
  predicate IndicesFit(tokens: seq<string>, vocab: map<string, nat>, idf: seq<real>)
  {
    forall t :: t in tokens && t in vocab ==> vocab[t] < |vocab| && vocab[t] < |idf|
  }

  /**
   * The counting loop (api/index.py:53-57). `tf` maps each index that some
   * token hits to its count, tokens outside the vocabulary are skipped, and
   * `order` lists the keys of `tf` in insertion order, as a Python dict does.
   */
  method CountTerms(tokens: seq<string>, vocab: map<string, nat>)
    returns (tf: map<nat, nat>, order: seq<nat>)
    ensures forall i :: i in tf <==> CountOf(tokens, vocab, i) > 0
    ensures forall i :: i in tf ==> tf[i] == CountOf(tokens, vocab, i)
    ensures forall i :: i in order <==> i in tf
    ensures Distinct(order)
  {
    tf, order := map[], [];
    for k := 0 to |tokens|
      invariant forall i :: i in tf <==> CountOf(tokens[..k], vocab, i) > 0
      invariant forall i :: i in tf ==> tf[i] == CountOf(tokens[..k], vocab, i)
      invariant forall i :: i in order <==> i in tf
      invariant Distinct(order)
    {
      assert tokens[..k + 1][..k] == tokens[..k];
      var token := tokens[k];
      if token in vocab {
        var idx := vocab[token];
        if idx !in tf {
          order := order + [idx];
        }
        tf := tf[idx := (if idx in tf then tf[idx] else 0) + 1];
      }
    }
    assert tokens[..|tokens|] == tokens;
  }

  /** Sum of the counts of the indices below `n`. */
  function SumCounts(tokens: seq<string>, vocab: map<string, nat>, n: nat): nat
  {
    if n == 0 then 0 else SumCounts(tokens, vocab, n - 1) + CountOf(tokens, vocab, n - 1)
  }

  /** Number of tokens in the vocabulary whose index is below `n`. */
  function KnownBelow(tokens: seq<string>, vocab: map<string, nat>, n: nat): (k: nat)
    ensures k <= |tokens|
  {
    if tokens == [] then 0
    else
      KnownBelow(tokens[..|tokens| - 1], vocab, n)
      + (if Last(tokens) in vocab && vocab[Last(tokens)] < n then 1 else 0)
  }

  lemma {:induction false} NothingKnownBelowZero(tokens: seq<string>, vocab: map<string, nat>)
    ensures KnownBelow(tokens, vocab, 0) == 0
  {
    if tokens != [] {
      NothingKnownBelowZero(tokens[..|tokens| - 1], vocab);
    }
  }

  lemma {:induction false} KnownBelowStep(tokens: seq<string>, vocab: map<string, nat>, n: nat)
    ensures KnownBelow(tokens, vocab, n + 1) == KnownBelow(tokens, vocab, n) + CountOf(tokens, vocab, n)
  {
    if tokens != [] {
      KnownBelowStep(tokens[..|tokens| - 1], vocab, n);
    }
  }

  lemma {:induction false} SumCountsIsKnownBelow(tokens: seq<string>, vocab: map<string, nat>, n: nat)
    ensures SumCounts(tokens, vocab, n) == KnownBelow(tokens, vocab, n)
  {
    if n == 0 {
      NothingKnownBelowZero(tokens, vocab);
    } else {
      SumCountsIsKnownBelow(tokens, vocab, n - 1);
      KnownBelowStep(tokens, vocab, n - 1);
    }
  }

  /** The counts over all vector positions add up to at most the number of tokens. */
  lemma CountsBoundedByTokens(tokens: seq<string>, vocab: map<string, nat>)
    ensures SumCounts(tokens, vocab, |vocab|) <= |tokens|
  {
    SumCountsIsKnownBelow(tokens, vocab, |vocab|);
  }

  // ---------------------------------------------------------------- weighting and normalisation

  function Zeros(n: nat): (v: seq<real>)
    ensures |v| == n && forall i :: 0 <= i < n ==> v[i] == 0.0
  {
    seq(n, _ => 0.0)
  }

  /** Entry `i` before normalisation: the raw count times `idf[i]`. */
  function Weight(tokens: seq<string>, vocab: map<string, nat>, idf: seq<real>, i: nat): real
  {
    if i < |idf| then CountOf(tokens, vocab, i) as real * idf[i] else 0.0
  }

  function RawVector(tokens: seq<string>, vocab: map<string, nat>, idf: seq<real>): (v: seq<real>)
    ensures |v| == |vocab|
  {
    seq(|vocab|, i requires 0 <= i < |vocab| => Weight(tokens, vocab, idf, i))
  }

  /** The squared Euclidean norm. */
  function SumSquares(v: seq<real>): real
  {
    if v == [] then 0.0 else v[0] * v[0] + SumSquares(v[1..])
  }

  function Scale(v: seq<real>, d: real): (w: seq<real>)
    requires d != 0.0
    ensures |w| == |v|
  {
    seq(|v|, i requires 0 <= i < |v| => v[i] / d)
  }

  /** What `sqrt` must satisfy: it returns the non-negative square root of a non-negative number. */
  ghost predicate SqrtLaw(sqrt: real -> real)
  {
    forall x :: 0.0 <= x ==> 0.0 <= sqrt(x) && sqrt(x) * sqrt(x) == x
  }

  /**
   * The transform as a value: the zero vector when no token is in the
   * vocabulary, `IndexOutOfRange` when a counted index is not a valid position,
   * otherwise the weighted vector divided by its norm when that is positive.
   */
  function Tfidf(tokens: seq<string>, vocab: map<string, nat>, idf: seq<real>, sqrt: real -> real)
    : (r: Result<seq<real>, Fault>)
    ensures r.Success? ==> |r.value| == |vocab|
    ensures r.Failure? <==> HasKnownToken(tokens, vocab) && !IndicesFit(tokens, vocab, idf)
    ensures !HasKnownToken(tokens, vocab) ==> r == Success(Zeros(|vocab|))
  {
    if !HasKnownToken(tokens, vocab) then Success(Zeros(|vocab|))
    else if !IndicesFit(tokens, vocab, idf) then Failure(IndexOutOfRange)
    else
      var raw := RawVector(tokens, vocab, idf);
      var norm := sqrt(SumSquares(raw));
      Success(if norm > 0.0 then Scale(raw, norm) else raw)
  }

  /**
   * Steps 3 and 4 (api/index.py:63-68): a zero vector of length `len(vocab)`
   * whose entries at the keys of `tf` are overwritten, in place, by count
   * times IDF weight.
   */
  method WeightedVector(
    tokens: seq<string>, vocab: map<string, nat>, idf: seq<real>, tf: map<nat, nat>, order: seq<nat>)
    returns (raw: seq<real>)
    requires forall i :: i in tf <==> CountOf(tokens, vocab, i) > 0
    requires forall i :: i in tf ==> tf[i] == CountOf(tokens, vocab, i) && i < |vocab| && i < |idf|
    requires forall i :: i in order <==> i in tf
    ensures raw == RawVector(tokens, vocab, idf)
  {
    var vector := new real[|vocab|](_ => 0.0);
    for j := 0 to |order|
      invariant forall i :: 0 <= i < vector.Length ==>
        vector[i] == if i in order[..j] then Weight(tokens, vocab, idf, i) else 0.0
    {
      var idx := order[j];
      assert idx in order;
      vector[idx] := tf[idx] as real * idf[idx];
      assert forall i :: i in order[..j + 1] <==> i in order[..j] || i == idx;
    }
    assert order[..|order|] == order;
    raw := vector[..];
    forall i | 0 <= i < |vocab| ensures raw[i] == RawVector(tokens, vocab, idf)[i] {
      if i !in order {
        assert CountOf(tokens, vocab, i) == 0;
      }
    }
  }

  /** `simple_tfidf_transform(text, vocab, idf)`. */
  method TfidfTransform(text: string, vocab: map<string, nat>, idf: seq<real>, sqrt: real -> real)
    returns (r: Result<seq<real>, Fault>)
    ensures r == Tfidf(Tokenize(text), vocab, idf, sqrt)
  {
    var tokens := Tokenize(text);
    var tf, order := CountTerms(tokens, vocab);
    if tf == map[] {
      forall t | t in tokens && t in vocab ensures false {
        CountOfPositive(tokens, vocab, vocab[t]);
      }
      return Success(Zeros(|vocab|));
    }
    assert HasKnownToken(tokens, vocab) by {
      var i :| i in tf;
      CountOfPositive(tokens, vocab, i);
    }
    // `idf[indices]` and `vector[indices] = ...` raise IndexError on an index out of range.
    if exists i :: i in tf && (i >= |vocab| || i >= |idf|) {
      assert !IndicesFit(tokens, vocab, idf) by {
        var i :| i in tf && (i >= |vocab| || i >= |idf|);
        CountOfPositive(tokens, vocab, i);
      }
      return Failure(IndexOutOfRange);
    }
    assert IndicesFit(tokens, vocab, idf) by {
      forall t | t in tokens && t in vocab ensures vocab[t] < |vocab| && vocab[t] < |idf| {
        CountOfPositive(tokens, vocab, vocab[t]);
      }
    }
    var raw := WeightedVector(tokens, vocab, idf, tf, order);
    var norm := sqrt(SumSquares(raw));
    if norm > 0.0 {
      r := Success(Scale(raw, norm));
    } else {
      r := Success(raw);
    }
  }

  // ---------------------------------------------------------------- properties of the result

  lemma {:induction false} SumSquaresOfZeros(n: nat)
    ensures SumSquares(Zeros(n)) == 0.0
  {
    if n > 0 {
      assert Zeros(n)[1..] == Zeros(n - 1);
      SumSquaresOfZeros(n - 1);
    }
  }

  lemma SquareNonNegative(x: real)
    ensures x * x >= 0.0
  {
    if x < 0.0 {
      assert x * x == (-x) * (-x);
    }
  }

  lemma PositiveProduct(a: real, b: real)
    requires a > 0.0 && b > 0.0
    ensures a * b > 0.0
  {
  }

  lemma PositiveQuotient(a: real, b: real)
    requires a > 0.0 && b > 0.0
    ensures a / b > 0.0
  {
  }

  lemma CancelFactor(a: real, s: real)
    requires s != 0.0 && a * s == s
    ensures a == 1.0
  {
    assert (a - 1.0) * s == 0.0;
  }

  lemma {:induction false} SumSquaresBounds(v: seq<real>)
    ensures SumSquares(v) >= 0.0
    ensures forall i :: 0 <= i < |v| ==> SumSquares(v) >= v[i] * v[i]
  {
    if v != [] {
      SumSquaresBounds(v[1..]);
      SquareNonNegative(v[0]);
      forall i | 1 <= i < |v| ensures SumSquares(v) >= v[i] * v[i] {
        assert v[i] == v[1..][i - 1];
      }
    }
  }

  /** Dividing every entry by `d` divides the squared norm by `d * d`. */
  lemma {:induction false} SumSquaresOfScale(v: seq<real>, d: real)
    requires d != 0.0
    ensures SumSquares(Scale(v, d)) * (d * d) == SumSquares(v)
  {
    if v != [] {
      var w := Scale(v, d);
      assert w[1..] == Scale(v[1..], d);
      SumSquaresOfScale(v[1..], d);
      var rest, scaledRest := SumSquares(v[1..]), SumSquares(Scale(v[1..], d));
      assert SumSquares(v) == v[0] * v[0] + rest;
      assert SumSquares(w) == (v[0] / d) * (v[0] / d) + scaledRest;
      ScaledSquareStep(v[0], d, rest, scaledRest);
    }
  }

  /** One step of `SumSquaresOfScale`, on plain numbers. */
  lemma ScaledSquareStep(x: real, d: real, rest: real, scaledRest: real)
    requires d != 0.0 && scaledRest * (d * d) == rest
    ensures ((x / d) * (x / d) + scaledRest) * (d * d) == x * x + rest
  {
    var q := x / d;
    assert q * d == x;
    assert q * q * (d * d) == (q * d) * (q * d);
    calc {
      (q * q + scaledRest) * (d * d);
      q * q * (d * d) + scaledRest * (d * d);
      x * x + rest;
    }
  }

  /** A positive number has a positive square root. */
  lemma SqrtOfPositive(sqrt: real -> real, s: real)
    requires SqrtLaw(sqrt) && s > 0.0
    ensures sqrt(s) > 0.0
  {
    var n := sqrt(s);
    assert n >= 0.0 && n * n == s;
    assert n != 0.0;
  }

  /** The only non-negative number whose square root is not positive is 0. */
  lemma SqrtNotPositive(sqrt: real -> real, s: real)
    requires SqrtLaw(sqrt) && s >= 0.0 && !(sqrt(s) > 0.0)
    ensures s == 0.0
  {
    var n := sqrt(s);
    assert n >= 0.0 && n * n == s;
    assert n == 0.0;
  }

  /** Dividing by the (positive) norm leaves a vector whose squared norm is 1. */
  lemma ScaledToUnit(sqrt: real -> real, raw: seq<real>)
    requires SqrtLaw(sqrt)
    requires sqrt(SumSquares(raw)) > 0.0
    ensures SumSquares(Scale(raw, sqrt(SumSquares(raw)))) == 1.0
  {
    var s := SumSquares(raw);
    SumSquaresBounds(raw);
    var norm := sqrt(s);
    calc {
      s;
    ==
      norm * norm;
    > { PositiveProduct(norm, norm); }
      0.0;
    }
    UnitAfterScale(raw, norm, s);
  }

  lemma UnitAfterScale(raw: seq<real>, norm: real, s: real)
    requires norm != 0.0 && s > 0.0
    requires s == SumSquares(raw) && norm * norm == s
    ensures SumSquares(Scale(raw, norm)) == 1.0
  {
    var a := SumSquares(Scale(raw, norm));
    calc {
      a * s;
    ==
      a * (norm * norm);
    == { SumSquaresOfScale(raw, norm); }
      s;
    }
    CancelFactor(a, s);
  }

  /** The vector returned always has Euclidean norm 0 or 1. */
  lemma NormIsZeroOrOne(tokens: seq<string>, vocab: map<string, nat>, idf: seq<real>, sqrt: real -> real)
    requires SqrtLaw(sqrt)
    requires Tfidf(tokens, vocab, idf, sqrt).Success?
    ensures var v := Tfidf(tokens, vocab, idf, sqrt).value;
      SumSquares(v) == 0.0 || SumSquares(v) == 1.0
  {
    if !HasKnownToken(tokens, vocab) {
      SumSquaresOfZeros(|vocab|);
    } else {
      var raw := RawVector(tokens, vocab, idf);
      SumSquaresBounds(raw);
      if sqrt(SumSquares(raw)) > 0.0 {
        ScaledToUnit(sqrt, raw);
      } else {
        SqrtNotPositive(sqrt, SumSquares(raw));
      }
    }
  }

  /**
   * With positive IDF weights, a token in the vocabulary makes the vector
   * positive at that token's index, so the vector is the zero vector only when
   * no token is in the vocabulary.
   */
  lemma KnownTokenGivesNonZeroVector(
    tokens: seq<string>, vocab: map<string, nat>, idf: seq<real>, sqrt: real -> real, t: string)
    requires SqrtLaw(sqrt)
    requires forall i :: 0 <= i < |idf| ==> idf[i] > 0.0
    requires t in tokens && t in vocab
    requires IndicesFit(tokens, vocab, idf)
    ensures Tfidf(tokens, vocab, idf, sqrt).Success?
    ensures Tfidf(tokens, vocab, idf, sqrt).value[vocab[t]] > 0.0
  {
    var i := vocab[t];
    CountOfPositive(tokens, vocab, i);
    var raw := RawVector(tokens, vocab, idf);
    var c := CountOf(tokens, vocab, i) as real;
    assert raw[i] == c * idf[i];
    PositiveProduct(c, idf[i]);
    var x := raw[i];
    assert x > 0.0;
    var s := SumSquares(raw);
    calc {
      s;
    >= { SumSquaresBounds(raw); }
      x * x;
    > { PositiveProduct(x, x); }
      0.0;
    }
    SqrtOfPositive(sqrt, s);
    PositiveQuotient(raw[i], sqrt(s));
  }

  /** Entry `i` before normalisation is `tf[i] * idf[i]` for a counted index and 0 otherwise. */
  lemma RawVectorEntries(tokens: seq<string>, vocab: map<string, nat>, idf: seq<real>, i: nat)
    requires i < |vocab| && i < |idf|
    ensures RawVector(tokens, vocab, idf)[i] ==
      if exists t :: t in tokens && t in vocab && vocab[t] == i
      then CountOf(tokens, vocab, i) as real * idf[i]
      else 0.0
  {
    CountOfPositive(tokens, vocab, i);
    assert RawVector(tokens, vocab, idf)[i] == Weight(tokens, vocab, idf, i);
  }
}
