/**
 * The training-side helpers of frontend/src/preprocessing.py: the mapping
 * from star ratings to labels (lines 34-46) and `clean_text` (lines 48-80),
 * which runs the same normalisation as the service's cleaner but removes the
 * NLTK English stopwords and lemmatises what is left. The stopword set and the
 * lemmatiser come from NLTK corpora and are parameters here.
 */
module Preprocessing {
  import opened Seqs
  import opened TextSteps
  import opened Cleaner

  // ---------------------------------------------------------------- rating labels

  /** `get_sentiment_label(rating)`: 0 (Negative) up to 2 stars, 1 (Positive) from 4 stars, -1 (Neutral) between. */
  function GetSentimentLabel(rating: real): (code: int)
    ensures -1 <= code <= 1
    ensures code == 0 <==> rating <= 2.0
    ensures code == 1 <==> rating >= 4.0
    ensures code == -1 <==> 2.0 < rating < 4.0
  {
    if rating <= 2.0 then 0 else if rating >= 4.0 then 1 else -1
  }

  /** Away from the neutral band, a higher rating never gets a lower label. */
  lemma LabelMonotoneOutsideNeutral(r1: real, r2: real)
    requires r1 <= r2
    requires r1 <= 2.0 || r1 >= 4.0
    requires r2 <= 2.0 || r2 >= 4.0
    ensures GetSentimentLabel(r1) <= GetSentimentLabel(r2)
  {
  }

  /** Among whole-star ratings, exactly 3 is neutral. */
  lemma NeutralOnlyAtThree(stars: int)
    ensures GetSentimentLabel(stars as real) == -1 <==> stars == 3
  {
  }

  // ---------------------------------------------------------------- clean_text

  /** The lemmatiser applied to each word, in order. */
  function Lemmatized(words: seq<string>, lemmatize: string -> string): (r: seq<string>)
    ensures |r| == |words|
    ensures forall i :: 0 <= i < |words| ==> r[i] == lemmatize(words[i])
  {
    seq(|words|, i requires 0 <= i < |words| => lemmatize(words[i]))
  }

  /** The words `clean_text` joins: the lemmas of the normalised words that are not stopwords. */
  function KeptLemmas(s: string, stopWords: set<string>, lemmatize: string -> string): seq<string>
  {
    Lemmatized(RemoveStopwords(SplitWords(Normalize(s)), stopWords), lemmatize)
  }

  /**
   * `clean_text(text)`: the empty string for a non-`str` argument; otherwise
   * lowercase, tags, URLs, non-ASCII and punctuation removed in that order,
   * then split, stopword filter, lemmatise, single-space join.
   */
  function CleanText(text: Input, stopWords: set<string>, lemmatize: string -> string): (r: string)
    ensures text.NotStr? ==> r == ""
  {
    match text
    case NotStr => ""
    case Str(s) => JoinWords(KeptLemmas(s, stopWords, lemmatize))
  }

  /**
   * The joined words are, in order, `lemmatize(w)` for the normalised words `w`
   * that are not stopwords, each occurrence of such a word contributing once,
   * so there are at most as many of them as input words.
   */
  lemma KeptLemmasOfKeptWords(s: string, stopWords: set<string>, lemmatize: string -> string)
    ensures exists kept ::
      IsSubsequence(kept, SplitWords(Normalize(s)))
      && (forall w :: multiset(kept)[w] == if w in stopWords then 0 else multiset(SplitWords(Normalize(s)))[w])
      && KeptLemmas(s, stopWords, lemmatize) == Lemmatized(kept, lemmatize)
    ensures |KeptLemmas(s, stopWords, lemmatize)| <= |SplitWords(Normalize(s))|
  {
    var words := SplitWords(Normalize(s));
    var kept := RemoveStopwords(words, stopWords);
    SubsequenceLength(kept, words);
  }

  /**
   * When every lemma is a non-empty word without whitespace, splitting the
   * output gives back the lemmas, so the output word count is at most the
   * input word count.
   */
  lemma CleanTextWordCount(s: string, stopWords: set<string>, lemmatize: string -> string)
    requires forall w :: w != [] && SpaceFree(w) ==> lemmatize(w) != [] && SpaceFree(lemmatize(w))
    ensures SplitWords(CleanText(Str(s), stopWords, lemmatize)) == KeptLemmas(s, stopWords, lemmatize)
    ensures |SplitWords(CleanText(Str(s), stopWords, lemmatize))| <= |SplitWords(Normalize(s))|
  {
    var lemmas := KeptLemmas(s, stopWords, lemmatize);
    var kept := RemoveStopwords(SplitWords(Normalize(s)), stopWords);
    forall w | w in lemmas ensures w != [] && SpaceFree(w) {
      var i :| 0 <= i < |lemmas| && lemmas[i] == w;
      assert kept[i] in kept;
    }
    SplitJoin(lemmas);
    KeptLemmasOfKeptWords(s, stopWords, lemmatize);
  }

  /** A text that normalises to a single word that is not a stopword cleans to that word's lemma. */
  lemma SingleKeptWord(s: string, stopWords: set<string>, lemmatize: string -> string, w: string)
    requires Normalize(s) == w && w != [] && SpaceFree(w) && w !in stopWords
    ensures CleanText(Str(s), stopWords, lemmatize) == lemmatize(w)
  {
    OneKeptWord(w, stopWords, lemmatize);
  }

  lemma OneKeptWord(w: string, stopWords: set<string>, lemmatize: string -> string)
    requires w != [] && SpaceFree(w) && w !in stopWords
    ensures JoinWords(Lemmatized(RemoveStopwords(SplitWords(w), stopWords), lemmatize)) == lemmatize(w)
  {
    assert SplitWords(w) == [w] by {
      assert w + [] == w;
      SplitAfterWord(w, []);
    }
    assert RemoveStopwords([w], stopWords) == [w] by {
      assert FilterOut([w][1..], stopWords) == [];
    }
    assert Lemmatized([w], lemmatize) == [lemmatize(w)];
  }

  /** Text with no upper case, tag, URL, non-ASCII or punctuation character is left as it is by steps 1 to 5. */
  lemma NormalizeKeepsCleanText(s: string)
    requires CleanChars(s) && '<' !in s
    requires forall k :: 0 <= k < |s| ==> !UrlAt(s[k..])
    ensures Normalize(s) == s
  {
    LowerWithoutUpper(s);
    RemoveUrlsNoMatch(s);
    FiltersKeepCleanText(s);
  }

  /**
   * Stopwords are filtered before lemmatisation, so a lemma can itself be a
   * stopword: a clean word that is not a stopword but whose lemma is one (as
   * when the noun "cans" is lemmatised to the stopword "can") cleans to that
   * stopword.
   */
  lemma LemmaMayBeStopword(w: string, stopWords: set<string>, lemmatize: string -> string)
    requires w != [] && SpaceFree(w) && CleanChars(w) && '<' !in w
    requires forall k :: 0 <= k < |w| ==> !UrlAt(w[k..])
    requires w !in stopWords && lemmatize(w) in stopWords
    ensures CleanText(Str(w), stopWords, lemmatize) == lemmatize(w)
    ensures CleanText(Str(w), stopWords, lemmatize) in stopWords
  {
    NormalizeKeepsCleanText(w);
    SingleKeptWord(w, stopWords, lemmatize, w);
  }

  /** With no lemmatisation and the service's stopword set, `clean_text` is `clean_text_simple`. */
  lemma IdentityLemmatizerGivesSimpleCleaner(text: Input)
    ensures CleanText(text, STOPWORDS, w => w) == CleanTextSimple(text)
  {
    if text.Str? {
      var kept := ContentWords(text.text);
      assert Lemmatized(kept, w => w) == kept;
    }
  }
}
