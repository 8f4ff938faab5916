/**
 * `clean_text_simple`, the cleaner the inference service runs on each review
 * (api/index.py:83-124): the shared normalisation steps, then `split()`,
 * removal of a fixed stopword set, and a single-space join.
 */
module Cleaner {
  import opened Seqs
  import opened TextSteps

  /** The fixed stopword set of api/index.py:106-119. */
  const STOPWORDS: set<string> := {
    "i", "me", "my", "myself", "we", "our", "ours", "ourselves", "you",
    "your", "yours", "yourself", "yourselves", "he", "him", "his", "himself",
    "she", "her", "hers", "herself", "it", "its", "itself", "they", "them",
    "their", "theirs", "themselves", "what", "which", "who", "whom", "this",
    "that", "these", "those", "am", "is", "are", "was", "were", "be", "been",
    "being", "have", "has", "had", "having", "do", "does", "did", "doing",
    "a", "an", "the", "and", "but", "if", "or", "because", "as", "until",
    "while", "of", "at", "by", "for", "with", "about", "against", "between",
    "into", "through", "during", "before", "after", "above", "below", "to",
    "from", "up", "down", "in", "out", "on", "off", "over", "under", "again",
    "further", "then", "once", "here", "there", "when", "where", "why", "how",
    "all", "each", "few", "more", "most", "other", "some", "such", "no", "nor",
    "not", "only", "own", "same", "so", "than", "too", "very", "s", "t", "can",
    "will", "just", "don", "should", "now"
  }

  /** The words the cleaner keeps: the whitespace-split normalised text without its stopwords. */
  function ContentWords(s: string): seq<string>
  {
    RemoveStopwords(SplitWords(Normalize(s)), STOPWORDS)
  }

  /**
   * `clean_text_simple(text)`. A non-`str` argument gives the empty string;
   * otherwise the result is made only of lower-case ASCII that is not punctuation.
   */
  function CleanTextSimple(text: Input): (r: string)
    ensures text.NotStr? ==> r == ""
    ensures CleanChars(r)
  {
    match text
    case NotStr => ""
    case Str(s) =>
      KeptWordChars(Normalize(s), STOPWORDS);
      JoinCleanWords(ContentWords(s), Normalize(s));
      JoinWords(ContentWords(s))
  }

  /**
   * Splitting the cleaned text gives back exactly the kept words, in their
   * original order; none of them is a stopword.
   */
  lemma CleanTextWords(s: string)
    ensures SplitWords(CleanTextSimple(Str(s))) == ContentWords(s)
    ensures IsSubsequence(ContentWords(s), SplitWords(Normalize(s)))
    ensures forall w :: w in SplitWords(CleanTextSimple(Str(s))) ==> w !in STOPWORDS && w != []
  {
    SplitJoinKept(Normalize(s), STOPWORDS);
  }

  /** The cleaned text has no leading, trailing or doubled space and no whitespace other than ' '. */
  lemma CleanTextSpacing(text: Input)
    ensures SingleSpaced(CleanTextSimple(text))
  {
    if text.Str? {
      JoinSingleSpaced(ContentWords(text.text));
    }
  }

  /** Cleaning is blind to letter case: an input and its lowercase clean to the same text. */
  lemma CleanTextIgnoresCase(s: string)
    ensures CleanTextSimple(Str(Lower(s))) == CleanTextSimple(Str(s))
  {
    LowerWithoutUpper(Lower(s));
  }

  /** Cleaned text has no upper-case letter, so lowering it again (as the tokeniser does) changes nothing. */
  lemma LowerOfCleanText(text: Input)
    ensures Lower(CleanTextSimple(text)) == CleanTextSimple(text)
  {
    LowerWithoutUpper(CleanTextSimple(text));
  }
}
