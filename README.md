# Sentiment inference engine, modelled in Dafny

This project models the dependency-free inference engine of a product-review
sentiment service (`api/index.py`) together with the training-side helpers
of `frontend/src/preprocessing.py`. The engine turns a review into a label
(Positive or Negative), a confidence, and a list of "pain point" phrases.

- **Cleaner** (`clean_text_simple`). It lowercases the text and strips tags
  and URLs. It drops non-ASCII and punctuation characters, splits on
  whitespace, removes a fixed stopword set, and joins the rest with single
  spaces.
- **Vectoriser** (`simple_tfidf_transform`). It splits the text into runs of
  two or more word characters, counts the runs that are in the vocabulary,
  weights each count by its IDF, and L2-normalises the vector.
- **Scorer**. It computes a dot product plus intercept and applies the
  logistic sigmoid. A strict `> 0.5` test picks the label, and the
  confidence is the probability of the label picked.
- **Pain-point annotator**. For a Negative review only, it reports the
  catalog phrases that occur in the lowercased original review, in catalog
  order.
- **Lazy loader**. The parameter bundle is loaded once and kept, for
  requests handled one at a time. A request made while nothing is loaded
  fails with HTTP status 500.

Modules, leaf first:

- `Faults` names the ways a request fails.
- `Wrappers` holds `Option` and `Result`.
- `Seqs` defines subsequence, distinctness and the list-comprehension filter.
- `TextSteps` holds the normalisation steps both cleaners share.
- The remaining modules are `Cleaner`, `Tokenizer`, `Vectorizer`, `Scorer`,
  `PainPoints`, `Service` and `Preprocessing`.

What the model takes as given, and the form it takes:

- **Floating point.** Values are `real`. `np.exp` and the square root
  inside `np.linalg.norm` are function parameters. Their laws (`ExpPositive`,
  `ExpLaw`, `SqrtLaw`) are preconditions of the members that need them.
- **The parameter file.** Whether the file exists and which bundle it holds
  are inputs of `LoadParams` and `PredictSentiment`.
- **Imperative parts.** The term-count loop (`CountTerms`) and the in-place
  vector write (`WeightedVector`, over an `array`) are methods. So are the
  pain-point loop (`FindPainPoints`) and the global `model_params`
  (the class `InferenceEngine`). Each is proved equal to a specification
  function, and the properties are proved about that function.

Notes on the code:

- **Confidence range.** A probability of exactly 0.5 fails the strict
  `> 0.5` test (api/index.py:170), so it yields Negative with confidence
  0.5. Over the reals the sigmoid never reaches 1. `Decide`,
  `ConfidenceRange` and `Classify` therefore state the range [0.5, 1).
- **Bigram features.** The training pipeline fits its vectoriser on unigrams
  and bigrams (`src/train_model.py:48`). The service's tokeniser can never
  produce a key that contains a space, so bigram features are never counted
  (`MultiWordKeyNeverTokenized`).
- **Different cleaners.** The service's cleaner and the training-side
  cleaner differ in their stopword sets and in lemmatisation.
  `IdentityLemmatizerGivesSimpleCleaner` states the one case where they
  agree.

## Model

| member | source | states |
|---|---|---|
| TextSteps.Lower | api/index.py:91 | `str.lower` over ASCII: same length, no upper-case letter left, `A`-`Z` shifted by 32, every other character unchanged |
| TextSteps.TagEnd | api/index.py:94 | the lazy `.*?` of a tag opened before position `i` ends at the first `>` from `i`, with no `>` or newline before it; it finds nothing exactly when every `>` from `i` comes after a newline |
| TextSteps.TagEndNone | api/index.py:94 | `TagEnd` finds nothing exactly when the rest of the text closes no tag (no `>` before its first newline) |
| TextSteps.RemoveTags | api/index.py:94 | removing `<.*?>` never lengthens the text, introduces no character, and leaves text without `<` unchanged; no match is left (every remaining `<` is followed by a newline before any `>`); text that closes no tag still closes none |
| TextSteps.RemoveTagsKeep | api/index.py:94 | a character other than `<` at the start is kept, and removal continues after it |
| TextSteps.RemoveTagsUnclosed | api/index.py:94 | a `<` that no `>` closes before a newline is kept, and removal continues after it; with `RemoveTagsOfTag` and `RemoveTags("") == ""` this fixes the result for every input |
| TextSteps.RemoveTagsOfTag | api/index.py:94 | a tag `<t>` without `>` or newline inside at the start is removed whole, and removal continues after it |
| TextSteps.UrlAt | api/index.py:97 | a match of the URL pattern starting here takes at least four non-space characters |
| TextSteps.HttpsMatchesHttp | api/index.py:97 | the `https\S+` alternative matches only where `http\S+` already matches |
| TextSteps.UrlAtSameRun | api/index.py:97 | whether the URL pattern matches at a position depends only on the run of non-space characters there |
| TextSteps.RemoveUrls | api/index.py:97 | removing `http\S+`, `www\S+` and `https\S+` never lengthens the text and introduces no character; every whitespace character is kept as often as in the input; the pattern matches nowhere in the result; the result's leading non-space run is a prefix of the input |
| TextSteps.UrlRunRemoved | api/index.py:97 | a URL at the start is removed up to the next whitespace, and removal continues there |
| TextSteps.RemoveUrlsKeep | api/index.py:97 | a character where the URL pattern does not match is kept, and removal continues after it; with `UrlRunRemoved` and `RemoveUrls("") == ""` this fixes the result for every input |
| TextSteps.RemoveUrlsNoMatch | api/index.py:97 | text with no URL start anywhere is unchanged |
| TextSteps.DropNonAscii | api/index.py:100 | a character survives exactly when it is in the input and is ASCII; each ASCII character is kept as often as it occurs, and the result is a subsequence of the input |
| TextSteps.RemovePunctuation | api/index.py:103 | a character survives exactly when it is in the input and is not in `string.punctuation`; each other character is kept as often as it occurs, and the result is a subsequence of the input |
| TextSteps.FiltersKeepCleanText | api/index.py:100-103 | the ASCII and punctuation filters leave ASCII, punctuation-free text unchanged |
| TextSteps.Normalize | api/index.py:90-103 | after steps 1-5 every character is ASCII, is not `A`-`Z` and is not punctuation, and comes from the lowercased input |
| TextSteps.SplitWords | api/index.py:121 | `split()` yields non-empty words without whitespace, made of the text's characters, and every non-whitespace character of the text lands in some word |
| TextSteps.SplitWordsInOrder | api/index.py:121 | the words of `split()`, written one after another, are the text with its whitespace deleted: every non-whitespace character, in order, as often as it occurs |
| TextSteps.SplitAfterWord | api/index.py:121 | text that starts with a word followed by whitespace or the end splits as that word, then the words of the rest |
| TextSteps.SplitAfterSpace | api/index.py:121 | leading whitespace produces no word |
| TextSteps.JoinWords | api/index.py:124 | `" ".join` is empty for no words and otherwise has the words' total length plus one separator between each two |
| TextSteps.SplitJoin | api/index.py:121-124 | splitting the single-space join of non-empty, space-free words gives back those words |
| TextSteps.JoinSingleSpaced | api/index.py:124 | the join of non-empty, space-free words has no leading, trailing or doubled space and no whitespace other than `' '` |
| Seqs.FilterOut | api/index.py:122 | `[x for x in s if x not in drop]` keeps an element exactly when it is in `s` and not in `drop`, each as often as in `s`, in order (a subsequence) |
| TextSteps.RemoveStopwords | api/index.py:122 | a word is kept exactly when it is in the input and not a stopword, as often as it occurs there, in order (a subsequence); never more words than the input |
| Cleaner.CleanTextSimple | api/index.py:83-124 | a non-`str` argument gives `""`; otherwise every output character is ASCII, non-upper-case and not punctuation |
| Cleaner.CleanTextWords | api/index.py:106-124 | splitting the output gives exactly the non-stopword words of the normalised text, in their original order; none is a stopword or empty |
| Cleaner.CleanTextSpacing | api/index.py:121-124 | the output has no leading, trailing or doubled space |
| Cleaner.CleanTextIgnoresCase | api/index.py:91 | a review and its lowercase clean to the same text |
| Cleaner.LowerOfCleanText | api/index.py:50 | lowercasing the cleaned text again, as the vectoriser does, changes nothing |
| Tokenizer.WordRuns | api/index.py:43 | every token has at least two characters, all of them word characters |
| Tokenizer.Tokenize | api/index.py:50 | the tokens of `text.lower()` have at least two characters, each a word character that is neither upper-case nor whitespace |
| Tokenizer.WordRunsSplit | api/index.py:43-50 | text cut after a non-word character tokenises as the tokens of the first part followed by those of the second (tokens come in order of appearance) |
| Tokenizer.SingleCharacterRunIgnored | api/index.py:43 | inserting a one-character run between non-word characters changes no token |
| Tokenizer.RunIsToken | api/index.py:43 | a whole run of two or more word characters at the start, followed by a non-word character or the end, is the first token, and the rest tokenises on its own |
| Tokenizer.TokenBetween | api/index.py:43 | a run of two or more word characters with a non-word character or the end on each side is a token, in place between the tokens before and after it |
| Tokenizer.NoLongRunNoTokens | api/index.py:43 | text with no two adjacent word characters has no token |
| Tokenizer.TokenizeFindsRun | api/index.py:43-50 | `findall` on `text.lower()` finds such a run as its lowercased token, in place between the tokens before and after it |
| Tokenizer.MultiWordKeyNeverTokenized | api/index.py:43-50 | a vocabulary key containing whitespace is never a token |
| Vectorizer.CountOfPositive | api/index.py:53-57 | an index has a positive count exactly when some token in the vocabulary maps to it; out-of-vocabulary tokens count nowhere |
| Vectorizer.CountTerms | api/index.py:53-57 | after the loop, `tf` holds exactly the indices hit, each with the number of tokens mapping to it, and the key order has no repeats |
| Vectorizer.CountsBoundedByTokens | api/index.py:53-57 | the counts over all positions add up to at most the number of tokens |
| Vectorizer.Tfidf | api/index.py:45-75 | the result has length `len(vocab)`; it is the zero vector when no token is known; it fails (`IndexError`) exactly when a counted index is not a valid position of the vector or of `idf` |
| Vectorizer.WeightedVector | api/index.py:63-68 | the array written in place equals the raw weighted vector (count times IDF at counted positions, 0 elsewhere) |
| Vectorizer.TfidfTransform | api/index.py:45-75 | the imperative transform returns exactly `Tfidf` of the tokens of the text |
| Vectorizer.RawVectorEntries | api/index.py:63-68 | before normalisation, entry `i` is `count * idf[i]` when some token maps to `i`, and 0 otherwise |
| Vectorizer.NormIsZeroOrOne | api/index.py:70-73 | a successful result has squared norm 0 or 1 |
| Vectorizer.KnownTokenGivesNonZeroVector | api/index.py:60-73 | with positive IDF weights, a known token gives a positive entry at its index, so the vector is zero only when no token is known |
| Scorer.Dot | api/index.py:164 | the dot product is 0 when every position has a zero on one side |
| Scorer.Score | api/index.py:164 | the linear score fails (dimension mismatch) exactly when the coefficient row and the vector differ in length |
| Scorer.ZeroVectorScoresIntercept | api/index.py:164 | the zero vector scores exactly the intercept |
| Scorer.Sigmoid | api/index.py:77-78 | the sigmoid lies strictly between 0 and 1 |
| Scorer.SigmoidAboveHalf | api/index.py:77-78 | the sigmoid exceeds 0.5 exactly when `exp(-x) < 1`, and equals 0.5 exactly when `exp(-x) == 1` |
| Scorer.Decide | api/index.py:167-175 | Positive exactly when `p > 0.5`; the confidence is the probability of the label chosen, is at least that of either label, and is at least 0.5 |
| Scorer.ConfidenceRange | api/index.py:167-175 | for `0 < p < 1` the confidence is in [0.5, 1), and it equals 0.5 only when `p == 0.5` |
| Scorer.TieIsNegative | api/index.py:170-175 | `p == 0.5` gives Negative with confidence 0.5 |
| Scorer.Classify | api/index.py:163-179 | scoring fails exactly on a length mismatch; a success has confidence in [0.5, 1) |
| Scorer.PositiveIffScorePositive | api/index.py:164-172 | with a genuine exponential, the label is Positive exactly when the score is positive, and a zero score gives Negative with confidence 0.5 |
| PainPoints.IsSubstring | api/index.py:185 | `p in s` holds exactly when `p` starts at some position of `s` |
| PainPoints.Matching | api/index.py:183-186 | a phrase is reported exactly when it is in the catalog and occurs in the text; the result is a subsequence of the catalog |
| PainPoints.PainPointsFor | api/index.py:181-186 | no warnings unless Negative; for Negative, exactly the catalog phrases that are substrings of `review.lower()`, in catalog order |
| PainPoints.FindPainPoints | api/index.py:181-186 | the appending loop produces exactly `PainPointsFor` |
| PainPoints.MatchingDistinct | api/index.py:183-186 | filtering a catalog without repeats gives a list without repeats |
| PainPoints.PainPointsDistinct | api/index.py:134 | no phrase is reported twice |
| Service.AfterLoad | api/index.py:26-40 | a loaded bundle is kept; from the unloaded state the bundle is loaded exactly when the file exists, and it is the file's bundle |
| Service.LoadedIsPermanent | api/index.py:28-29 | once loaded, no series of later load attempts changes the bundle |
| Service.FirstFoundWins | api/index.py:26-40 | starting unloaded, the bundle in use is the one from the first attempt that found the file |
| Service.NeverFoundStaysUnloaded | api/index.py:30-40 | if the file is always missing, the state stays unloaded |
| Service.Predict | api/index.py:152-192 | with a bundle, the request fails exactly on an out-of-range vocabulary index or a coefficient/vocabulary length mismatch; otherwise the confidence is in [0.5, 1), a Positive answer has no pain points, and pain points are a subsequence of the catalog |
| Service.Respond | api/index.py:147-150 | unloaded gives `NotLoaded` and never a prediction; `NotLoaded` happens only when unloaded; every failure is answered with status 500 |
| Service.UnknownWordsDecidedByIntercept | api/index.py:155-172 | a review with no vocabulary word is always answered, and it is Positive exactly when the intercept is positive |
| Service.NegativeReportsFoundPhrases | api/index.py:181-186 | a Negative answer lists exactly the catalog phrases found in the lowercased review, each once |
| Service.InferenceEngine.constructor | api/index.py:24 | the process starts unloaded |
| Service.InferenceEngine.LoadParams | api/index.py:26-40 | the new state is `AfterLoad` of the old state |
| Service.InferenceEngine.PredictSentiment | api/index.py:144-192 | loads as `LoadParams` does, then answers exactly `Respond` for the new state |
| Preprocessing.GetSentimentLabel | frontend/src/preprocessing.py:34-46 | the label is in {-1, 0, 1}: 0 exactly for ratings up to 2, 1 exactly for ratings from 4, -1 exactly in between |
| Preprocessing.LabelMonotoneOutsideNeutral | frontend/src/preprocessing.py:41-46 | outside the band (2, 4), a higher rating never gets a lower label |
| Preprocessing.NeutralOnlyAtThree | frontend/src/preprocessing.py:41-46 | among whole-star ratings, exactly 3 maps to -1 |
| Preprocessing.Lemmatized | frontend/src/preprocessing.py:78 | one lemma per word, position by position |
| Preprocessing.CleanText | frontend/src/preprocessing.py:48-80 | a non-`str` argument gives `""` |
| Preprocessing.KeptLemmasOfKeptWords | frontend/src/preprocessing.py:77-78 | the joined words are, in order, `lemmatize(w)` for a subsequence of the normalised words that holds each non-stopword as often as the normalised words do and no stopword; there are at most as many of them as input words |
| Preprocessing.CleanTextWordCount | frontend/src/preprocessing.py:77-80 | when lemmas are non-empty and space-free, splitting the output gives the lemmas, so the output has at most as many words as the input |
| Preprocessing.NormalizeKeepsCleanText | frontend/src/preprocessing.py:61-74 | text with no upper case, `<`, URL start, non-ASCII or punctuation character passes steps 1-5 unchanged |
| Preprocessing.SingleKeptWord | frontend/src/preprocessing.py:77-80 | text that normalises to one non-stopword cleans to that word's lemma |
| Preprocessing.LemmaMayBeStopword | frontend/src/preprocessing.py:78 | filtering comes before lemmatising: a clean word that is not a stopword but whose lemma is one (say the noun "cans" lemmatised to the stopword "can") cleans to that stopword |
| Preprocessing.IdentityLemmatizerGivesSimpleCleaner | frontend/src/preprocessing.py:61-80 | with the identity lemmatiser and the service's stopword set, `clean_text` equals `clean_text_simple` |

## Left out

- The FastAPI app, the CORS middleware, the routes and the pydantic request and response classes (api/index.py:9-18, 126-142, 188-192) are transport plumbing. The review is taken as a `string`, and a failure is the `Fault` that FastAPI turns into status 500.
- Service.InferenceEngine.LoadParams: requests are modelled one at a time. FastAPI runs the handler on a thread pool, and the check-then-load at api/index.py:26-40 is unguarded, so concurrent first requests may load twice; this is not modelled. Nor is partial initialisation: `model_params` is assigned at line 33 before `idf` becomes an array at lines 35-37, so a request arriving in between, or a load that raises there, sees a bundle whose `idf` is still a list, and the `TypeError` becomes a 500.
- Reading and decoding the parameter file (api/index.py:31-37) is I/O. A file that is not valid JSON, or that lacks a key, is not modelled; the bundle is given as data.
- Floating point is not modelled: no IEEE rounding, overflow of `np.exp`, NaN or infinity. In floating point the sigmoid can round to exactly 1.0, which the reals never reach.
- The coefficient matrix is modelled as its single row and the intercept as a scalar. The `classes` field of the bundle is not used by the code and is not modelled.
- Scorer.Classify: numpy broadcasting is not modelled. Any length mismatch between the coefficient row and the vector is a `DimensionMismatch` failure.
- Vocabulary indices are natural numbers, so numpy's negative-index wrap-around does not arise.
- `str.lower()` and `\w` are modelled over ASCII. Non-ASCII characters pass through lowercasing unchanged and are not word characters, and the cleaner drops them. Unicode case mappings are not captured: characters such as the Kelvin sign (U+212A, lowered to `k`) and U+0130 (lowered to `i` followed by U+0307) lower to ASCII in Python. That changes the output of `clean_text_simple`, the tokens and so the vector, and the pain-point check on the raw review; none of this is modelled.
- The regular expressions are modelled as the string functions they compute, not through a regex engine.
- `print` calls and the exception message text of `HTTPException` are not modelled.
- The NLTK resource download and corpus loading (frontend/src/preprocessing.py:10-32) are I/O. The NLTK stopword set and the WordNet lemmatiser are parameters of `CleanText`.
- api/main.py (a scikit-learn pipeline wrapper with its own pain-point catalog) is not part of this model. Neither are src/train_model.py, src/export_params.py, frontend/app/page.tsx, frontend/src/feature_engineering.py, frontend/src/pain_points.py and frontend/src/eda_plots.py.
