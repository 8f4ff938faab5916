/**
 * The vectoriser's tokeniser (api/index.py:43, 50): `TOKEN_PATTERN.findall(text.lower())`
 * with the pattern `\b\w\w+\b`, i.e. the maximal runs of two or more word
 * characters, in order of appearance.
 */
module Tokenizer {
  import opened TextSteps

  /** `\w` on ASCII text: letters, digits and the underscore. */
  predicate IsWordChar(c: char)
  {
    ('a' <= c <= 'z') || ('A' <= c <= 'Z') || ('0' <= c <= '9') || c == '_'
  }

  /** Length of the run of word characters at the start of `s`. */
  function WordRunLength(s: string): (n: nat)
    ensures n <= |s|
    ensures forall k :: 0 <= k < n ==> IsWordChar(s[k])
    ensures n < |s| ==> !IsWordChar(s[n])
  {
    if s == [] || !IsWordChar(s[0]) then 0 else 1 + WordRunLength(s[1..])
  }

  /**
   * `findall(r"\b\w\w+\b", s)`: a match can only start where a run of word
   * characters starts (the left `\b`), the greedy `\w\w+` takes the whole run,
   * and a run of one character is skipped.
   */
  function WordRuns(s: string): (tokens: seq<string>)
    decreases |s|
    ensures forall t :: t in tokens ==> |t| >= 2 && forall c :: c in t ==> IsWordChar(c)
  {
    if s == [] then []
    else if !IsWordChar(s[0]) then WordRuns(s[1..])
    else
      var n := WordRunLength(s);
      (if n >= 2 then [s[..n]] else []) + WordRuns(s[n..])
  }

  /** The tokens of a document: word runs of its lowercased text. */
  function Tokenize(text: string): (tokens: seq<string>)
    ensures forall t :: t in tokens ==> |t| >= 2
    ensures forall t, c :: t in tokens && c in t ==> IsWordChar(c) && !IsUpper(c) && !IsSpace(c)
  {
    var tokens := WordRuns(Lower(text));
    assert forall t, c :: t in tokens && c in t ==> c in Lower(text) by {
      WordRunsChars(Lower(text));
    }
    tokens
  }

  /** Every token character comes from the text. */
  lemma {:induction false} WordRunsChars(s: string)
    ensures forall t, c :: t in WordRuns(s) && c in t ==> c in s
    decreases |s|
  {
    if s != [] {
      if !IsWordChar(s[0]) {
        WordRunsChars(s[1..]);
        assert forall c :: c in s[1..] ==> c in s;
      } else {
        var n := WordRunLength(s);
        WordRunsChars(s[n..]);
        assert forall c :: c in s[n..] ==> c in s;
        assert forall c :: c in s[..n] ==> c in s;
      }
    }
  }

  /** Appending text after a run that already ends inside `a` does not change the run. */
  lemma {:induction false} RunLengthOfPrefix(a: string, b: string)
    requires WordRunLength(a) < |a|
    ensures WordRunLength(a + b) == WordRunLength(a)
    decreases |a|
  {
    if IsWordChar(a[0]) {
      assert (a + b)[1..] == a[1..] + b;
      RunLengthOfPrefix(a[1..], b);
    }
  }

  /** Text cut right after a non-word character tokenises as its two halves. */
  lemma {:induction false} WordRunsSplit(a: string, b: string)
    requires a == [] || !IsWordChar(a[|a| - 1])
    ensures WordRuns(a + b) == WordRuns(a) + WordRuns(b)
    decreases |a|
  {
    if a == [] {
      assert a + b == b;
    } else if !IsWordChar(a[0]) {
      assert (a + b)[1..] == a[1..] + b;
      WordRunsSplit(a[1..], b);
    } else {
      var rest := a[WordRunLength(a)..];
      assert rest[|rest| - 1] == a[|a| - 1];
      WordRunsSplit(rest, b);
      WordRunsSplitAtRun(a, b);
    }
  }

  /** The first run of `a` is also the first run of `a + b` when it ends inside `a`. */
  lemma FirstRunOfConcat(a: string, b: string)
    requires a != [] && IsWordChar(a[0]) && !IsWordChar(a[|a| - 1])
    ensures WordRunLength(a + b) == WordRunLength(a)
    ensures WordRuns(a + b) ==
      (if WordRunLength(a) >= 2 then [a[..WordRunLength(a)]] else []) + WordRuns(a[WordRunLength(a)..] + b)
  {
    var n := WordRunLength(a);
    var s := a + b;
    RunLengthOfPrefix(a, b);
    assert s[0] == a[0];
    assert s[..n] == a[..n];
    assert s[n..] == a[n..] + b;
  }

  /** The step of `WordRunsSplit` for text starting with a word run. */
  lemma WordRunsSplitAtRun(a: string, b: string)
    requires a != [] && IsWordChar(a[0]) && !IsWordChar(a[|a| - 1])
    requires WordRuns(a[WordRunLength(a)..] + b) == WordRuns(a[WordRunLength(a)..]) + WordRuns(b)
    ensures WordRuns(a + b) == WordRuns(a) + WordRuns(b)
  {
    var n := WordRunLength(a);
    var head: seq<string> := if n >= 2 then [a[..n]] else [];
    var x, y := WordRuns(a[n..]), WordRuns(b);
    FirstRunOfConcat(a, b);
    assert WordRuns(a) == head + x;
    ConcatAssociates(head, x, y);
  }

  lemma ConcatAssociates(h: seq<string>, x: seq<string>, y: seq<string>)
    ensures h + (x + y) == (h + x) + y
  {
  }

  /** A run of a single word character between non-word characters yields no token and leaves the rest unchanged. */
  lemma SingleCharacterRunIgnored(a: string, x: char, b: string)
    requires IsWordChar(x)
    requires a == [] || !IsWordChar(a[|a| - 1])
    requires b == [] || !IsWordChar(b[0])
    ensures WordRuns(a + [x] + b) == WordRuns(a + b)
  {
    var t := [x] + b;
    assert a + [x] + b == a + t;
    WordRunsSplit(a, t);
    assert WordRunLength(t) == 1;
    assert t[1..] == b;
    assert WordRuns(t) == WordRuns(b);
    WordRunsSplit(a, b);
  }

  /** A run of word characters followed by a non-word character or the end has exactly the run's length. */
  lemma {:induction false} RunThenBoundary(w: string, b: string)
    requires forall k :: 0 <= k < |w| ==> IsWordChar(w[k])
    requires b == [] || !IsWordChar(b[0])
    ensures WordRunLength(w + b) == |w|
    decreases |w|
  {
    if w == [] {
      assert w + b == b;
    } else {
      assert (w + b)[0] == w[0];
      assert (w + b)[1..] == w[1..] + b;
      RunThenBoundary(w[1..], b);
    }
  }

  /** A whole run of two or more word characters at the start is the first token. */
  lemma RunIsToken(w: string, b: string)
    requires |w| >= 2 && forall k :: 0 <= k < |w| ==> IsWordChar(w[k])
    requires b == [] || !IsWordChar(b[0])
    ensures WordRuns(w + b) == [w] + WordRuns(b)
  {
    RunThenBoundary(w, b);
    assert (w + b)[0] == w[0];
    assert (w + b)[..|w|] == w;
    assert (w + b)[|w|..] == b;
  }

  /**
   * Tokens are exactly the maximal runs: a run of two or more word characters
   * with a non-word character (or the end) on each side is a token, in place,
   * between the tokens of the text before it and those of the text after it.
   */
  lemma TokenBetween(a: string, w: string, b: string)
    requires a == [] || !IsWordChar(a[|a| - 1])
    requires |w| >= 2 && forall k :: 0 <= k < |w| ==> IsWordChar(w[k])
    requires b == [] || !IsWordChar(b[0])
    ensures WordRuns(a + w + b) == WordRuns(a) + [w] + WordRuns(b)
  {
    assert a + w + b == a + (w + b);
    WordRunsSplit(a, w + b);
    RunIsToken(w, b);
    ConcatAssociates(WordRuns(a), [w], WordRuns(b));
  }

  /** Text with no two adjacent word characters has no token. */
  lemma {:induction false} NoLongRunNoTokens(s: string)
    requires forall k :: 0 <= k < |s| - 1 ==> !(IsWordChar(s[k]) && IsWordChar(s[k + 1]))
    ensures WordRuns(s) == []
    decreases |s|
  {
    if s != [] {
      var t := s[1..];
      assert forall k :: 0 <= k < |t| ==> t[k] == s[k + 1];
      if IsWordChar(s[0]) {
        assert WordRunLength(s) == 1 by {
          assert |s| > 1 ==> !IsWordChar(s[1]);
          assert |s| > 1 ==> s[1..][0] == s[1];
        }
      }
      NoLongRunNoTokens(s[1..]);
    }
  }

  /** Lowercasing neither makes nor unmakes a word character. */
  lemma LowerKeepsWordChars(s: string)
    ensures forall i :: 0 <= i < |s| ==> (IsWordChar(Lower(s)[i]) <==> IsWordChar(s[i]))
  {
  }

  lemma LowerConcat(x: string, y: string)
    ensures Lower(x + y) == Lower(x) + Lower(y)
  {
    assert forall i :: 0 <= i < |x| ==> (x + y)[i] == x[i];
    assert forall j :: 0 <= j < |y| ==> (x + y)[|x| + j] == y[j];
  }

  /**
   * `tokenize(text)` finds a run of two or more word characters standing
   * between non-word characters as the lowercased token, in place.
   */
  lemma TokenizeFindsRun(a: string, w: string, b: string)
    requires a == [] || !IsWordChar(a[|a| - 1])
    requires |w| >= 2 && forall k :: 0 <= k < |w| ==> IsWordChar(w[k])
    requires b == [] || !IsWordChar(b[0])
    ensures Tokenize(a + w + b) == Tokenize(a) + [Lower(w)] + Tokenize(b)
  {
    LowerConcat(a, w);
    LowerConcat(a + w, b);
    LowerKeepsWordChars(a);
    LowerKeepsWordChars(w);
    LowerKeepsWordChars(b);
    TokenBetween(Lower(a), Lower(w), Lower(b));
  }

  /** A vocabulary key containing whitespace (a bigram such as "waste money") is never a token. */
  lemma MultiWordKeyNeverTokenized(text: string, key: string)
    requires exists c :: c in key && IsSpace(c)
    ensures key !in Tokenize(text)
  {
  }
}
