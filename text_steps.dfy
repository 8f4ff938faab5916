/**
 * The text normalisation steps that both cleaners run in the same fixed order
 * (api/index.py:90-103 and frontend/src/preprocessing.py:61-74): lowercase,
 * strip `<...>` tags, strip URLs, drop non-ASCII characters, drop ASCII
 * punctuation; then Python's `str.split()` and `" ".join`.
 */
module TextSteps {
  import opened Wrappers
  import opened Seqs

  /** The argument a cleaner receives: a Python `str`, or any other object. */
  datatype Input = Str(text: string) | NotStr

  predicate IsAscii(c: char) { (c as int) < 128 }

  predicate IsUpper(c: char) { 'A' <= c <= 'Z' }

  /** Python's `string.punctuation`: the 32 ASCII punctuation characters. */
  const PUNCTUATION: set<char> := {
    '!', '"', '#', '$', '%', '&', '\'', '(', ')', '*', '+', ',', '-', '.', '/',
    ':', ';', '<', '=', '>', '?', '@', '[', '\\', ']', '^', '_', '`', '{', '|', '}', '~'
  }

  /** Python's `str.isspace()`, which is also what `\s` and `str.split()` use. */
  predicate IsSpace(c: char)
  {
    || c == ' '
    || ('\t' <= c <= '\r')                  // \t \n \v \f \r
    || ('\U{1C}' <= c <= '\U{1F}')          // file, group, record and unit separators
    || c == '\U{85}' || c == '\U{A0}' || c == '\U{1680}'
    || ('\U{2000}' <= c <= '\U{200A}')
    || c == '\U{2028}' || c == '\U{2029}' || c == '\U{202F}' || c == '\U{205F}' || c == '\U{3000}'
  }

  /** All characters of `s` satisfy the three character-level guarantees of normalised text. */
  predicate CleanChars(s: string)
  {
    forall c :: c in s ==> IsAscii(c) && !IsUpper(c) && c !in PUNCTUATION
  }

  // ---------------------------------------------------------------- step 1: lower()

  function LowerChar(c: char): char
  {
    if IsUpper(c) then (c as int + 32) as char else c
  }

  /** `str.lower()` on the ASCII letters; every other character is passed through. */
  function Lower(s: string): (r: string)
    ensures |r| == |s|
    ensures forall c :: c in r ==> !IsUpper(c)
    ensures forall i :: 0 <= i < |s| && !IsUpper(s[i]) ==> r[i] == s[i]
    ensures forall i :: 0 <= i < |s| && IsUpper(s[i]) ==> r[i] as int == s[i] as int + 32
  {
    seq(|s|, i requires 0 <= i < |s| => LowerChar(s[i]))
  }

  /** Lowercasing text that has no upper-case letter changes nothing. */
  lemma LowerWithoutUpper(s: string)
    requires forall c :: c in s ==> !IsUpper(c)
    ensures Lower(s) == s
  {
    assert forall i :: 0 <= i < |s| ==> Lower(s)[i] == s[i];
  }

  // ---------------------------------------------------------------- step 2: re.sub(r'<.*?>', '')

  /**
   * Where the lazy match `<.*?>` opened before position `i` ends: the first `>`
   * at or after `i`, provided no newline (which `.` does not match) comes first.
   */
  function TagEnd(s: string, i: nat): (r: Option<nat>)
    requires i <= |s|
    decreases |s| - i
    ensures r.Some? ==> i <= r.value < |s| && s[r.value] == '>'
    ensures r.Some? ==> forall k :: i <= k < r.value ==> s[k] != '>' && s[k] != '\n'
    ensures r.None? ==> forall k :: i <= k < |s| && s[k] == '>' ==> exists m :: i <= m < k && s[m] == '\n'
  {
    if i == |s| then None
    else if s[i] == '>' then Some(i)
    else if s[i] == '\n' then None
    else TagEnd(s, i + 1)
  }

  /** No `>` comes before the first newline of `t`: a `<` just before `t` opens no tag. */
  predicate NoTagClose(t: string)
    decreases |t|
  {
    t == [] || (t[0] != '>' && (t[0] == '\n' || NoTagClose(t[1..])))
  }

  /** `TagEnd` finds nothing exactly when the rest of the text closes no tag. */
  lemma {:induction false} TagEndNone(s: string, i: nat)
    requires i <= |s|
    ensures TagEnd(s, i).None? <==> NoTagClose(s[i..])
    decreases |s| - i
  {
    if i < |s| {
      assert s[i..][1..] == s[i + 1..];
      TagEndNone(s, i + 1);
    }
  }

  /**
   * Removes, left to right, every non-overlapping match of `<.*?>`. No match
   * is left afterwards: every `<` that remains is followed by a newline before
   * any `>`. Newlines are never removed, so text that closes no tag still
   * closes none.
   */
  function RemoveTags(s: string): (r: string)
    decreases |s|
    ensures |r| <= |s|
    ensures forall c :: c in r ==> c in s
    ensures '<' !in s ==> r == s
    ensures NoTagClose(s) ==> NoTagClose(r)
    ensures forall i :: 0 <= i < |r| && r[i] == '<' ==> NoTagClose(r[i + 1..])
  {
    if s == [] then []
    else if s[0] == '<' && TagEnd(s, 1).Some? then
      var rest := s[TagEnd(s, 1).value + 1..];
      var r := RemoveTags(rest);
      assert forall c :: c in rest ==> c in s;
      assert !NoTagClose(s) by { TagEndNone(s, 1); }
      r
    else
      var tail := RemoveTags(s[1..]);
      var r := [s[0]] + tail;
      assert forall c :: c in s[1..] ==> c in s;
      assert r[1..] == tail;
      assert s[0] == '<' ==> NoTagClose(tail) by {
        if s[0] == '<' {
          TagEndNone(s, 1);
        }
      }
      assert forall i :: 1 <= i < |r| ==> r[i] == tail[i - 1] && r[i + 1..] == tail[i..];
      r
  }

  /** A tag at the start of the text is removed whole. */
  lemma RemoveTagsOfTag(t: string, b: string)
    requires '>' !in t && '\n' !in t
    ensures RemoveTags("<" + t + ">" + b) == RemoveTags(b)
  {
    var s := "<" + t + ">" + b;
    assert forall k :: 1 <= k <= |t| ==> s[k] == t[k - 1] && t[k - 1] in t;
    assert s[|t| + 1] == '>';
    assert TagEnd(s, 1).Some?;
    assert TagEnd(s, 1).value == |t| + 1;
    assert s[|t| + 2..] == b;
  }

  /** A character that opens no tag is kept, and removal continues after it. */
  lemma RemoveTagsKeep(c: char, b: string)
    requires c != '<'
    ensures RemoveTags([c] + b) == [c] + RemoveTags(b)
  {
    assert ([c] + b)[1..] == b;
  }

  /** A `<` that no later `>` closes before a newline is kept, and removal continues after it. */
  lemma RemoveTagsUnclosed(b: string)
    requires NoTagClose(b)
    ensures RemoveTags("<" + b) == "<" + RemoveTags(b)
  {
    var s := "<" + b;
    assert s[1..] == b;
    TagEndNone(s, 1);
  }

  // ---------------------------------------------------------------- step 3: re.sub(r'http\S+|www\S+|https\S+', '')

  /** Length of the run of non-whitespace characters at the start of `s`. */
  function NonSpaceRun(s: string): (n: nat)
    ensures n <= |s|
    ensures forall k :: 0 <= k < n ==> !IsSpace(s[k])
    ensures n < |s| ==> IsSpace(s[n])
  {
    if s == [] || IsSpace(s[0]) then 0 else 1 + NonSpaceRun(s[1..])
  }

  predicate StartsWith(s: string, prefix: string)
  {
    |prefix| <= |s| && s[..|prefix|] == prefix
  }

  /**
   * One of the three alternatives of the URL pattern matches at the start of
   * `s`. The third, `https\S+`, never matches where `http\S+` does not, so it
   * adds nothing; it is kept to follow the pattern as written.
   */
  predicate UrlAt(s: string): (r: bool)
    ensures r ==> NonSpaceRun(s) >= 4
  {
    var r :=
      || (StartsWith(s, "http") && |s| > 4 && !IsSpace(s[4]))
      || (StartsWith(s, "www") && |s| > 3 && !IsSpace(s[3]))
      || (StartsWith(s, "https") && |s| > 5 && !IsSpace(s[5]));
    assert r ==> NonSpaceRun(s) >= 4 by {
      if r {
        assert s[0] == s[..4][0] && s[1] == s[..4][1] && s[2] == s[..4][2];
        assert s[3] == 'p' || s[3] == s[..4][3];
      }
    }
    r
  }

  /** The `https\S+` alternative matches only where `http\S+` already does. */
  lemma HttpsMatchesHttp(s: string)
    requires StartsWith(s, "https") && |s| > 5 && !IsSpace(s[5])
    ensures StartsWith(s, "http") && |s| > 4 && !IsSpace(s[4])
  {
    assert s[..4] == s[..5][..4];
  }

  /** The URL pattern matches at no position of `r`. */
  predicate NoUrl(r: string)
  {
    forall k :: 0 <= k < |r| ==> !UrlAt(r[k..])
  }

  /** The leading run of non-space characters of `r` is also the start of `s`. */
  predicate LeadingRunOf(r: string, s: string)
  {
    NonSpaceRun(r) <= |s| && r[..NonSpaceRun(r)] == s[..NonSpaceRun(r)]
  }

  /** Whether the URL pattern matches at the start depends only on the leading run of non-space characters. */
  lemma UrlAtSameRun(u: string, v: string)
    requires LeadingRunOf(u, v)
    requires UrlAt(u)
    ensures UrlAt(v)
  {
    var m := NonSpaceRun(u);
    if StartsWith(u, "https") && |u| > 5 && !IsSpace(u[5]) {
      HttpsMatchesHttp(u);
    }
    if StartsWith(u, "http") && |u| > 4 && !IsSpace(u[4]) {
      assert m >= 5 by {
        assert u[..4] == "http";
        assert !IsSpace(u[0]) && !IsSpace(u[1]) && !IsSpace(u[2]) && !IsSpace(u[3]);
      }
      assert u[..m][..5] == u[..5] && v[..m][..5] == v[..5];
      assert v[..4] == u[..4] && v[4] == u[4];
    } else {
      assert u[..m][..4] == u[..4] && v[..m][..4] == v[..4];
      assert v[..3] == u[..3] && v[3] == u[3];
    }
  }

  /**
   * Removes, left to right, every match of the URL pattern. Each alternative is
   * a literal of non-space characters followed by a greedy `\S+`, so a match
   * is the rest of the run of non-space characters where it starts. No match
   * is left afterwards, every whitespace character is kept, and the leading
   * run of non-space characters of the result is a prefix of the input.
   */
  function RemoveUrls(s: string): (r: string)
    decreases |s|
    ensures |r| <= |s|
    ensures forall c :: c in r ==> c in s
    ensures forall c :: IsSpace(c) ==> multiset(r)[c] == multiset(s)[c]
    ensures LeadingRunOf(r, s)
    ensures NoUrl(r)
  {
    if s == [] then []
    else if UrlAt(s) then
      var n := NonSpaceRun(s);
      DropRunKeepsSpaces(s, n);
      var r := RemoveUrls(s[n..]);
      assert s[n..] != [] ==> !UrlAt(s[n..]) && r != [] && r[0] == s[n];
      NoRunAfterUrl(s, s[n..], r);
      r
    else
      var tail := RemoveUrls(s[1..]);
      assert s == [s[0]] + s[1..];
      assert forall c :: c in s[1..] ==> c in s;
      KeepFirstCharacter(s, tail);
      [s[0]] + tail
  }

  /** The step of `RemoveUrls` that keeps a first character where no URL starts. */
  lemma KeepFirstCharacter(s: string, tail: string)
    requires s != [] && !UrlAt(s)
    requires LeadingRunOf(tail, s[1..]) && NoUrl(tail)
    ensures LeadingRunOf([s[0]] + tail, s) && NoUrl([s[0]] + tail)
  {
    var r := [s[0]] + tail;
    ConsRunPrefix(s, tail);
    assert !UrlAt(r) by {
      if UrlAt(r) {
        UrlAtSameRun(r, s);
      }
    }
    ConsNoUrlAfterFirst(s[0], tail);
  }

  /** Putting the first character of `s` before `tail` keeps `tail`'s leading run a prefix of the text. */
  lemma ConsRunPrefix(s: string, tail: string)
    requires s != [] && LeadingRunOf(tail, s[1..])
    ensures LeadingRunOf([s[0]] + tail, s)
  {
    var r := [s[0]] + tail;
    assert r[1..] == tail;
    if !IsSpace(s[0]) {
      var m := NonSpaceRun(tail);
      assert NonSpaceRun(r) == 1 + m;
      assert r[..1 + m] == [s[0]] + tail[..m];
      assert s[..1 + m] == [s[0]] + s[1..][..m];
    }
  }

  /** The positions after the first of `[c] + tail` are those of `tail`. */
  lemma ConsNoUrlAfterFirst(c: char, tail: string)
    requires !UrlAt([c] + tail) && NoUrl(tail)
    ensures NoUrl([c] + tail)
  {
    var r := [c] + tail;
    forall k | 1 <= k < |r| ensures !UrlAt(r[k..]) {
      assert r[k..] == tail[k - 1..];
    }
    assert r[0..] == r;
  }

  /** After a URL run the rest starts at whitespace, so its result has no leading run. */
  lemma NoRunAfterUrl(s: string, t: string, r: string)
    requires t == [] || IsSpace(t[0])
    requires t == [] ==> r == []
    requires t != [] ==> r != [] && r[0] == t[0]
    ensures NonSpaceRun(r) == 0
    ensures LeadingRunOf(r, s)
  {
  }

  /** A URL at the start of the text is removed up to the next whitespace. */
  lemma UrlRunRemoved(w: string, t: string)
    requires UrlAt(w) && SpaceFree(w)
    requires t == [] || IsSpace(t[0])
    ensures RemoveUrls(w + t) == RemoveUrls(t)
  {
    var s := w + t;
    assert forall k :: 0 <= k < |w| ==> s[k] == w[k] && w[k] in w;
    assert |w| < |s| ==> s[|w|] == t[0];
    assert NonSpaceRun(s) == |w|;
    assert NonSpaceRun(w) == |w| by {
      assert forall k :: 0 <= k < |w| ==> w[k] in w;
    }
    assert s[..|w|] == w;
    UrlAtSameRun(w, s);
    assert s[|w|..] == t;
  }

  /** A character where the URL pattern does not match is kept, and removal continues after it. */
  lemma RemoveUrlsKeep(c: char, t: string)
    requires !UrlAt([c] + t)
    ensures RemoveUrls([c] + t) == [c] + RemoveUrls(t)
  {
    assert ([c] + t)[1..] == t;
  }

  /** Cutting off a leading run of non-space characters keeps every whitespace character. */
  lemma DropRunKeepsSpaces(s: string, n: nat)
    requires n <= |s|
    requires forall k :: 0 <= k < n ==> !IsSpace(s[k])
    ensures forall c :: c in s[n..] ==> c in s
    ensures forall c :: IsSpace(c) ==> multiset(s[n..])[c] == multiset(s)[c]
  {
    assert s == s[..n] + s[n..];
    assert forall c :: IsSpace(c) ==> c !in s[..n];
  }

  /** Text in which the URL pattern matches nowhere is left as it is. */
  lemma {:induction false} RemoveUrlsNoMatch(s: string)
    requires forall k :: 0 <= k < |s| ==> !UrlAt(s[k..])
    ensures RemoveUrls(s) == s
    decreases |s|
  {
    if s != [] {
      assert !UrlAt(s[0..]) by { assert s[0..] == s; }
      forall k | 0 <= k < |s[1..]| ensures !UrlAt(s[1..][k..]) {
        assert s[1..][k..] == s[k + 1..];
      }
      RemoveUrlsNoMatch(s[1..]);
    }
  }

  // ---------------------------------------------------------------- steps 4 and 5: character filters

  /** `encode('ascii', 'ignore').decode('ascii')`: keeps exactly the ASCII characters, in order. */
  function DropNonAscii(s: string): (r: string)
    ensures |r| <= |s|
    ensures forall c :: c in r <==> c in s && IsAscii(c)
    ensures forall c :: multiset(r)[c] == if IsAscii(c) then multiset(s)[c] else 0
    ensures IsSubsequence(r, s)
  {
    if s == [] then []
    else
      var tail := DropNonAscii(s[1..]);
      assert s == [s[0]] + s[1..];
      FilterStep(s[0], s[1..], tail, IsAscii(s[0]));
      (if IsAscii(s[0]) then [s[0]] else []) + tail
  }

  /** `translate(str.maketrans('', '', string.punctuation))`: deletes every punctuation character. */
  function RemovePunctuation(s: string): (r: string)
    ensures |r| <= |s|
    ensures forall c :: c in r <==> c in s && c !in PUNCTUATION
    ensures forall c :: multiset(r)[c] == if c in PUNCTUATION then 0 else multiset(s)[c]
    ensures IsSubsequence(r, s)
  {
    FilterOut(s, PUNCTUATION)
  }

  /** On text that is already ASCII and free of punctuation, steps 4 and 5 change nothing. */
  lemma FiltersKeepCleanText(s: string)
    requires CleanChars(s)
    ensures DropNonAscii(s) == s
    ensures RemovePunctuation(s) == s
  {
    AsciiKept(s);
    UnpunctuatedKept(s);
  }

  lemma {:induction false} AsciiKept(s: string)
    requires forall c :: c in s ==> IsAscii(c)
    ensures DropNonAscii(s) == s
  {
    if s != [] {
      assert s[0] in s;
      assert forall c :: c in s[1..] ==> c in s;
      AsciiKept(s[1..]);
    }
  }

  lemma {:induction false} UnpunctuatedKept(s: string)
    requires forall c :: c in s ==> c !in PUNCTUATION
    ensures RemovePunctuation(s) == s
  {
    if s != [] {
      assert s[0] in s;
      assert forall c :: c in s[1..] ==> c in s;
      UnpunctuatedKept(s[1..]);
    }
  }

  /** Steps 1 to 5, in the order both cleaners apply them. */
  function Normalize(s: string): (r: string)
    ensures CleanChars(r)
    ensures forall c :: c in r ==> c in Lower(s)
  {
    RemovePunctuation(DropNonAscii(RemoveUrls(RemoveTags(Lower(s)))))
  }

  // ---------------------------------------------------------------- step 6 plumbing: split() and " ".join

  predicate SpaceFree(w: string) { forall c :: c in w ==> !IsSpace(c) }

  /**
   * Python's `str.split()` without arguments: the maximal runs of
   * non-whitespace, in order. Every non-whitespace character of the text lands
   * in a word, and the words hold nothing else. `SplitAfterWord` and
   * `SplitAfterSpace` give the two cases that, with `SplitWords("") == []`,
   * determine the result.
   */
  function SplitWords(s: string): (ws: seq<string>)
    decreases |s|
    ensures forall w :: w in ws ==> w != [] && SpaceFree(w)
    ensures forall w, c :: w in ws && c in w ==> c in s
    ensures forall c :: c in s && !IsSpace(c) ==> exists w :: w in ws && c in w
  {
    if s == [] then []
    else if IsSpace(s[0]) then
      var ws := SplitWords(s[1..]);
      SplitStep(s, 1, [], ws);
      ws
    else
      var n := NonSpaceRun(s);
      var rest := SplitWords(s[n..]);
      SplitStep(s, n, [s[..n]], rest);
      [s[..n]] + rest
  }

  /**
   * The step of `SplitWords`: `s` starts with `s[..n]`, which is either one
   * whitespace character (`first == []`) or a whole word (`first == [s[..n]]`),
   * and `rest` is what splitting `s[n..]` gives.
   */
  lemma SplitStep(s: string, n: nat, first: seq<string>, rest: seq<string>)
    requires 0 < n <= |s|
    requires first == [] ==> n == 1 && IsSpace(s[0])
    requires first != [] ==> first == [s[..n]] && forall k :: 0 <= k < n ==> !IsSpace(s[k])
    requires forall w :: w in rest ==> w != [] && SpaceFree(w)
    requires forall w, c :: w in rest && c in w ==> c in s[n..]
    requires forall c :: c in s[n..] && !IsSpace(c) ==> exists w :: w in rest && c in w
    ensures forall w :: w in first + rest ==> w != [] && SpaceFree(w)
    ensures forall w, c :: w in first + rest && c in w ==> c in s
    ensures forall c :: c in s && !IsSpace(c) ==> exists w :: w in first + rest && c in w
  {
    var ws := first + rest;
    assert s == s[..n] + s[n..];
    assert forall c :: c in s[n..] ==> c in s;
    assert forall w :: w in rest ==> w in ws;
    if first != [] {
      assert s[..n] in ws;
      assert forall c :: c in s[..n] ==> c in s;
      assert forall i :: 0 <= i < n ==> s[..n][i] == s[i];
    } else {
      assert s[..n] == [s[0]];
    }
  }

  /** The words written one after another, with nothing between them. */
  function Concat(ws: seq<string>): string
  {
    if ws == [] then "" else ws[0] + Concat(ws[1..])
  }

  /** The text with every whitespace character deleted. */
  function DropSpaces(s: string): string
  {
    if s == [] then "" else (if IsSpace(s[0]) then "" else [s[0]]) + DropSpaces(s[1..])
  }

  lemma {:induction false} DropSpacesConcat(a: string, b: string)
    ensures DropSpaces(a + b) == DropSpaces(a) + DropSpaces(b)
    decreases |a|
  {
    if a == [] {
      assert a + b == b;
    } else {
      assert (a + b)[0] == a[0] && (a + b)[1..] == a[1..] + b;
      DropSpacesConcat(a[1..], b);
    }
  }

  lemma {:induction false} DropSpacesOfRun(s: string, n: nat)
    requires n <= |s| && forall k :: 0 <= k < n ==> !IsSpace(s[k])
    ensures DropSpaces(s[..n]) == s[..n]
    decreases n
  {
    if n > 0 {
      assert s[..n][1..] == s[1..][..n - 1];
      DropSpacesOfRun(s[1..], n - 1);
    }
  }

  /**
   * `split()` keeps every non-whitespace character, in order and as often as
   * it occurs: the words written one after another are the text without its
   * whitespace.
   */
  lemma {:induction false} SplitWordsInOrder(s: string)
    ensures Concat(SplitWords(s)) == DropSpaces(s)
    decreases |s|
  {
    if s != [] {
      if IsSpace(s[0]) {
        SplitWordsInOrder(s[1..]);
      } else {
        var n := NonSpaceRun(s);
        var rest := SplitWords(s[n..]);
        SplitWordsInOrder(s[n..]);
        assert ([s[..n]] + rest)[1..] == rest;
        assert s == s[..n] + s[n..];
        DropSpacesConcat(s[..n], s[n..]);
        DropSpacesOfRun(s, n);
      }
    }
  }

  /** The number of characters in all the words together. */
  function TotalLength(ws: seq<string>): nat
  {
    if ws == [] then 0 else |ws[0]| + TotalLength(ws[1..])
  }

  /** `" ".join(ws)`: the words and one separator between each two of them. */
  function JoinWords(ws: seq<string>): (r: string)
    ensures ws != [] ==> |r| == TotalLength(ws) + |ws| - 1
    ensures ws == [] ==> r == ""
  {
    if ws == [] then ""
    else if |ws| == 1 then ws[0]
    else ws[0] + " " + JoinWords(ws[1..])
  }

  /** Every character of a join is a separating space or a character of one of the words. */
  lemma {:induction false} JoinChars(ws: seq<string>)
    ensures forall c :: c in JoinWords(ws) ==> c == ' ' || exists w :: w in ws && c in w
  {
    if |ws| > 1 {
      JoinChars(ws[1..]);
      forall c | c in JoinWords(ws)
        ensures c == ' ' || exists w :: w in ws && c in w
      {
        var tail := JoinWords(ws[1..]);
        assert JoinWords(ws) == ws[0] + " " + tail;
        if c in ws[0] {
        } else if c == ' ' {
        } else {
          assert c in tail;
          var w :| w in ws[1..] && c in w;
          assert w in ws;
        }
      }
    } else if |ws| == 1 {
      assert ws[0] in ws;
    }
  }

  /** Joining words taken from normalised text keeps its character-level guarantees. */
  lemma JoinCleanWords(ws: seq<string>, t: string)
    requires CleanChars(t)
    requires forall w, c :: w in ws && c in w ==> c in t
    ensures CleanChars(JoinWords(ws))
  {
    JoinChars(ws);
  }

  /** The words kept from splitting normalised text carry only its characters. */
  lemma KeptWordChars(t: string, stop: set<string>)
    ensures forall w, c :: w in RemoveStopwords(SplitWords(t), stop) && c in w ==> c in t
  {
  }

  /** Text laid out as words separated by single spaces: no leading, trailing or doubled space, no other whitespace. */
  predicate SingleSpaced(r: string)
  {
    && (forall c :: c in r && IsSpace(c) ==> c == ' ')
    && (r != [] ==> r[0] != ' ' && r[|r| - 1] != ' ')
    && (forall i :: 0 <= i < |r| - 1 ==> !(r[i] == ' ' && r[i + 1] == ' '))
  }

  /** Joining non-empty words that contain no whitespace gives single-spaced text. */
  lemma {:induction false} JoinSingleSpaced(ws: seq<string>)
    requires forall w :: w in ws ==> w != [] && SpaceFree(w)
    ensures SingleSpaced(JoinWords(ws))
  {
    if |ws| > 1 {
      var tail := JoinWords(ws[1..]);
      assert forall v :: v in ws[1..] ==> v in ws;
      JoinSingleSpaced(ws[1..]);
      var r := JoinWords(ws);
      var w := ws[0];
      assert w in ws;
      assert r == w + " " + tail;
      assert tail != [] by { assert ws[1] in ws[1..]; JoinNonEmpty(ws[1..]); }
      forall c | c in r && IsSpace(c) ensures c == ' ' {
        if c in w {
        } else if c in tail {
        }
      }
      forall i | 0 <= i < |r| - 1 ensures !(r[i] == ' ' && r[i + 1] == ' ') {
        if i < |w| {
          assert r[i] == w[i];
          assert w[i] in w;
        } else if i == |w| {
          assert r[i + 1] == tail[0];
        } else {
          assert r[i] == tail[i - |w| - 1];
          assert r[i + 1] == tail[i - |w|];
        }
      }
      assert r[0] == w[0] && w[0] in w;
      assert r[|r| - 1] == tail[|tail| - 1];
    } else if |ws| == 1 {
      assert ws[0] in ws;
      var w := ws[0];
      assert forall i :: 0 <= i < |w| ==> w[i] in w;
    }
  }

  lemma {:induction false} JoinNonEmpty(ws: seq<string>)
    requires ws != [] && ws[0] != []
    ensures JoinWords(ws) != []
  {
  }

  /** Splitting text that starts with a word and continues at whitespace yields that word first. */
  lemma SplitAfterWord(w: string, t: string)
    requires w != [] && SpaceFree(w)
    requires t == [] || IsSpace(t[0])
    ensures SplitWords(w + t) == [w] + SplitWords(t)
  {
    var s := w + t;
    var n := NonSpaceRun(s);
    assert forall k :: 0 <= k < |w| ==> s[k] == w[k] && w[k] in w;
    assert t != [] ==> s[|w|] == t[0];
    assert n == |w|;
    assert s[..n] == w;
    assert s[n..] == t;
  }

  /** `split()` undoes `" ".join` for non-empty words without whitespace. */
  lemma {:induction false} SplitJoin(ws: seq<string>)
    requires forall w :: w in ws ==> w != [] && SpaceFree(w)
    ensures SplitWords(JoinWords(ws)) == ws
  {
    if ws == [] {
    } else if |ws| == 1 {
      assert ws[0] in ws;
      SplitAfterWord(ws[0], "");
      assert ws[0] + "" == ws[0];
    } else {
      assert ws[0] in ws;
      assert forall v :: v in ws[1..] ==> v in ws;
      SplitJoin(ws[1..]);
      SplitJoinStep(ws);
    }
  }

  /** Splitting the join of the words kept from a split gives those words back. */
  lemma SplitJoinKept(t: string, stop: set<string>)
    ensures SplitWords(JoinWords(RemoveStopwords(SplitWords(t), stop))) == RemoveStopwords(SplitWords(t), stop)
  {
    SplitJoin(RemoveStopwords(SplitWords(t), stop));
  }

  /** The step of `SplitJoin`: the first word, then the words of the rest. */
  lemma SplitJoinStep(ws: seq<string>)
    requires |ws| > 1 && ws[0] != [] && SpaceFree(ws[0])
    requires SplitWords(JoinWords(ws[1..])) == ws[1..]
    ensures SplitWords(JoinWords(ws)) == ws
  {
    var w, tail := ws[0], JoinWords(ws[1..]);
    assert JoinWords(ws) == w + (" " + tail);
    SplitAfterWord(w, " " + tail);
    SplitAfterSpace(' ', tail);
    assert ws == [w] + ws[1..];
  }

  /** Leading whitespace produces no word. */
  lemma SplitAfterSpace(c: char, t: string)
    requires IsSpace(c)
    ensures SplitWords([c] + t) == SplitWords(t)
  {
    assert ([c] + t)[1..] == t;
  }

  // ---------------------------------------------------------------- stopword filter

  /**
   * `[w for w in words if w not in stop]`: the words that are not stopwords,
   * each as often as in the input, in their original order.
   */
  function RemoveStopwords(words: seq<string>, stop: set<string>): (r: seq<string>)
    ensures |r| <= |words|
    ensures forall w :: w in r <==> w in words && w !in stop
    ensures forall w :: multiset(r)[w] == if w in stop then 0 else multiset(words)[w]
    ensures IsSubsequence(r, words)
  {
    FilterOut(words, stop)
  }
}
