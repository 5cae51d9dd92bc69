/** The comparison-operator rewrite of the list-query middleware: every
    match of the regular expression `\b(gt|gte|lt|lte|in)\b` in the
    serialised filter gets a `$` in front of it (global replace).

    `Rewrite` follows the regex engine: it scans left to right, tests the
    leading `\b`, tries the five alternatives in their written order, each
    followed by the trailing `\b`, and resumes after a match. `RewriteWords`
    is an independent word-by-word reference: the text is cut into maximal
    runs of word characters, and a run equal to one of the five tokens gets
    the `$`. The two are proved equal, and the lemmas below state what the
    rewrite inserts, where, and how much. */
module OperatorRewrite {

  /** The characters `\w` and `\b` treat as word characters (no `u` flag):
      ASCII letters, digits and underscore. */
  predicate IsWordChar(c: char) {
    ('a' <= c <= 'z') || ('A' <= c <= 'Z') || ('0' <= c <= '9') || c == '_'
  }

  predicate AllWord(w: string) {
    forall k :: 0 <= k < |w| ==> IsWordChar(w[k])
  }

  predicate IsOperator(w: string) {
    w == "gt" || w == "gte" || w == "lt" || w == "lte" || w == "in"
  }

  /** `\b` at position `i` (between `s[i-1]` and `s[i]`): exactly one side
      is a word character, the outside of the string counting as non-word. */
  predicate Boundary(s: string, i: int)
    requires 0 <= i <= |s|
  {
    (i > 0 && IsWordChar(s[i - 1])) != (i < |s| && IsWordChar(s[i]))
  }

  /** Alternative `t` followed by `\b` matches at position `i`. */
  predicate TokenAt(s: string, i: int, t: string)
    requires 0 <= i <= |s|
  {
    i + |t| <= |s| && s[i..i + |t|] == t && Boundary(s, i + |t|)
  }

  /** Length of the regex match at `i`, 0 when there is none: the leading
      `\b`, then the alternatives in their written order. */
  function MatchLen(s: string, i: int): (k: nat)
    requires 0 <= i <= |s|
    ensures k > 0 ==> i + k <= |s|
  {
    if !Boundary(s, i) then 0
    else if TokenAt(s, i, "gt") then 2
    else if TokenAt(s, i, "gte") then 3
    else if TokenAt(s, i, "lt") then 2
    else if TokenAt(s, i, "lte") then 3
    else if TokenAt(s, i, "in") then 2
    else 0
  }

  /** `s.replace(/\b(gt|gte|lt|lte|in)\b/g, m => "$" + m)`, from position `i` on. */
  function ScanFrom(s: string, i: int): string
    requires 0 <= i <= |s|
    decreases |s| - i
  {
    if i == |s| then ""
    else
      var k := MatchLen(s, i);
      if k > 0 then "$" + s[i..i + k] + ScanFrom(s, i + k)
      else [s[i]] + ScanFrom(s, i + 1)
  }

  function Rewrite(s: string): string {
    ScanFrom(s, 0)
  }

  /** End of the run of word characters that starts at `i`. */
  function WordEnd(s: string, i: int): (j: int)
    requires 0 <= i <= |s|
    ensures i <= j <= |s|
    ensures i < |s| && IsWordChar(s[i]) ==> i < j
    ensures j < |s| ==> !IsWordChar(s[j])
    decreases |s| - i
  {
    if i == |s| || !IsWordChar(s[i]) then i else WordEnd(s, i + 1)
  }

  /** Word-by-word reference, from position `i` on: a maximal word equal to
      an operator gets a `$`, everything else is copied. */
  function WordsFrom(s: string, i: int): string
    requires 0 <= i <= |s|
    decreases |s| - i
  {
    if i == |s| then ""
    else if !IsWordChar(s[i]) then [s[i]] + WordsFrom(s, i + 1)
    else
      var j := WordEnd(s, i);
      (if IsOperator(s[i..j]) then "$" else "") + s[i..j] + WordsFrom(s, j)
  }

  function RewriteWords(s: string): string {
    WordsFrom(s, 0)
  }

  /** No word runs across position `i`. */
  predicate NoWordStraddles(s: string, i: int)
    requires 0 <= i <= |s|
  {
    i == 0 || i == |s| || !IsWordChar(s[i - 1]) || !IsWordChar(s[i])
  }

  // ---------------------------------------------------------------------
  // Facts about single steps

  lemma {:induction false} WordEndAllWord(s: string, i: int)
    requires 0 <= i <= |s|
    ensures forall k :: i <= k < WordEnd(s, i) ==> IsWordChar(s[k])
    decreases |s| - i
  {
    if i < |s| && IsWordChar(s[i]) {
      WordEndAllWord(s, i + 1);
    }
  }

  lemma NoMatchAtNonWord(s: string, i: int)
    requires 0 <= i < |s| && !IsWordChar(s[i])
    ensures MatchLen(s, i) == 0
  {
  }

  /** A run of word characters from `i` that stops at `e` is the word. */
  lemma {:induction false} WordEndAt(s: string, i: int, e: int)
    requires 0 <= i <= e <= |s|
    requires forall k :: i <= k < e ==> IsWordChar(s[k])
    requires e == |s| || !IsWordChar(s[e])
    ensures WordEnd(s, i) == e
    decreases e - i
  {
    if i < e {
      WordEndAt(s, i + 1, e);
    }
  }

  lemma TokenIsWord(s: string, i: int, t: string)
    requires 0 <= i < |s| && |t| > 0 && AllWord(t) && TokenAt(s, i, t)
    ensures WordEnd(s, i) == i + |t|
  {
    var e := i + |t|;
    assert forall k :: i <= k < e ==> IsWordChar(s[k]) by {
      forall k | i <= k < e
        ensures IsWordChar(s[k])
      {
        assert s[k] == s[i..e][k - i];
      }
    }
    assert IsWordChar(s[e - 1]);
    WordEndAt(s, i, e);
  }

  lemma WordIsToken(s: string, i: int, t: string)
    requires 0 <= i < |s| && IsWordChar(s[i]) && s[i..WordEnd(s, i)] == t
    ensures TokenAt(s, i, t)
  {
    var j := WordEnd(s, i);
    WordEndAllWord(s, i);
    assert IsWordChar(s[j - 1]);
  }

  /** An alternative made of word characters matches at the start of a word
      exactly when it is that whole word. */
  lemma TokenAtWordStart(s: string, i: int, t: string)
    requires 0 <= i < |s| && IsWordChar(s[i])
    requires |t| > 0 && AllWord(t)
    ensures TokenAt(s, i, t) <==> s[i..WordEnd(s, i)] == t
  {
    if TokenAt(s, i, t) {
      TokenIsWord(s, i, t);
    }
    if s[i..WordEnd(s, i)] == t {
      WordIsToken(s, i, t);
    }
  }

  lemma MatchAtWordStart(s: string, i: int)
    requires 0 <= i < |s| && IsWordChar(s[i])
    requires i == 0 || !IsWordChar(s[i - 1])
    ensures var j := WordEnd(s, i);
      MatchLen(s, i) == (if IsOperator(s[i..j]) then j - i else 0)
  {
    assert Boundary(s, i);
    TokenAtWordStart(s, i, "gt");
    TokenAtWordStart(s, i, "gte");
    TokenAtWordStart(s, i, "lt");
    TokenAtWordStart(s, i, "lte");
    TokenAtWordStart(s, i, "in");
  }

  lemma ScanAtMatch(s: string, i: int, j: int)
    requires 0 <= i < j <= |s| && MatchLen(s, i) == j - i
    ensures ScanFrom(s, i) == "$" + s[i..j] + ScanFrom(s, j)
  {
  }

  lemma ScanAtNoMatch(s: string, i: int)
    requires 0 <= i < |s| && MatchLen(s, i) == 0
    ensures ScanFrom(s, i) == [s[i]] + ScanFrom(s, i + 1)
  {
  }

  /** Inside a word the scan copies characters: `\b` fails there. */
  lemma {:induction false} ScanInsideWord(s: string, j: int, e: int)
    requires 0 < j <= e <= |s|
    requires forall k :: j - 1 <= k < e ==> IsWordChar(s[k])
    ensures ScanFrom(s, j) == s[j..e] + ScanFrom(s, e)
    decreases e - j
  {
    if j < e {
      assert ScanFrom(s, j) == [s[j]] + ScanFrom(s, j + 1) by {
        assert !Boundary(s, j);
        ScanAtNoMatch(s, j);
      }
      ScanInsideWord(s, j + 1, e);
      ConsSlice(s, j, e);
      ConsAssoc(s[j], s[j + 1..e], ScanFrom(s, e));
    }
  }

  /** The scan over an operator word that starts at `i`. */
  lemma ScanOverOperatorWord(s: string, i: int, j: int)
    requires 0 <= i < |s| && IsWordChar(s[i])
    requires i == 0 || !IsWordChar(s[i - 1])
    requires j == WordEnd(s, i) && IsOperator(s[i..j])
    ensures ScanFrom(s, i) == "$" + s[i..j] + ScanFrom(s, j)
  {
    MatchAtWordStart(s, i);
    ScanAtMatch(s, i, j);
  }

  /** The scan over any other word that starts at `i`. */
  lemma ScanOverPlainWord(s: string, i: int, j: int)
    requires 0 <= i < |s| && IsWordChar(s[i])
    requires i == 0 || !IsWordChar(s[i - 1])
    requires j == WordEnd(s, i) && !IsOperator(s[i..j])
    ensures ScanFrom(s, i) == s[i..j] + ScanFrom(s, j)
  {
    MatchAtWordStart(s, i);
    ScanAtNoMatch(s, i);
    ScanCopiesWord(s, i, j);
    ConsSlice(s, i, j);
    ConsAssoc(s[i], s[i + 1..j], ScanFrom(s, j));
  }

  lemma ConsSlice(s: string, i: int, j: int)
    requires 0 <= i < j <= |s|
    ensures [s[i]] + s[i + 1..j] == s[i..j]
  {
  }

  lemma ConsAssoc<T>(c: T, x: seq<T>, y: seq<T>)
    ensures [c] + (x + y) == ([c] + x) + y
  {
  }

  lemma ScanCopiesWord(s: string, i: int, j: int)
    requires 0 <= i < |s| && IsWordChar(s[i]) && j == WordEnd(s, i)
    ensures ScanFrom(s, i + 1) == s[i + 1..j] + ScanFrom(s, j)
  {
    WordEndAllWord(s, i);
    ScanInsideWord(s, i + 1, j);
  }

  /** The scan over the word that starts at `i`, whatever the word. */
  lemma ScanOverWord(s: string, i: int)
    requires 0 <= i < |s| && IsWordChar(s[i])
    requires i == 0 || !IsWordChar(s[i - 1])
    ensures var j := WordEnd(s, i);
      ScanFrom(s, i) == (if IsOperator(s[i..j]) then "$" else "") + s[i..j] + ScanFrom(s, j)
  {
    var j := WordEnd(s, i);
    if IsOperator(s[i..j]) {
      ScanOverOperatorWord(s, i, j);
    } else {
      ScanOverPlainWord(s, i, j);
      assert "" + s[i..j] == s[i..j];
    }
  }

  // ---------------------------------------------------------------------
  // The regex scan equals the word-by-word rewrite

  lemma {:induction false} ScanIsWordwise(s: string, i: int)
    requires 0 <= i <= |s| && NoWordStraddles(s, i)
    ensures ScanFrom(s, i) == WordsFrom(s, i)
    decreases |s| - i
  {
    if i == |s| {
    } else if !IsWordChar(s[i]) {
      NoMatchAtNonWord(s, i);
      ScanAtNoMatch(s, i);
      ScanIsWordwise(s, i + 1);
    } else {
      ScanOverWord(s, i);
      ScanIsWordwise(s, WordEnd(s, i));
    }
  }

  /** The regex rewrite and the word-by-word rewrite agree on every input. */
  lemma RewriteIsWordwise(s: string)
    ensures Rewrite(s) == RewriteWords(s)
  {
    ScanIsWordwise(s, 0);
  }

  // ---------------------------------------------------------------------
  // Composition: the rewrite works piece by piece

  lemma Assoc<T>(x: seq<T>, y: seq<T>, z: seq<T>)
    ensures x + (y + z) == (x + y) + z
  {
  }

  lemma SliceOfPrefix(a: string, b: string, i: int, j: int)
    requires 0 <= i <= j <= |a|
    ensures (a + b)[i..j] == a[i..j]
  {
  }

  lemma SliceOfSuffix(a: string, b: string, i: int, j: int)
    requires 0 <= i <= j <= |b|
    ensures (a + b)[|a| + i..|a| + j] == b[i..j]
  {
  }

  lemma {:induction false} WordEndOfSuffix(a: string, b: string, m: int)
    requires 0 <= m <= |b|
    ensures WordEnd(a + b, |a| + m) == |a| + WordEnd(b, m)
    decreases |b| - m
  {
    if m < |b| {
      assert (a + b)[|a| + m] == b[m];
      WordEndOfSuffix(a, b, m + 1);
    }
  }

  lemma {:induction false} WordEndOfPrefix(a: string, b: string, i: int)
    requires 0 <= i < |a| && NoWordStraddles(a + b, |a|)
    ensures WordEnd(a + b, i) == WordEnd(a, i)
    decreases |a| - i
  {
    assert (a + b)[i] == a[i];
    if IsWordChar(a[i]) {
      if i + 1 < |a| {
        WordEndOfPrefix(a, b, i + 1);
      } else if |b| > 0 {
        assert (a + b)[|a|] == b[0];
      }
    }
  }

  lemma WordsAtWord(s: string, i: int)
    requires 0 <= i < |s| && IsWordChar(s[i])
    ensures var j := WordEnd(s, i);
      WordsFrom(s, i) == (if IsOperator(s[i..j]) then "$" else "") + s[i..j] + WordsFrom(s, j)
  {
  }

  lemma WordsAtNonWord(s: string, i: int)
    requires 0 <= i < |s| && !IsWordChar(s[i])
    ensures WordsFrom(s, i) == [s[i]] + WordsFrom(s, i + 1)
  {
  }

  lemma {:induction false} WordsOfSuffix(a: string, b: string, m: int)
    requires 0 <= m <= |b|
    ensures WordsFrom(a + b, |a| + m) == WordsFrom(b, m)
    decreases |b| - m, 1
  {
    if m < |b| {
      if IsWordChar(b[m]) {
        WordsOfSuffixWord(a, b, m);
      } else {
        WordsOfSuffixNonWord(a, b, m);
      }
    }
  }

  lemma {:induction false} WordsOfSuffixWord(a: string, b: string, m: int)
    requires 0 <= m < |b| && IsWordChar(b[m])
    ensures WordsFrom(a + b, |a| + m) == WordsFrom(b, m)
    decreases |b| - m, 0
  {
    var j := WordEnd(b, m);
    WordsAtWordOfSuffix(a, b, m);
    WordsAtWord(b, m);
    WordsOfSuffix(a, b, j);
  }

  /** The first word step of the words of `a + b` from inside `b`. */
  lemma WordsAtWordOfSuffix(a: string, b: string, m: int)
    requires 0 <= m < |b| && IsWordChar(b[m])
    ensures var j := WordEnd(b, m);
      WordsFrom(a + b, |a| + m)
        == (if IsOperator(b[m..j]) then "$" else "") + b[m..j] + WordsFrom(a + b, |a| + j)
  {
    var s, n, j := a + b, |a| + m, WordEnd(b, m);
    assert s[n] == b[m];
    WordEndOfSuffix(a, b, m);
    SliceOfSuffix(a, b, m, j);
    WordsAtWord(s, n);
  }

  lemma {:induction false} WordsOfSuffixNonWord(a: string, b: string, m: int)
    requires 0 <= m < |b| && !IsWordChar(b[m])
    ensures WordsFrom(a + b, |a| + m) == WordsFrom(b, m)
    decreases |b| - m, 0
  {
    var s, n := a + b, |a| + m;
    assert s[n] == b[m];
    assert WordsFrom(s, n) == [b[m]] + WordsFrom(s, n + 1) by {
      WordsAtNonWord(s, n);
    }
    WordsAtNonWord(b, m);
    WordsOfSuffix(a, b, m + 1);
  }

  lemma {:induction false} WordsOfPrefix(a: string, b: string, i: int)
    requires 0 <= i <= |a| && NoWordStraddles(a + b, |a|)
    ensures WordsFrom(a + b, i) == WordsFrom(a, i) + WordsFrom(a + b, |a|)
    decreases |a| - i
  {
    var rest := WordsFrom(a + b, |a|);
    if i == |a| {
      assert WordsFrom(a, i) + rest == rest;
    } else {
      assert (a + b)[i] == a[i];
      if IsWordChar(a[i]) {
        var j := WordEnd(a, i);
        WordEndOfPrefix(a, b, i);
        SliceOfPrefix(a, b, i, j);
        WordsOfPrefix(a, b, j);
        Assoc((if IsOperator(a[i..j]) then "$" else "") + a[i..j], WordsFrom(a, j), rest);
      } else {
        WordsOfPrefix(a, b, i + 1);
        Assoc([a[i]], WordsFrom(a, i + 1), rest);
      }
    }
  }

  /** Cutting the text where no word runs across the cut, the rewrite of
      the whole is the rewrite of the pieces. */
  lemma RewriteConcat(a: string, b: string)
    requires NoWordStraddles(a + b, |a|)
    ensures Rewrite(a + b) == Rewrite(a) + Rewrite(b)
  {
    RewriteIsWordwise(a + b);
    RewriteIsWordwise(a);
    RewriteIsWordwise(b);
    WordsOfPrefix(a, b, 0);
    WordsOfSuffix(a, b, 0);
  }

  /** A non-word character on either side of the cut keeps words whole. */
  lemma NonWordCut(a: string, b: string)
    requires (|a| > 0 && !IsWordChar(a[|a| - 1])) || (|b| > 0 && !IsWordChar(b[0]))
    ensures NoWordStraddles(a + b, |a|)
  {
    if |a| > 0 && !IsWordChar(a[|a| - 1]) {
      assert (a + b)[|a| - 1] == a[|a| - 1];
    } else {
      assert (a + b)[|a|] == b[0];
    }
  }

  /** Around a non-word separator the two sides are rewritten apart. */
  lemma RewriteAround(a: string, c: char, b: string)
    requires !IsWordChar(c)
    ensures Rewrite(a + [c] + b) == Rewrite(a) + [c] + Rewrite(b)
  {
    NonWordCut(a + [c], b);
    RewriteConcat(a + [c], b);
    NonWordCut(a, [c]);
    RewriteConcat(a, [c]);
    RewriteNonWordChar(c);
  }

  /** Between non-word delimiters the inside is rewritten on its own. */
  lemma RewriteBetween(open: char, x: string, close: char)
    requires !IsWordChar(open) && !IsWordChar(close)
    ensures Rewrite([open] + x + [close]) == [open] + Rewrite(x) + [close]
  {
    RewriteAround([], open, x + [close]);
    assert [] + [open] + (x + [close]) == [open] + x + [close];
    NonWordCut(x, [close]);
    RewriteConcat(x, [close]);
    RewriteNonWordChar(close);
    assert Rewrite([]) == [];
  }

  /** Text without word characters is copied unchanged. */
  lemma {:induction false} RewriteNoWord(t: string)
    requires forall k :: 0 <= k < |t| ==> !IsWordChar(t[k])
    ensures Rewrite(t) == t
    decreases |t|
  {
    if t == [] {
      assert Rewrite(t) == [];
    } else {
      assert t == [t[0]] + t[1..];
      NonWordCut([t[0]], t[1..]);
      RewriteConcat([t[0]], t[1..]);
      RewriteNonWordChar(t[0]);
      RewriteNoWord(t[1..]);
    }
  }

  /** A single word: the `$` goes in front exactly when it is an operator. */
  lemma RewriteWord(w: string)
    requires |w| > 0 && AllWord(w)
    ensures Rewrite(w) == (if IsOperator(w) then "$" + w else w)
  {
    RewriteIsWordwise(w);
    assert IsWordChar(w[0]);
    WordEndIsEnd(w, 0);
    assert w[0..|w|] == w;
    assert WordsFrom(w, |w|) == "";
  }

  lemma {:induction false} WordEndIsEnd(w: string, i: int)
    requires 0 <= i <= |w| && AllWord(w)
    ensures WordEnd(w, i) == |w|
    decreases |w| - i
  {
    if i < |w| {
      WordEndIsEnd(w, i + 1);
    }
  }

  /** A character that is not a word character is copied unchanged. */
  lemma RewriteNonWordChar(c: char)
    requires !IsWordChar(c)
    ensures Rewrite([c]) == [c]
  {
    assert MatchLen([c], 0) == 0;
    assert ScanFrom([c], 1) == "";
  }

  // ---------------------------------------------------------------------
  // What the rewrite inserts, and how much

  /** Number of matches the global replace makes from position `i` on. */
  function MatchesFrom(s: string, i: int): nat
    requires 0 <= i <= |s|
    decreases |s| - i
  {
    if i == |s| then 0
    else
      var k := MatchLen(s, i);
      if k > 0 then 1 + MatchesFrom(s, i + k) else MatchesFrom(s, i + 1)
  }

  lemma {:induction false} ScanLength(s: string, i: int)
    requires 0 <= i <= |s|
    ensures |ScanFrom(s, i)| == |s| - i + MatchesFrom(s, i)
    decreases |s| - i
  {
    if i < |s| {
      var k := MatchLen(s, i);
      if k > 0 {
        ScanLength(s, i + k);
      } else {
        ScanLength(s, i + 1);
      }
    }
  }

  /** The output is one character longer per match. */
  lemma RewriteLength(s: string)
    ensures |Rewrite(s)| == |s| + MatchesFrom(s, 0)
  {
    ScanLength(s, 0);
  }

  /** `t` with every `$` deleted. */
  function StripDollars(t: string): (r: string)
    ensures '$' !in r && |r| <= |t|
  {
    if t == [] then []
    else (if t[0] == '$' then [] else [t[0]]) + StripDollars(t[1..])
  }

  lemma {:induction false} StripDollarsConcat(a: string, b: string)
    ensures StripDollars(a + b) == StripDollars(a) + StripDollars(b)
    decreases |a|
  {
    if a != [] {
      assert (a + b)[1..] == a[1..] + b;
      StripDollarsConcat(a[1..], b);
      Assoc(if a[0] == '$' then [] else [a[0]], StripDollars(a[1..]), StripDollars(b));
    } else {
      assert a + b == b;
    }
  }

  lemma {:induction false} StripDollarsFree(t: string)
    requires '$' !in t
    ensures StripDollars(t) == t
    decreases |t|
  {
    if t != [] {
      StripDollarsFree(t[1..]);
      assert [t[0]] + t[1..] == t;
    }
  }

  lemma StripSplit(s: string, i: int, j: int)
    requires 0 <= i <= j <= |s|
    ensures StripDollars(s[i..]) == StripDollars(s[i..j]) + StripDollars(s[j..])
  {
    assert s[i..] == s[i..j] + s[j..];
    StripDollarsConcat(s[i..j], s[j..]);
  }

  lemma StripAfterDollar(w: string, rest: string)
    ensures StripDollars("$" + w + rest) == StripDollars(w) + StripDollars(rest)
  {
    StripDollarsConcat("$" + w, rest);
    StripDollarsConcat("$", w);
  }

  lemma StripAfterChar(c: char, rest: string)
    ensures StripDollars([c] + rest) == StripDollars([c]) + StripDollars(rest)
  {
    StripDollarsConcat([c], rest);
  }

  lemma {:induction false} ScanOnlyInsertsDollars(s: string, i: int)
    requires 0 <= i <= |s|
    ensures StripDollars(ScanFrom(s, i)) == StripDollars(s[i..])
    decreases |s| - i
  {
    if i < |s| {
      var k := MatchLen(s, i);
      if k > 0 {
        var j := i + k;
        ScanAtMatch(s, i, j);
        StripAfterDollar(s[i..j], ScanFrom(s, j));
        ScanOnlyInsertsDollars(s, j);
        StripSplit(s, i, j);
      } else {
        ScanAtNoMatch(s, i);
        StripAfterChar(s[i], ScanFrom(s, i + 1));
        ScanOnlyInsertsDollars(s, i + 1);
        StripSplit(s, i, i + 1);
        assert s[i..i + 1] == [s[i]];
      }
    }
  }

  /** Deleting the dollars from the output gives the input with its own
      dollars deleted: nothing but `$` is ever added or removed. */
  lemma RewriteOnlyInsertsDollars(s: string)
    ensures StripDollars(Rewrite(s)) == StripDollars(s)
  {
    ScanOnlyInsertsDollars(s, 0);
    assert s[0..] == s;
  }

  /** On text without dollars of its own, deleting the inserted ones gives
      back the input. */
  lemma RewriteUndoneByStrip(s: string)
    requires '$' !in s
    ensures StripDollars(Rewrite(s)) == s
  {
    RewriteOnlyInsertsDollars(s);
    StripDollarsFree(s);
  }
}
