/**
 * The text normaliser of the FAQ matcher (`SimpleChatbot.preprocess_text`)
 * and the string primitives it is built from: Python's `str.lower()`, the
 * substitution `re.sub(r'[^\w\s]', ' ', text)`, `str.split()` with no
 * separator, `' '.join(...)` and `str.strip()`.
 *
 * Characters are classified by their ASCII meaning: a word character is a
 * letter, a digit or `_`, and whitespace is what `str.isspace()` accepts
 * among the ASCII characters (tab, line feed, vertical tab, form feed,
 * carriage return, the four separators 0x1C-0x1F and the space).
 */
module TextNormalizer {

  // ---------------------------------------------------------------------
  // Character classes
  // ---------------------------------------------------------------------

  /** `c.isspace()` for ASCII characters; also what `\s` matches. */
  predicate IsSpace(c: char) {
    var n := c as int;
    n == 32 || 9 <= n <= 13 || 28 <= n <= 31
  }

  predicate IsUpper(c: char) {
    'A' <= c <= 'Z'
  }

  /** What `\w` matches among ASCII characters. */
  predicate IsWordChar(c: char) {
    'a' <= c <= 'z' || 'A' <= c <= 'Z' || '0' <= c <= '9' || c == '_'
  }

  /** A character that may appear inside a normalised word. */
  predicate IsTokenChar(c: char) {
    IsWordChar(c) && !IsUpper(c)
  }

  function LowerChar(c: char): (r: char)
    ensures !IsUpper(r)
    ensures IsWordChar(r) == IsWordChar(c) && IsSpace(r) == IsSpace(c)
    ensures !IsUpper(c) ==> r == c
    ensures IsUpper(c) ==> r as int - 'a' as int == c as int - 'A' as int
  {
    if IsUpper(c) then (c as int + 32) as char else c
  }

  // ---------------------------------------------------------------------
  // The steps of preprocess_text
  // ---------------------------------------------------------------------

  /** `text.lower()` */
  function Lower(s: string): (r: string)
    ensures |r| == |s|
    ensures forall i :: 0 <= i < |r| ==>
      && !IsUpper(r[i])
      && IsWordChar(r[i]) == IsWordChar(s[i])
      && IsSpace(r[i]) == IsSpace(s[i])
    ensures forall i :: 0 <= i < |s| ==> r[i] == LowerChar(s[i])
  {
    seq(|s|, i requires 0 <= i < |s| => LowerChar(s[i]))
  }

  /** `re.sub(r'[^\w\s]', ' ', text)`: every character that is neither a word
      character nor whitespace becomes a space. */
  function Scrub(s: string): (r: string)
    ensures |r| == |s|
    ensures forall i :: 0 <= i < |r| ==> IsWordChar(r[i]) || IsSpace(r[i])
    ensures forall i :: 0 <= i < |r| && IsWordChar(s[i]) ==> r[i] == s[i]
    ensures forall i :: 0 <= i < |r| && IsSpace(s[i]) ==> r[i] == s[i]
    ensures forall i :: 0 <= i < |r| && !IsWordChar(s[i]) && !IsSpace(s[i]) ==> r[i] == ' '
  {
    seq(|s|, i requires 0 <= i < |s| => if IsWordChar(s[i]) || IsSpace(s[i]) then s[i] else ' ')
  }

  /** Length of the run of non-whitespace characters that starts `s`. */
  function WordLength(s: string): (n: nat)
    ensures n <= |s|
    ensures forall i :: 0 <= i < n ==> !IsSpace(s[i])
    ensures n < |s| ==> IsSpace(s[n])
  {
    if s == [] || IsSpace(s[0]) then 0 else 1 + WordLength(s[1..])
  }

  /** `text.split()`: the maximal runs of non-whitespace characters, in order. */
  function Split(s: string): (words: seq<string>)
    ensures forall k :: 0 <= k < |words| ==> words[k] != ""
    ensures forall k, j :: 0 <= k < |words| && 0 <= j < |words[k]| ==> !IsSpace(words[k][j])
    decreases |s|
  {
    if s == [] then []
    else if IsSpace(s[0]) then Split(s[1..])
    else
      var n := WordLength(s);
      [s[..n]] + Split(s[n..])
  }

  /** The leading run of non-whitespace is determined by where the first
      whitespace character stands. */
  lemma WordLengthUnique(t: string, n: nat)
    requires n <= |t|
    requires forall j :: 0 <= j < n ==> !IsSpace(t[j])
    requires n < |t| ==> IsSpace(t[n])
    ensures WordLength(t) == n
  {
  }

  /** Text appended after a whitespace character does not change the
      leading run. */
  lemma WordLengthAppend(a: string, b: string)
    requires WordLength(a) < |a|
    ensures WordLength(a + b) == WordLength(a)
  {
    WordLengthUnique(a + b, WordLength(a));
  }

  /** `split()` of blank text gives no words. */
  lemma {:induction false} SplitBlank(s: string)
    requires IsBlank(s)
    ensures Split(s) == []
  {
    if s != [] {
      SplitBlank(s[1..]);
    }
  }

  /** `split()` of a single run of non-whitespace gives that run. */
  lemma SplitWord(w: string)
    requires w != "" && forall j :: 0 <= j < |w| ==> !IsSpace(w[j])
    ensures Split(w) == [w]
  {
    WordLengthUnique(w, |w|);
    assert w[..|w|] == w && w[|w|..] == [];
  }

  /** `split()` cuts at every whitespace character: the words on either side
      of one are the words of the two parts. With `SplitBlank` and
      `SplitWord` this fixes `Split` on every string. */
  lemma {:induction false} SplitAtSpace(a: string, c: char, b: string)
    requires IsSpace(c)
    ensures Split(a + [c] + b) == Split(a) + Split(b)
    decreases |a|
  {
    var t := a + [c] + b;
    if a == [] {
      assert t[1..] == b;
    } else if IsSpace(a[0]) {
      assert t[1..] == a[1..] + [c] + b;
      SplitAtSpace(a[1..], c, b);
    } else if WordLength(a) < |a| {
      SplitAtSpace(a[WordLength(a)..], c, b);
      SplitCutWord(a, c, b);
    } else {
      SplitLastWord(a, c, b);
    }
  }

  /** `SplitAtSpace` when `a` starts with a word followed by whitespace:
      the word is split off both sides alike. */
  lemma SplitCutWord(a: string, c: char, b: string)
    requires IsSpace(c) && a != [] && !IsSpace(a[0]) && WordLength(a) < |a|
    requires Split(a[WordLength(a)..] + [c] + b) == Split(a[WordLength(a)..]) + Split(b)
    ensures Split(a + [c] + b) == Split(a) + Split(b)
  {
    var n := WordLength(a);
    SplitFirstWord(a);
    SplitWordPrefix(a, c, b);
    ConsAppend(a[..n], Split(a[n..] + [c] + b), Split(a[n..]), Split(b));
  }

  /** A word of `a` that ends before `a` does is the first word of anything
      that starts with `a`. */
  lemma SplitWordPrefix(a: string, c: char, b: string)
    requires a != [] && !IsSpace(a[0]) && WordLength(a) < |a|
    ensures Split(a + [c] + b) == [a[..WordLength(a)]] + Split(a[WordLength(a)..] + [c] + b)
  {
    var n := WordLength(a);
    var t := a + [c] + b;
    assert t == a + ([c] + b);
    WordLengthAppend(a, [c] + b);
    assert t[..n] == a[..n];
    assert t[n..] == a[n..] + [c] + b;
  }

  lemma ConsAppend<T>(w: T, ys: seq<T>, ps: seq<T>, qs: seq<T>)
    requires ys == ps + qs
    ensures [w] + ys == ([w] + ps) + qs
  {
  }

  /** `SplitAtSpace` when `a` is a single word. */
  lemma SplitLastWord(a: string, c: char, b: string)
    requires IsSpace(c) && a != [] && WordLength(a) == |a|
    ensures Split(a + [c] + b) == Split(a) + Split(b)
  {
    var t := a + [c] + b;
    WordLengthUnique(t, |a|);
    assert t[..|a|] == a;
    assert t[|a|..] == [c] + b;
    assert ([c] + b)[1..] == b;
    assert a[..|a|] == a && a[|a|..] == [];
  }

  /** `' '.join(words)` */
  function Join(words: seq<string>): string
  {
    if words == [] then ""
    else if |words| == 1 then words[0]
    else words[0] + " " + Join(words[1..])
  }

  /** `preprocess_text(text)` */
  function Normalize(s: string): (r: string)
    ensures s == "" ==> r == ""
    ensures IsNormal(r)
  {
    if s == "" then ""
    else
      var words := Split(Scrub(Lower(s)));
      TokensOfCleanText(Scrub(Lower(s)));
      JoinTokensIsNormal(words);
      Join(words)
  }

  // ---------------------------------------------------------------------
  // What a normalised string looks like
  // ---------------------------------------------------------------------

  /** A non-empty word of lower-case letters, digits and underscores. */
  predicate IsToken(w: string) {
    w != "" && forall j :: 0 <= j < |w| ==> IsTokenChar(w[j])
  }

  /** Only lower-case word characters and single spaces, with no space at
      either end. */
  predicate IsNormal(t: string) {
    && (forall i :: 0 <= i < |t| ==> t[i] == ' ' || IsTokenChar(t[i]))
    && (t != "" ==> t[0] != ' ' && t[|t| - 1] != ' ')
    && (forall i :: 0 <= i < |t| - 1 ==> !DoubleSpaceAt(t, i))
  }

  predicate DoubleSpaceAt(t: string, i: nat)
    requires i + 1 < |t|
  {
    t[i] == ' ' && t[i + 1] == ' '
  }

  /** After lower-casing and scrubbing, every character is whitespace or may
      appear in a normalised word. */
  predicate IsClean(s: string) {
    forall i :: 0 <= i < |s| ==> IsSpace(s[i]) || IsTokenChar(s[i])
  }

  lemma ScrubLowerIsClean(s: string)
    ensures IsClean(Scrub(Lower(s)))
  {
  }

  lemma {:induction false} TokensOfCleanText(s: string)
    requires IsClean(s)
    ensures forall k :: 0 <= k < |Split(s)| ==> IsToken(Split(s)[k])
    decreases |s|
  {
    if s == [] {
    } else if IsSpace(s[0]) {
      TokensOfCleanText(s[1..]);
    } else {
      var n := WordLength(s);
      TokensOfCleanText(s[n..]);
      assert IsToken(s[..n]) by {
        forall j | 0 <= j < n ensures IsTokenChar(s[..n][j]) {
          assert s[..n][j] == s[j];
        }
      }
    }
  }

  lemma {:induction false} JoinTokensIsNormal(words: seq<string>)
    requires forall k :: 0 <= k < |words| ==> IsToken(words[k])
    ensures IsNormal(Join(words))
  {
    if |words| > 1 {
      JoinTokensIsNormal(words[1..]);
      var w, rest := words[0], Join(words[1..]);
      var t := w + " " + rest;
      assert Join(words) == t;
      assert rest != "" by { JoinNonEmpty(words[1..]); }
      forall i | 0 <= i < |t| - 1
        ensures !DoubleSpaceAt(t, i)
      {
        if i < |w| - 1 {
          assert t[i] == w[i];
        } else if i == |w| - 1 {
          assert t[i] == w[i];
        } else if i == |w| {
          assert t[i + 1] == rest[0];
        } else {
          assert t[i] == rest[i - |w| - 1] && t[i + 1] == rest[i - |w|];
          assert !DoubleSpaceAt(rest, i - |w| - 1);
        }
      }
      forall i | 0 <= i < |t|
        ensures t[i] == ' ' || IsTokenChar(t[i])
      {
        if i < |w| {
          assert t[i] == w[i];
        } else if i > |w| {
          assert t[i] == rest[i - |w| - 1];
        }
      }
    }
  }

  lemma {:induction false} JoinNonEmpty(words: seq<string>)
    requires words != [] && words[0] != ""
    ensures Join(words) != "" && Join(words)[0] == words[0][0]
  {
  }

  // ---------------------------------------------------------------------
  // split and join are inverse on token lists
  // ---------------------------------------------------------------------

  lemma {:induction false} SplitLeadingSpace(s: string)
    requires s != [] && IsSpace(s[0])
    ensures Split(s) == Split(s[1..])
  {
  }

  lemma {:induction false} SplitJoin(words: seq<string>)
    requires forall k :: 0 <= k < |words| ==> IsToken(words[k])
    ensures Split(Join(words)) == words
  {
    if words == [] {
    } else {
      var w := words[0];
      var t := Join(words);
      var rest := if |words| == 1 then "" else " " + Join(words[1..]);
      assert t == w + rest;
      WordLengthOfToken(w, rest);
      assert t[..|w|] == w;
      assert t[|w|..] == rest;
      if |words| > 1 {
        SplitLeadingSpace(rest);
        assert rest[1..] == Join(words[1..]);
        SplitJoin(words[1..]);
      }
    }
  }

  lemma {:induction false} WordLengthOfToken(w: string, rest: string)
    requires IsToken(w)
    requires rest == "" || IsSpace(rest[0])
    ensures WordLength(w + rest) == |w|
  {
    if |w| > 1 {
      assert (w + rest)[1..] == w[1..] + rest;
      WordLengthOfToken(w[1..], rest);
    } else {
      assert (w + rest)[1..] == rest;
    }
  }

  /** What follows the first space of a normalised string is normalised. */
  lemma NormalAfterSpace(t: string, n: nat)
    requires IsNormal(t) && n < |t| && t[n] == ' '
    ensures n + 1 < |t| && t[n + 1] != ' '
    ensures IsNormal(t[n + 1..])
  {
    var u := t[n + 1..];
    forall i | 0 <= i < |u| - 1 ensures !DoubleSpaceAt(u, i) {
      assert !DoubleSpaceAt(t, n + 1 + i);
    }
    assert !DoubleSpaceAt(t, n);
  }

  lemma SplitFirstWord(s: string)
    requires s != [] && !IsSpace(s[0])
    ensures 0 < WordLength(s)
    ensures Split(s) == [s[..WordLength(s)]] + Split(s[WordLength(s)..])
  {
  }

  lemma JoinCons(w: string, ws: seq<string>)
    requires ws != []
    ensures Join([w] + ws) == w + " " + Join(ws)
  {
    assert ([w] + ws)[1..] == ws;
  }

  /** One word of a normalised string, then a space, then the rest. */
  lemma JoinSplitStep(t: string, u: string)
    requires t != "" && !IsSpace(t[0])
    requires WordLength(t) < |t| && t[WordLength(t)] == ' '
    requires u == t[WordLength(t) + 1..]
    requires u != "" && !IsSpace(u[0])
    requires Join(Split(u)) == u
    ensures Join(Split(t)) == t
  {
    var n := WordLength(t);
    var w := t[..n];
    assert Split(t) == [w] + Split(u) by {
      SplitFirstWord(t);
      SplitLeadingSpace(t[n..]);
      assert t[n..][1..] == u;
    }
    assert Join([w] + Split(u)) == w + " " + u by {
      SplitFirstWord(u);
      JoinCons(w, Split(u));
    }
    SpaceSplit(t, n);
  }

  lemma SpaceSplit(t: string, n: nat)
    requires n < |t| && t[n] == ' '
    ensures t == t[..n] + " " + t[n + 1..]
  {
    assert t[n..] == [t[n]] + t[n + 1..];
    assert t == t[..n] + t[n..];
  }

  /** A normalised string is the join of its words. */
  lemma {:induction false} JoinSplitNormal(t: string)
    requires IsNormal(t)
    ensures Join(Split(t)) == t
    decreases |t|
  {
    if t != "" {
      var n := WordLength(t);
      if n < |t| {
        assert t[n] == ' ';
        NormalAfterSpace(t, n);
        JoinSplitNormal(t[n + 1..]);
        JoinSplitStep(t, t[n + 1..]);
      } else {
        SplitFirstWord(t);
        assert t[n..] == [];
        assert t[..n] == t;
      }
    }
  }

  lemma NormalIsClean(t: string)
    requires IsNormal(t)
    ensures Scrub(Lower(t)) == t
  {
  }

  /** Normalising is idempotent, and the normalised strings are exactly its
      fixed points. */
  lemma NormalizeFixedPoints(t: string)
    ensures Normalize(t) == t <==> IsNormal(t)
  {
    if IsNormal(t) && t != "" {
      NormalIsClean(t);
      JoinSplitNormal(t);
    }
  }

  lemma NormalizeIdempotent(s: string)
    ensures Normalize(Normalize(s)) == Normalize(s)
  {
    NormalizeFixedPoints(Normalize(s));
  }

  /** Normalising keeps the words of the lower-cased, scrubbed text, in
      order: only case, punctuation and runs of whitespace are lost. */
  lemma NormalizeKeepsWords(s: string)
    ensures Split(Normalize(s)) == Split(Scrub(Lower(s)))
  {
    if s != "" {
      ScrubLowerIsClean(s);
      TokensOfCleanText(Scrub(Lower(s)));
      SplitJoin(Split(Scrub(Lower(s))));
    }
  }

  /** For instance, the greeting "Hi!" normalises to "hi". */
  lemma NormalizeGreeting()
    ensures Normalize("Hi!") == "hi"
  {
    NormalizeKeepsWords("Hi!");
    assert Scrub(Lower("Hi!")) == "hi ";
    assert Split("hi ") == ["hi"] by {
      assert WordLength("hi ") == 2 by {
        assert WordLength(" ") == 0;
      }
      assert "hi "[..2] == "hi" && "hi "[2..] == " ";
      assert Split(" ") == [];
    }
    JoinSplitNormal(Normalize("Hi!"));
  }

  // ---------------------------------------------------------------------
  // str.strip()
  // ---------------------------------------------------------------------

  predicate IsBlank(s: string) {
    forall i :: 0 <= i < |s| ==> IsSpace(s[i])
  }

  /** `s.lstrip()`: the suffix left after dropping all leading whitespace. */
  function TrimStart(s: string): (r: string)
    ensures |r| <= |s| && r == s[|s| - |r|..]
    ensures IsBlank(s[..|s| - |r|])
    ensures r != "" ==> !IsSpace(r[0])
  {
    if s != [] && IsSpace(s[0]) then TrimStart(s[1..]) else s
  }

  /** `s.rstrip()`: the prefix left after dropping all trailing whitespace. */
  function TrimEnd(s: string): (r: string)
    ensures |r| <= |s| && r == s[..|r|]
    ensures IsBlank(s[|r|..])
    ensures r != "" ==> !IsSpace(r[|r| - 1])
  {
    if s != [] && IsSpace(s[|s| - 1]) then
      var r := TrimEnd(s[..|s| - 1]);
      assert s[|r|..] == s[..|s| - 1][|r|..] + [s[|s| - 1]];
      r
    else s
  }

  /** `s.strip()` */
  function Strip(s: string): (r: string)
    ensures r == "" <==> IsBlank(s)
    ensures r != "" ==> !IsSpace(r[0]) && !IsSpace(r[|r| - 1])
  {
    TrimEnd(TrimStart(s))
  }

  /** `lstrip()` removes exactly a blank prefix in front of a string that
      does not start with whitespace. */
  lemma {:induction false} TrimStartPadded(a: string, t: string)
    requires IsBlank(a)
    requires t != "" ==> !IsSpace(t[0])
    ensures TrimStart(a + t) == t
    decreases |a|
  {
    if a == [] {
      assert a + t == t;
    } else {
      assert (a + t)[1..] == a[1..] + t;
      TrimStartPadded(a[1..], t);
    }
  }

  /** `rstrip()` removes exactly a blank suffix after a string that does not
      end with whitespace. */
  lemma {:induction false} TrimEndPadded(t: string, b: string)
    requires IsBlank(b)
    requires t != "" ==> !IsSpace(t[|t| - 1])
    ensures TrimEnd(t + b) == t
    decreases |b|
  {
    if b == [] {
      assert t + b == t;
    } else {
      var init := b[..|b| - 1];
      assert (t + b)[..|t + b| - 1] == t + init;
      TrimEndPadded(t, init);
    }
  }

  /** `strip()` returns exactly the text between leading and trailing
      whitespace: every string is blank text, then a text with
      non-whitespace ends (or nothing), then blank text, and `strip()`
      returns the middle part. */
  lemma StripPadded(a: string, m: string, b: string)
    requires IsBlank(a) && IsBlank(b)
    requires m != "" ==> !IsSpace(m[0]) && !IsSpace(m[|m| - 1])
    ensures Strip(a + m + b) == m
  {
    if m == "" {
      assert a + m + b == a + b;
      assert IsBlank(a + b) by {
        forall i | 0 <= i < |a + b| ensures IsSpace((a + b)[i]) {
          if i < |a| { assert (a + b)[i] == a[i]; } else { assert (a + b)[i] == b[i - |a|]; }
        }
      }
    } else {
      assert a + m + b == a + (m + b);
      TrimStartPadded(a, m + b);
      TrimEndPadded(m, b);
    }
  }
}
