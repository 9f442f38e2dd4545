/**
 * Bag-of-words vectors (`SimpleChatbot.get_word_vector`, a `Counter` of the
 * words of a text) and the exact, integer part of `cosine_similarity`: the
 * shared-word test and the dot product. The square roots and the float
 * division that turn the dot product into a score are not modelled; a
 * similarity is any function of two word vectors that scores vectors
 * without a shared word as 0.
 */
module WordVectors {
  import opened TextNormalizer

  /** A `Counter` of words: each word with its number of occurrences. */
  type WordVector = multiset<string>

  /** How many times `w` occurs in `words`. */
  function Occurrences(words: seq<string>, w: string): nat
  {
    if words == [] then 0
    else (if words[0] == w then 1 else 0) + Occurrences(words[1..], w)
  }

  lemma {:induction false} OccurrencesIsMultiplicity(words: seq<string>, w: string)
    ensures multiset(words)[w] == Occurrences(words, w)
  {
    if words != [] {
      assert words == [words[0]] + words[1..];
      OccurrencesIsMultiplicity(words[1..], w);
    }
  }

  /** `get_word_vector(text)`: `Counter(text.split())`. */
  function GetWordVector(text: string): WordVector
  {
    multiset(Split(text))
  }

  /** Every word of the text is counted once per occurrence, the counts add
      up to the number of words, and every counted word is a non-empty run
      without whitespace. */
  lemma WordVectorCounts(text: string)
    ensures forall w :: GetWordVector(text)[w] == Occurrences(Split(text), w)
    ensures |GetWordVector(text)| == |Split(text)|
    ensures forall w :: w in GetWordVector(text) ==>
      w != "" && forall j :: 0 <= j < |w| ==> !IsSpace(w[j])
  {
    var words := Split(text);
    forall w ensures multiset(words)[w] == Occurrences(words, w) {
      OccurrencesIsMultiplicity(words, w);
    }
  }

  /** The vector of a normalised text counts exactly the words of the
      lower-cased, scrubbed text: normalising loses no word. */
  lemma NormalizedWordVector(s: string)
    ensures GetWordVector(Normalize(s)) == GetWordVector(Scrub(Lower(s)))
  {
    NormalizeKeepsWords(s);
  }

  /** The dot product of `Counter(words)` and `v`: the sum, over the shared
      words, of the product of the two counts. Summed here occurrence by
      occurrence of `words`, which adds `v[w]` once per occurrence of `w`. */
  function Dot(words: seq<string>, v: WordVector): nat
  {
    if words == [] then 0 else v[words[0]] + Dot(words[1..], v)
  }

  /** The dot product is zero exactly when the vectors share no word, which
      is the case `cosine_similarity` answers with 0.0 before dividing. */
  lemma {:induction false} DotZeroIffDisjoint(words: seq<string>, v: WordVector)
    ensures Dot(words, v) == 0 <==> multiset(words) !! v
  {
    if words != [] {
      assert words == [words[0]] + words[1..];
      DotZeroIffDisjoint(words[1..], v);
      assert words[0] in multiset(words);
    }
  }

  lemma {:induction false} DotAddWord(words: seq<string>, v: WordVector, w: string)
    ensures Dot(words, v + multiset{w}) == Dot(words, v) + Occurrences(words, w)
  {
    if words != [] {
      DotAddWord(words[1..], v, w);
    }
  }

  /** The dot product does not depend on which vector is summed over. */
  lemma {:induction false} DotSymmetric(a: seq<string>, b: seq<string>)
    ensures Dot(a, multiset(b)) == Dot(b, multiset(a))
  {
    if a != [] {
      var x := a[0];
      assert a == [x] + a[1..];
      assert multiset(a) == multiset(a[1..]) + multiset{x};
      DotSymmetric(a[1..], b);
      DotAddWord(b, multiset(a[1..]), x);
      OccurrencesIsMultiplicity(b, x);
    } else {
      DotZeroIffDisjoint(b, multiset{});
    }
  }

  /** The one exact fact kept about `cosine_similarity`: vectors without a
      shared word score 0. */
  ghost predicate ZeroWithoutSharedWord(sim: (WordVector, WordVector) -> real)
  {
    forall a: WordVector, b: WordVector :: a !! b ==> sim(a, b) == 0.0
  }

  /** A positive score implies a positive dot product. */
  lemma PositiveScoreSharesWord(sim: (WordVector, WordVector) -> real, user: string, question: string)
    requires ZeroWithoutSharedWord(sim)
    requires sim(GetWordVector(user), GetWordVector(question)) != 0.0
    ensures Dot(Split(user), GetWordVector(question)) > 0
  {
    DotZeroIffDisjoint(Split(user), GetWordVector(question));
  }
}
