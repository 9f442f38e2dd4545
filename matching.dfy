/**
 * The decision rule of `find_best_match`, stated on values: the scan that
 * keeps the best similarity seen so far (starting from 0.0 and replacing it
 * only on a strictly greater score) and the threshold test applied to its
 * outcome. Similarity scores are whatever the given `sim` returns.
 */
module Matching {
  import opened Wrappers
  import opened TextNormalizer
  import opened WordVectors
  import opened FaqIndex

  /** What `find_best_match` returns on success. */
  datatype Match = Match(faq: Faq, confidence: real, matchedQuestion: string)

  /** The vector of the user's question after normalisation. */
  function UserVector(userQuestion: string): WordVector
  {
    GetWordVector(Normalize(userQuestion))
  }

  /** The similarity of the user's vector to each indexed question, in index
      order. */
  function Scores(userVector: WordVector, questions: seq<Question>,
                  sim: (WordVector, WordVector) -> real): seq<real>
  {
    seq(|questions|, j requires 0 <= j < |questions| =>
      sim(userVector, GetWordVector(questions[j].text)))
  }

  /** Index `k` holds a maximum of `scores` and nothing before it reaches it. */
  ghost predicate IsFirstMaximum(scores: seq<real>, k: nat)
  {
    && k < |scores|
    && (forall j :: 0 <= j < |scores| ==> scores[j] <= scores[k])
    && (forall j :: 0 <= j < k ==> scores[j] < scores[k])
  }

  /** `(best_similarity, best_match)` after scanning `scores` from 0.0 with a
      strict `>`: the first maximal positive score and where it is, or 0.0
      and nothing when no score is positive. */
  function BestSoFar(scores: seq<real>): (r: (real, Option<nat>))
    ensures r.0 >= 0.0
    ensures forall j :: 0 <= j < |scores| ==> scores[j] <= r.0
    ensures r.1.None? <==> forall j :: 0 <= j < |scores| ==> scores[j] <= 0.0
    ensures r.1.None? ==> r.0 == 0.0
    ensures r.1.Some? ==> IsFirstMaximum(scores, r.1.value) && r.0 == scores[r.1.value] > 0.0
  {
    if scores == [] then (0.0, None)
    else
      var last := |scores| - 1;
      var (best, k) := BestSoFar(scores[..last]);
      if scores[last] > best then (scores[last], Some(last)) else (best, k)
  }

  /** One more step of the scan. */
  lemma BestSoFarStep(scores: seq<real>, i: nat)
    requires i < |scores|
    ensures BestSoFar(scores[..i + 1])
      == (if scores[i] > BestSoFar(scores[..i]).0 then (scores[i], Some(i)) else BestSoFar(scores[..i]))
  {
    assert scores[..i + 1][..i] == scores[..i];
  }

  /** `find_best_match(user_question, threshold)` over the given FAQs and
      index. An entry whose FAQ position is out of range raises inside the
      `try` and is answered with None. */
  function BestMatch(faqs: seq<Faq>, questions: seq<Question>, userQuestion: string,
                     threshold: real, sim: (WordVector, WordVector) -> real): Option<Match>
  {
    if Strip(userQuestion) == "" || questions == [] then None
    else
      var (best, k) := BestSoFar(Scores(UserVector(userQuestion), questions, sim));
      if best >= threshold && k.Some? && questions[k.value].faqIdx < |faqs| then
        var q := questions[k.value];
        Some(Match(faqs[q.faqIdx], best, q.originalText))
      else
        None
  }

  /** `BestMatch` once the question is known to be non-blank and the index
      non-empty, in terms of the outcome of the scan. */
  lemma BestMatchAfterScan(faqs: seq<Faq>, questions: seq<Question>, userQuestion: string,
                           threshold: real, sim: (WordVector, WordVector) -> real,
                           best: real, k: Option<nat>)
    requires Strip(userQuestion) != "" && questions != []
    requires (best, k) == BestSoFar(Scores(UserVector(userQuestion), questions, sim))
    ensures k.Some? ==> k.value < |questions|
    ensures BestMatch(faqs, questions, userQuestion, threshold, sim)
      == if best >= threshold && k.Some? && questions[k.value].faqIdx < |faqs|
         then Some(Match(faqs[questions[k.value].faqIdx], best, questions[k.value].originalText))
         else None
  {
  }

  /** Index positions always name an existing FAQ. */
  ghost predicate IndexInRange(faqs: seq<Faq>, questions: seq<Question>)
  {
    forall p :: 0 <= p < |questions| ==> questions[p].faqIdx < |faqs|
  }

  lemma PreparedIndexInRange(faqs: seq<Faq>)
    ensures IndexInRange(faqs, QuestionIndex(faqs))
  {
    QuestionIndexWellFormed(faqs);
  }

  /** Over an index whose FAQ positions are valid, there is no match exactly
      when the question is blank, the index is empty, no question scores
      above 0, or every question scores below the threshold. */
  lemma NoMatchCases(faqs: seq<Faq>, questions: seq<Question>, userQuestion: string,
                     threshold: real, sim: (WordVector, WordVector) -> real)
    requires IndexInRange(faqs, questions)
    ensures var scores := Scores(UserVector(userQuestion), questions, sim);
      BestMatch(faqs, questions, userQuestion, threshold, sim).None?
      <==> || IsBlank(userQuestion)
           || questions == []
           || (forall j :: 0 <= j < |scores| ==> scores[j] <= 0.0)
           || (forall j :: 0 <= j < |scores| ==> scores[j] < threshold)
  {
  }

  /** Every match has a first maximum to which `MatchIsFirstBest` applies. */
  lemma FirstMaximumExists(faqs: seq<Faq>, questions: seq<Question>, userQuestion: string,
                           threshold: real, sim: (WordVector, WordVector) -> real)
    ensures BestMatch(faqs, questions, userQuestion, threshold, sim).Some? ==>
      exists k :: IsFirstMaximum(Scores(UserVector(userQuestion), questions, sim), k)
  {
    if BestMatch(faqs, questions, userQuestion, threshold, sim).Some? {
      var (best, k) := BestSoFar(Scores(UserVector(userQuestion), questions, sim));
      assert k.Some?;
    }
  }

  /** A match is built from the first index entry of maximal similarity: its
      FAQ, its original text, and that similarity as confidence, which is
      positive and reaches the threshold. */
  lemma MatchIsFirstBest(faqs: seq<Faq>, questions: seq<Question>, userQuestion: string,
                         threshold: real, sim: (WordVector, WordVector) -> real, k: nat)
    requires BestMatch(faqs, questions, userQuestion, threshold, sim).Some?
    requires IsFirstMaximum(Scores(UserVector(userQuestion), questions, sim), k)
    ensures var m := BestMatch(faqs, questions, userQuestion, threshold, sim).value;
      var score := Scores(UserVector(userQuestion), questions, sim)[k];
      && questions[k].faqIdx < |faqs|
      && m == Match(faqs[questions[k].faqIdx], score, questions[k].originalText)
      && score > 0.0 && score >= threshold
  {
    var scores := Scores(UserVector(userQuestion), questions, sim);
    var (best, i) := BestSoFar(scores);
    FirstMaximumUnique(scores, i.value, k);
  }

  lemma FirstMaximumUnique(scores: seq<real>, i: nat, k: nat)
    requires IsFirstMaximum(scores, i) && IsFirstMaximum(scores, k)
    ensures i == k
  {
    var atI, atK := scores[i], scores[k];
    assert i < k ==> atI < atK;
    assert k < i ==> atK < atI;
  }

  /** A question that shares no word with any indexed question gets no
      match, whatever the threshold. */
  lemma NoSharedWordNoMatch(faqs: seq<Faq>, questions: seq<Question>, userQuestion: string,
                            threshold: real, sim: (WordVector, WordVector) -> real)
    requires ZeroWithoutSharedWord(sim)
    requires forall p :: 0 <= p < |questions| ==>
      Dot(Split(Normalize(userQuestion)), GetWordVector(questions[p].text)) == 0
    ensures BestMatch(faqs, questions, userQuestion, threshold, sim) == None
  {
    var u := Normalize(userQuestion);
    var scores := Scores(UserVector(userQuestion), questions, sim);
    forall p | 0 <= p < |questions| ensures scores[p] == 0.0 {
      DotZeroIffDisjoint(Split(u), GetWordVector(questions[p].text));
    }
  }
}
