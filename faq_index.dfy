/**
 * The FAQ corpus and the flat question index that `prepare_questions`
 * builds from it: for each FAQ, in order, one entry for its original
 * question followed by one entry per paraphrase, each tagged with the FAQ's
 * position and carrying both the normalised and the original text.
 */
module FaqIndex {
  import opened TextNormalizer

  /** One record of the FAQ file. */
  datatype Faq = Faq(
    category: string,
    originalQuestion: string,
    answer: string,
    possibleQuestions: seq<string>)

  /** The `'type'` tag of an index entry. */
  datatype QuestionKind = Original | Possible

  /** One entry of `all_questions`. */
  datatype Question = Question(
    text: string,          // the normalised question
    originalText: string,  // the question as written in the FAQ
    faqIdx: nat,           // position of its FAQ in `faqs`
    kind: QuestionKind)

  /** The entries one FAQ contributes, in the order they are appended. */
  function EntriesOf(faq: Faq, i: nat): seq<Question>
  {
    [Question(Normalize(faq.originalQuestion), faq.originalQuestion, i, Original)]
      + seq(|faq.possibleQuestions|, j requires 0 <= j < |faq.possibleQuestions| =>
          Question(Normalize(faq.possibleQuestions[j]), faq.possibleQuestions[j], i, Possible))
  }

  /** The index `prepare_questions` leaves in `all_questions`: the entries of
      the FAQs taken in order (defined on prefixes, as the loop builds it). */
  function QuestionIndex(faqs: seq<Faq>): seq<Question>
  {
    if faqs == [] then []
    else QuestionIndex(faqs[..|faqs| - 1]) + EntriesOf(faqs[|faqs| - 1], |faqs| - 1)
  }

  /** The entries of a FAQ start with its original question, and each
      paraphrase extends them by one entry. */
  lemma EntriesOfSteps(faq: Faq, i: nat, j: nat)
    requires j < |faq.possibleQuestions|
    ensures EntriesOf(faq, i)[..1]
      == [Question(Normalize(faq.originalQuestion), faq.originalQuestion, i, Original)]
    ensures EntriesOf(faq, i)[..j + 2] == EntriesOf(faq, i)[..j + 1]
      + [Question(Normalize(faq.possibleQuestions[j]), faq.possibleQuestions[j], i, Possible)]
  {
    var es := EntriesOf(faq, i);
    assert es[..j + 2] == es[..j + 1] + [es[j + 1]];
  }

  /** Indexing one more FAQ appends its entries. */
  lemma QuestionIndexStep(faqs: seq<Faq>, i: nat)
    requires i < |faqs|
    ensures QuestionIndex(faqs[..i + 1]) == QuestionIndex(faqs[..i]) + EntriesOf(faqs[i], i)
  {
    assert faqs[..i + 1][..i] == faqs[..i];
  }

  /** Number of entries of the FAQs: one per FAQ plus one per paraphrase. */
  function TotalQuestions(faqs: seq<Faq>): nat
  {
    if faqs == [] then 0
    else TotalQuestions(faqs[..|faqs| - 1]) + 1 + |faqs[|faqs| - 1].possibleQuestions|
  }

  /** Position in the index of the first entry of FAQ `i`. */
  function Offset(faqs: seq<Faq>, i: nat): nat
    requires i <= |faqs|
  {
    TotalQuestions(faqs[..i])
  }

  lemma {:induction false} QuestionIndexLength(faqs: seq<Faq>)
    ensures |QuestionIndex(faqs)| == TotalQuestions(faqs)
  {
    if faqs != [] {
      QuestionIndexLength(faqs[..|faqs| - 1]);
    }
  }

  /** The index of a prefix of the FAQs is a prefix of the index. */
  lemma {:induction false} QuestionIndexPrefix(faqs: seq<Faq>, k: nat)
    requires k <= |faqs|
    ensures QuestionIndex(faqs[..k]) <= QuestionIndex(faqs)
    decreases |faqs|
  {
    if k < |faqs| {
      var init := faqs[..|faqs| - 1];
      assert faqs[..k] == init[..k];
      QuestionIndexPrefix(init, k);
    } else {
      assert faqs[..k] == faqs;
    }
  }

  /** Entry `Offset(faqs, i)` is FAQ `i`'s original question and the next
      `|possibleQuestions|` entries are its paraphrases, in list order. */
  lemma QuestionIndexLayout(faqs: seq<Faq>, i: nat, j: nat)
    requires i < |faqs| && j <= |faqs[i].possibleQuestions|
    ensures Offset(faqs, i) + j < |QuestionIndex(faqs)|
    ensures j == 0 ==>
      QuestionIndex(faqs)[Offset(faqs, i)]
        == Question(Normalize(faqs[i].originalQuestion), faqs[i].originalQuestion, i, Original)
    ensures j > 0 ==>
      QuestionIndex(faqs)[Offset(faqs, i) + j]
        == Question(Normalize(faqs[i].possibleQuestions[j - 1]), faqs[i].possibleQuestions[j - 1], i, Possible)
  {
    QuestionIndexAt(faqs, i, j);
    EntriesOfAt(faqs[i], i, j);
  }

  /** Entry `j` of a FAQ's entries: its original question first, then its
      paraphrases. */
  lemma EntriesOfAt(faq: Faq, i: nat, j: nat)
    requires j <= |faq.possibleQuestions|
    ensures j == 0 ==>
      EntriesOf(faq, i)[j] == Question(Normalize(faq.originalQuestion), faq.originalQuestion, i, Original)
    ensures j > 0 ==>
      EntriesOf(faq, i)[j]
        == Question(Normalize(faq.possibleQuestions[j - 1]), faq.possibleQuestions[j - 1], i, Possible)
  {
  }

  /** The entries of FAQ `i` stand in the index from `Offset(faqs, i)` on. */
  lemma QuestionIndexAt(faqs: seq<Faq>, i: nat, j: nat)
    requires i < |faqs| && j <= |faqs[i].possibleQuestions|
    ensures Offset(faqs, i) + j < |QuestionIndex(faqs)|
    ensures QuestionIndex(faqs)[Offset(faqs, i) + j] == EntriesOf(faqs[i], i)[j]
  {
    var upTo := faqs[..i + 1];
    QuestionIndexStep(faqs, i);
    QuestionIndexLength(faqs[..i]);
    QuestionIndexPrefix(faqs, i + 1);
  }

  /** Every entry points at an existing FAQ, holds the normalised form of its
      original text, and that text is the FAQ's original question or one of
      its paraphrases, as its tag says. */
  ghost predicate WellFormedIndex(faqs: seq<Faq>, questions: seq<Question>)
  {
    forall p :: 0 <= p < |questions| ==> WellFormedEntry(faqs, questions[p])
  }

  ghost predicate WellFormedEntry(faqs: seq<Faq>, q: Question)
  {
    && q.faqIdx < |faqs|
    && q.text == Normalize(q.originalText)
    && (q.kind == Original ==> q.originalText == faqs[q.faqIdx].originalQuestion)
    && (q.kind == Possible ==> q.originalText in faqs[q.faqIdx].possibleQuestions)
  }

  lemma {:induction false} QuestionIndexWellFormed(faqs: seq<Faq>)
    ensures WellFormedIndex(faqs, QuestionIndex(faqs))
  {
    if faqs != [] {
      var n := |faqs| - 1;
      var init := faqs[..n];
      QuestionIndexWellFormed(init);
      var es := EntriesOf(faqs[n], n);
      forall p | 0 <= p < |QuestionIndex(faqs)|
        ensures WellFormedEntry(faqs, QuestionIndex(faqs)[p])
      {
        var q := QuestionIndex(faqs)[p];
        if p < |QuestionIndex(init)| {
          assert q == QuestionIndex(init)[p];
          assert WellFormedEntry(init, q);
          assert faqs[q.faqIdx] == init[q.faqIdx];
        } else {
          assert q == es[p - |QuestionIndex(init)|];
        }
      }
    }
  }

  /** The FAQs `load_sample_data` installs when the FAQ file is missing or
      cannot be parsed. */
  function SampleFaqs(): seq<Faq>
  {
    [SampleGeneral(), SampleAdmissions(), SampleAcademic()]
  }

  function SampleGeneral(): Faq
  {
    Faq("General",
        "Hi",
        "Hello, How may I help "
          + "you?",
        [ "Hello, are you there?",
          "Hey there, can you help "
            + "me?",
          "Hi, I need some "
            + "assistance.",
          "Greetings, how can you "
            + "help me?" ])
  }

  function SampleAdmissions(): Faq
  {
    Faq("Admissions",
        "What are the admission "
          + "requirements for "
          + "undergraduate programs "
          + "at UMT?",
        "Admission requirements "
          + "at UMT for "
          + "undergraduate programs "
          + "include:\n- Minimum 50% "
          + "marks in FSc, ICS, or "
          + "Intermediate with "
          + "Physics\n- Minimum 50% "
          + "marks in UMT entrance "
          + "test\n- No third "
          + "division in "
          + "matriculation\n- "
          + "Application fee: Rs. "
          + "25,000\n- Required "
          + "documents: Unofficial "
          + "transcript, Hope "
          + "Certificate, Two "
          + "photographs, CNIC copies",
        [ "What are the criteria "
            + "for undergraduate "
            + "admission at UMT?",
          "What qualifications do "
            + "I need to apply for an "
            + "undergraduate program?",
          "Can you outline the "
            + "admission requirements "
            + "for UMT undergrad "
            + "programs?",
          "How can I get admission "
            + "in UMT for software "
            + "engineering?",
          "What do I need to apply "
            + "for an undergraduate "
            + "program at UMT?" ])
  }

  function SampleAcademic(): Faq
  {
    Faq("Academic",
        "What is GPA and how is "
          + "it computed?",
        "GPA represents a "
          + "participant's "
          + "performance in a "
          + "semester. It is "
          + "calculated by "
          + "converting letter "
          + "grades to grade points, "
          + "multiplying these by "
          + "the credit hours for "
          + "each course, and "
          + "dividing the total "
          + "grade points by the "
          + "total credit hours. GPA "
          + "ranges from 0 to 4.00.",
        [ "Can you explain what "
            + "GPA means and how to "
            + "calculate it?",
          "How do I compute my GPA?",
          "what is GPA",
          "What does GPA stand for "
            + "and how is it "
            + "determined?" ])
  }

  /** Counting the entries of two lists of FAQs one after the other adds
      their counts. */
  lemma {:induction false} TotalQuestionsAppend(a: seq<Faq>, b: seq<Faq>)
    ensures TotalQuestions(a + b) == TotalQuestions(a) + TotalQuestions(b)
    decreases |b|
  {
    if b == [] {
      assert a + b == a;
    } else {
      var init := b[..|b| - 1];
      assert (a + b)[..|a + b| - 1] == a + init;
      TotalQuestionsAppend(a, init);
    }
  }

  /** One FAQ has its original question and its paraphrases. */
  lemma TotalQuestionsSingle(f: Faq)
    ensures TotalQuestions([f]) == 1 + |f.possibleQuestions|
  {
    assert [f][..0] == [];
  }

  lemma TotalQuestionsOfThree(a: Faq, b: Faq, c: Faq)
    ensures TotalQuestions([a, b, c])
      == 3 + |a.possibleQuestions| + |b.possibleQuestions| + |c.possibleQuestions|
  {
    assert [a, b, c] == [a] + [b] + [c];
    TotalQuestionsAppend([a], [b]);
    TotalQuestionsAppend([a] + [b], [c]);
    TotalQuestionsSingle(a);
    TotalQuestionsSingle(b);
    TotalQuestionsSingle(c);
  }

  /** The sample data gives 5 + 6 + 5 = 16 index entries. */
  lemma SampleQuestionCount()
    ensures |QuestionIndex(SampleFaqs())| == 16
  {
    QuestionIndexLength(SampleFaqs());
    TotalQuestionsOfThree(SampleGeneral(), SampleAdmissions(), SampleAcademic());
  }
}
