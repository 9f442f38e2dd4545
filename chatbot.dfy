/**
 * The `SimpleChatbot` object and the `/chat` endpoint of the FAQ API. The
 * chatbot holds the FAQ list and the flat question index built from it;
 * `PrepareQuestions` and `FindBestMatch` are the source's loops, proved
 * against the functions of `FaqIndex` and `Matching`.
 */
module ChatbotApi {
  import opened Wrappers
  import opened TextNormalizer
  import opened WordVectors
  import opened FaqIndex
  import opened Matching

  /** The threshold the `/chat` endpoint passes to `find_best_match`. */
  const ChatThreshold: real := 0.1

  class SimpleChatbot {
    var faqs: seq<Faq>
    var allQuestions: seq<Question>

    /** `SimpleChatbot()`: load the FAQs, then index them. `loaded` is the
        content of the FAQ file, or None when the file is missing or is not
        valid JSON, in which case the sample FAQs are used. */
    constructor (loaded: Option<seq<Faq>>)
      ensures faqs == (if loaded.Some? then loaded.value else SampleFaqs())
      ensures allQuestions == QuestionIndex(faqs)
    {
      faqs := [];
      allQuestions := [];
      new;
      LoadFaqData(loaded);
      PrepareQuestions();
    }

    /** `load_faq_data`: install the file's FAQs, or fall back to the sample. */
    method LoadFaqData(loaded: Option<seq<Faq>>)
      modifies this`faqs
      ensures faqs == (if loaded.Some? then loaded.value else SampleFaqs())
    {
      match loaded {
        case Some(data) => faqs := data;
        case None => LoadSampleData();
      }
    }

    /** `load_sample_data` */
    method LoadSampleData()
      modifies this`faqs
      ensures faqs == SampleFaqs()
    {
      faqs := SampleFaqs();
    }

    /** `prepare_questions`: rebuild the index from scratch. Whatever the
        index held before is discarded, so calling it again never duplicates
        entries. */
    method PrepareQuestions()
      modifies this`allQuestions
      ensures allQuestions == QuestionIndex(faqs)
      ensures |allQuestions| == TotalQuestions(faqs)
      ensures WellFormedIndex(faqs, allQuestions)
    {
      allQuestions := [];
      for i := 0 to |faqs|
        invariant allQuestions == QuestionIndex(faqs[..i])
      {
        var faq := faqs[i];
        ghost var entries := EntriesOf(faq, i);
        allQuestions := allQuestions
          + [Question(Normalize(faq.originalQuestion), faq.originalQuestion, i, Original)];
        if faq.possibleQuestions == [] {
          assert entries[..1] == entries;
        } else {
          EntriesOfSteps(faq, i, 0);
        }
        for j := 0 to |faq.possibleQuestions|
          invariant allQuestions == QuestionIndex(faqs[..i]) + entries[..j + 1]
        {
          var possible := faq.possibleQuestions[j];
          allQuestions := allQuestions + [Question(Normalize(possible), possible, i, Possible)];
          EntriesOfSteps(faq, i, j);
        }
        WholePrefix(entries);
        QuestionIndexStep(faqs, i);
      }
      WholePrefix(faqs);
      QuestionIndexLength(faqs);
      QuestionIndexWellFormed(faqs);
    }

    /** `find_best_match(user_question, threshold)` with `cosine_similarity`
        given as `sim`. */
    method FindBestMatch(userQuestion: string, threshold: real,
                         sim: (WordVector, WordVector) -> real)
      returns (r: Option<Match>)
      ensures r == BestMatch(faqs, allQuestions, userQuestion, threshold, sim)
    {
      if Strip(userQuestion) == "" || |allQuestions| == 0 {
        return None;
      }
      var processed := Normalize(userQuestion);
      var userVector := GetWordVector(processed);
      var bestSimilarity := 0.0;
      var bestMatch: Option<Question> := None;
      ghost var bestIdx: Option<nat> := None;
      ghost var scores := Scores(userVector, allQuestions, sim);
      for i := 0 to |allQuestions|
        invariant (bestSimilarity, bestIdx) == BestSoFar(scores[..i])
        invariant bestIdx.None? ==> bestMatch.None?
        invariant bestIdx.Some? ==> bestIdx.value < i && bestMatch == Some(allQuestions[bestIdx.value])
      {
        var questionVector := GetWordVector(allQuestions[i].text);
        var similarity := sim(userVector, questionVector);
        assert similarity == scores[i];
        BestSoFarStep(scores, i);
        if similarity > bestSimilarity {
          bestSimilarity := similarity;
          bestMatch := Some(allQuestions[i]);
          bestIdx := Some(i);
        }
      }
      WholePrefix(scores);
      BestMatchAfterScan(faqs, allQuestions, userQuestion, threshold, sim, bestSimilarity, bestIdx);
      if bestSimilarity >= threshold && bestMatch.Some? {
        var q := bestMatch.value;
        if q.faqIdx < |faqs| {
          r := Some(Match(faqs[q.faqIdx], bestSimilarity, q.originalText));
        } else {
          // `self.faqs[...]` raises IndexError, which the `except` turns into None.
          r := None;
        }
      } else {
        r := None;
      }
    }
  }

  lemma WholePrefix<T>(s: seq<T>)
    ensures s[..|s|] == s
  {
  }

  /** The body of a `/chat` request. */
  datatype ChatRequest = ChatRequest(message: string, userId: string)

  /** The body of a `/chat` reply. */
  datatype ChatResponse = ChatResponse(
    response: string,
    category: string,
    confidence: real,
    matchedQuestion: string)

  /** An HTTP error status with its detail text. */
  datatype HttpError = HttpError(status: nat, detail: string)

  /** The reply sent when no FAQ matches. */
  function FallbackResponse(): ChatResponse
  {
    ChatResponse(
      "I'm sorry, I couldn't"
        + " find a specific answer"
        + " to your question. Could"
        + " you please rephrase it"
        + " or ask about"
        + " admissions, academics,"
        + " fees, scholarships, or"
        + " examinations?",
      "General",
      0.0,
      "No match found")
  }

  /** The error `/chat` raises for a blank message. */
  function ValidationError(): HttpError
  {
    HttpError(400, "Message cannot be empty")
  }

  /** What the client receives instead: the 400 is raised inside the `try`,
      so the endpoint's `except Exception` catches it and raises a 500 whose
      detail is `str()` of the 400 (`"<status>: <detail>"`). */
  function EmptyMessageError(): HttpError
  {
    HttpError(500, "Internal server error: 400: Message cannot be empty")
  }

  /** The reply built from the outcome of the matcher. */
  function ChatReply(m: Option<Match>): (r: ChatResponse)
    ensures m.None? ==> r == FallbackResponse()
    ensures m.Some? ==>
      && r.response == m.value.faq.answer
      && r.category == m.value.faq.category
      && r.confidence == m.value.confidence
      && r.matchedQuestion == m.value.matchedQuestion
  {
    match m
    case Some(found) =>
      ChatResponse(found.faq.answer, found.faq.category, found.confidence, found.matchedQuestion)
    case None => FallbackResponse()
  }

  /** What `POST /chat` answers. A blank message raises the 400; with
      `passHttpErrors` it reaches the client, otherwise the endpoint's
      catch-all turns it into a 500. Any other message is answered, with
      the matched FAQ when the stripped message finds one at threshold 0.1
      and with the fallback reply otherwise. */
  function ChatOutcome(faqs: seq<Faq>, questions: seq<Question>, request: ChatRequest,
                       sim: (WordVector, WordVector) -> real, passHttpErrors: bool)
    : (r: Result<ChatResponse, HttpError>)
    ensures r.Failure? <==> IsBlank(request.message)
    ensures r.Success? ==>
      r.value == ChatReply(BestMatch(faqs, questions, Strip(request.message), ChatThreshold, sim))
  {
    if Strip(request.message) == "" then
      Failure(if passHttpErrors then ValidationError() else EmptyMessageError())
    else
      Success(ChatReply(BestMatch(faqs, questions, Strip(request.message), ChatThreshold, sim)))
  }

  /** `POST /chat` as written: a blank message is refused as a 500 (see
      `EmptyMessageError`). */
  method Chat(bot: SimpleChatbot, request: ChatRequest, sim: (WordVector, WordVector) -> real)
    returns (r: Result<ChatResponse, HttpError>)
    ensures r.Failure? <==> IsBlank(request.message)
    ensures r.Failure? ==> r.error == EmptyMessageError()
    ensures r == ChatOutcome(bot.faqs, bot.allQuestions, request, sim, false)
    ensures r.Success? ==>
      r.value == ChatReply(BestMatch(bot.faqs, bot.allQuestions, Strip(request.message), ChatThreshold, sim))
  {
    var userMessage := Strip(request.message);
    if userMessage == "" {
      return Failure(EmptyMessageError());
    }
    var matchResult := bot.FindBestMatch(userMessage, ChatThreshold, sim);
    r := Success(ChatReply(matchResult));
  }

  /** `POST /chat` with the `HTTPException` let through the catch-all, as
      the explicit `raise HTTPException(status_code=400, ...)` intends: a
      blank message is answered with 400. Everything else is as in `Chat`. */
  method ChatCorrected(bot: SimpleChatbot, request: ChatRequest, sim: (WordVector, WordVector) -> real)
    returns (r: Result<ChatResponse, HttpError>)
    ensures r.Failure? <==> IsBlank(request.message)
    ensures r.Failure? ==> r.error == ValidationError()
    ensures r == ChatOutcome(bot.faqs, bot.allQuestions, request, sim, true)
    ensures r.Success? ==>
      r.value == ChatReply(BestMatch(bot.faqs, bot.allQuestions, Strip(request.message), ChatThreshold, sim))
  {
    var userMessage := Strip(request.message);
    if userMessage == "" {
      return Failure(ValidationError());
    }
    var matchResult := bot.FindBestMatch(userMessage, ChatThreshold, sim);
    r := Success(ChatReply(matchResult));
  }

  /** The discrepancy: for every blank message the endpoint as written
      answers with a server error (500), while the error it raises, and the
      corrected endpoint answers, is the client error 400. */
  lemma BlankMessageMisreported(faqs: seq<Faq>, questions: seq<Question>, request: ChatRequest,
                                sim: (WordVector, WordVector) -> real)
    requires IsBlank(request.message)
    ensures ChatOutcome(faqs, questions, request, sim, false).error.status == 500
    ensures ChatOutcome(faqs, questions, request, sim, true).error.status == 400
    ensures ChatOutcome(faqs, questions, request, sim, true) == Failure(ValidationError())
  {
  }

  /** The correction changes nothing for a message that is not blank. */
  lemma CorrectionKeepsReplies(faqs: seq<Faq>, questions: seq<Question>, request: ChatRequest,
                               sim: (WordVector, WordVector) -> real)
    requires !IsBlank(request.message)
    ensures ChatOutcome(faqs, questions, request, sim, true).Success?
    ensures ChatOutcome(faqs, questions, request, sim, true)
      == ChatOutcome(faqs, questions, request, sim, false)
  {
  }
}
