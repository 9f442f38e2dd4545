# University FAQ chatbot: the FAQ matcher

This project models the question matcher of the admissions chatbot's FAQ
API (`chatbot_api.py`): the `SimpleChatbot` object that holds the FAQ list
and a flat index of all its questions, the text normaliser used on both
sides of a comparison, the bag-of-words vectors, the best-match scan with
its threshold, and the accept / reject / fallback rule of the `POST /chat`
endpoint.

Modules, one per component of the matcher:

- `TextNormalizer` (`text.dfy`): `preprocess_text` and the Python string
  primitives it is made of (`lower`, the `[^\w\s]` substitution, `split`,
  `' '.join`, `strip`). Proved: the output is empty for empty input,
  contains only lower-case word characters and single inner spaces, is a
  fixed point of the normaliser (idempotence), and the normalised strings
  are exactly the fixed points; it keeps every word of the lower-cased,
  punctuation-free text, in order. `split` gives no word for blank text,
  one word for a single run of non-whitespace, and cuts at every
  whitespace character, which fixes its result on every string; `split`
  undoes `join` on lists of lower-case word tokens, and `join` undoes
  `split` on normalised strings. `strip` returns exactly the text between
  the leading and the trailing whitespace.
- `WordVectors` (`vectors.dfy`): `get_word_vector` as a multiset of words,
  its counts, and the exact integer part of `cosine_similarity`: the dot
  product, which is zero exactly when the vectors share no word, and is
  symmetric. A similarity is a function parameter `sim`; the one fact kept
  about it is that vectors without a shared word score 0.
- `FaqIndex` (`faq_index.dfy`): FAQ records, index entries, the index
  `prepare_questions` builds (as a function), its length, its layout (the
  original question of each FAQ, then its paraphrases, each tagged with the
  FAQ's position and holding the normalised text) and the sample data.
- `Matching` (`matching.dfy`): the scan of `find_best_match` as a fold
  (first strictly greater score from 0.0), the threshold decision, and the
  cases in which there is no match.
- `ChatbotApi` (`chatbot.dfy`): the `SimpleChatbot` class with its two
  fields, whose `PrepareQuestions` and `FindBestMatch` are the source's
  loops proved against the functions above, and the `/chat` endpoint.

## Model

| member | source | states |
|---|---|---|
| `TextNormalizer.LowerChar` | chatbot_api.py:90 | an upper-case letter becomes the same letter in lower case; every other character is unchanged |
| `TextNormalizer.Lower` | chatbot_api.py:90 | `lower()` lower-cases each character in place: same length, no upper-case letter left, each character's word/whitespace class kept |
| `TextNormalizer.Scrub` | chatbot_api.py:92 | the substitution keeps word characters and whitespace in place and turns every other character into a space |
| `TextNormalizer.SplitBlank` | chatbot_api.py:93 | `split()` of blank text gives no words |
| `TextNormalizer.SplitWord` | chatbot_api.py:93 | `split()` of a single non-empty run of non-whitespace gives exactly that run |
| `TextNormalizer.SplitAtSpace` | chatbot_api.py:93 | `split()` cuts at every whitespace character: `(a + c + b).split() == a.split() + b.split()` for whitespace `c`, so runs of whitespace separate words and leave no empty word |
| `TextNormalizer.Join` | chatbot_api.py:93 | `' '.join(words)`: no contract of its own; `SplitJoin` and `JoinSplitNormal` state that it and `Split` undo each other |
| `TextNormalizer.WordLength` | chatbot_api.py:93 | the length of the maximal leading run of non-whitespace characters |
| `TextNormalizer.Split` | chatbot_api.py:93 | `split()` yields non-empty words without whitespace |
| `TextNormalizer.Normalize` | chatbot_api.py:86-94 | `preprocess_text` returns "" for "" and always returns a normal string: only lower-case letters, digits, `_` and single spaces, none at either end |
| `TextNormalizer.ScrubLowerIsClean` | chatbot_api.py:90-92 | after `lower()` and the substitution every character is whitespace or a lower-case word character |
| `TextNormalizer.TokensOfCleanText` | chatbot_api.py:92-93 | splitting such text gives words made only of lower-case word characters |
| `TextNormalizer.JoinTokensIsNormal` | chatbot_api.py:93 | joining such words with single spaces gives a normal string |
| `TextNormalizer.SplitJoin` | chatbot_api.py:93 | `' '.join(words).split() == words` for such words |
| `TextNormalizer.JoinSplitNormal` | chatbot_api.py:93 | `' '.join(t.split()) == t` for a normal string |
| `TextNormalizer.NormalIsClean` | chatbot_api.py:90-92 | `lower()` and the substitution leave a normal string unchanged |
| `TextNormalizer.NormalizeFixedPoints` | chatbot_api.py:86-94 | `preprocess_text(t) == t` exactly when `t` is normal |
| `TextNormalizer.NormalizeIdempotent` | chatbot_api.py:86-94 | normalising a normalised string returns it unchanged |
| `TextNormalizer.NormalizeKeepsWords` | chatbot_api.py:90-93 | the words of `preprocess_text(s)` are exactly the words of `s` lower-cased with punctuation replaced by spaces, in order |
| `TextNormalizer.NormalizeGreeting` | chatbot_api.py:86-94 | `preprocess_text("Hi!") == "hi"` |
| `TextNormalizer.TrimStart` | chatbot_api.py:147 | `lstrip()` drops exactly the leading whitespace |
| `TextNormalizer.TrimEnd` | chatbot_api.py:147 | `rstrip()` drops exactly the trailing whitespace |
| `TextNormalizer.Strip` | chatbot_api.py:147 | `strip()` is empty exactly for blank text, and otherwise starts and ends with a non-whitespace character |
| `TextNormalizer.TrimStartPadded` | chatbot_api.py:147 | `lstrip()` removes exactly a blank prefix in front of text that does not start with whitespace |
| `TextNormalizer.TrimEndPadded` | chatbot_api.py:147 | `rstrip()` removes exactly a blank suffix after text that does not end with whitespace |
| `TextNormalizer.StripPadded` | chatbot_api.py:147 | for blank `a`, `b` and a text `m` with non-whitespace ends (or empty), `(a + m + b).strip() == m`; every string has this form, so this fixes `strip()` on every input |
| `WordVectors.OccurrencesIsMultiplicity` | chatbot_api.py:120-123 | a word's count in the `Counter` is its number of occurrences in the list |
| `WordVectors.GetWordVector` | chatbot_api.py:120-123 | `Counter(text.split())`, as the multiset of the words; its counts are stated by `WordVectorCounts` |
| `WordVectors.WordVectorCounts` | chatbot_api.py:120-123 | `get_word_vector` maps each word to its number of occurrences in `text.split()`, the counts sum to the number of words, and every counted word is non-empty without whitespace |
| `WordVectors.NormalizedWordVector` | chatbot_api.py:151-152 | the vector of a normalised question counts exactly the words of the lower-cased, punctuation-free question |
| `WordVectors.Dot` | chatbot_api.py:128-134 | the integer dot product, summed per occurrence of the first list's words; its meaning is stated by `DotZeroIffDisjoint`, `DotAddWord` and `DotSymmetric` |
| `WordVectors.DotZeroIffDisjoint` | chatbot_api.py:128-134 | the integer dot product is 0 exactly when the two vectors share no word |
| `WordVectors.DotAddWord` | chatbot_api.py:134 | adding one occurrence of a word to a vector adds that word's count in the other to the dot product |
| `WordVectors.DotSymmetric` | chatbot_api.py:134 | the dot product is the same whichever vector it is summed over |
| `WordVectors.ZeroWithoutSharedWord` | chatbot_api.py:128-131 | the one fact kept about `cosine_similarity`: vectors without a shared word score 0.0; the matching lemmas that need it require it |
| `WordVectors.PositiveScoreSharesWord` | chatbot_api.py:128-131 | a non-zero similarity implies a positive dot product |
| `FaqIndex.EntriesOf` | chatbot_api.py:102-116 | the entries one FAQ contributes; their layout is stated by `QuestionIndexLayout` |
| `FaqIndex.QuestionIndex` | chatbot_api.py:98-116 | the list `prepare_questions` builds; its length, layout and well-formedness are stated by the lemmas below, and `PrepareQuestions` is proved to build it |
| `FaqIndex.QuestionIndexLength` | chatbot_api.py:98-116 | the index holds one entry per FAQ plus one per paraphrase |
| `FaqIndex.QuestionIndexPrefix` | chatbot_api.py:100-116 | the index of the first FAQs is a prefix of the index of all of them |
| `FaqIndex.EntriesOfSteps` | chatbot_api.py:102-116 | loop-proof helper: a FAQ's entries start with its original question and grow by one entry per paraphrase |
| `FaqIndex.QuestionIndexStep` | chatbot_api.py:100-116 | loop-proof helper: indexing one more FAQ appends its entries |
| `FaqIndex.QuestionIndexLayout` | chatbot_api.py:100-116 | at FAQ `i`'s offset stands its original question (type original), followed by its paraphrases in list order (type possible), all with `faq_idx = i` and `text = preprocess_text(original_text)` |
| `FaqIndex.QuestionIndexWellFormed` | chatbot_api.py:100-116 | every entry names an existing FAQ, holds the normalised form of its original text, and that text is the FAQ's original question or one of its paraphrases as its type says |
| `FaqIndex.TotalQuestionsAppend` | chatbot_api.py:100-116 | the entry count of two FAQ lists one after the other is the sum of their counts |
| `FaqIndex.TotalQuestionsSingle` | chatbot_api.py:102-116 | one FAQ gives one entry plus one per paraphrase |
| `FaqIndex.TotalQuestionsOfThree` | chatbot_api.py:98-116 | three FAQs give three entries plus one per paraphrase |
| `FaqIndex.SampleFaqs` | chatbot_api.py:49-84 | the three sample FAQs, their strings equal to the source's literals |
| `FaqIndex.SampleQuestionCount` | chatbot_api.py:49-84 | the sample data gives 5 + 6 + 5 = 16 index entries |
| `Matching.UserVector` | chatbot_api.py:151-152 | the vector of the normalised user question |
| `Matching.Scores` | chatbot_api.py:160-162 | the similarity of the user vector to each indexed question, in index order |
| `Matching.BestSoFar` | chatbot_api.py:154-166 | the scan from 0.0 with a strict `>` ends with the first maximal score when one is positive, and with 0.0 and no match when none is |
| `Matching.BestSoFarStep` | chatbot_api.py:160-166 | loop-proof helper: one iteration replaces the best only on a strictly greater score |
| `Matching.BestMatch` | chatbot_api.py:145-185 | `find_best_match`; `FindBestMatch` is proved to compute it, and its outcomes are stated by `NoMatchCases` and `MatchIsFirstBest` |
| `Matching.BestMatchAfterScan` | chatbot_api.py:168-181 | loop-proof helper: after the scan, the result is the best entry's FAQ, original text and score if the score reaches the threshold and the FAQ position is valid, and None otherwise |
| `Matching.PreparedIndexInRange` | chatbot_api.py:100-116 | every `faq_idx` of a prepared index is a valid FAQ position |
| `Matching.NoMatchCases` | chatbot_api.py:147-181 | over a valid index, None exactly when the question is blank, the index is empty, no question scores above 0, or every question scores below the threshold |
| `Matching.FirstMaximumExists` | chatbot_api.py:160-178 | every match has a first maximal score, so `MatchIsFirstBest` applies to every match |
| `Matching.MatchIsFirstBest` | chatbot_api.py:160-178 | a match comes from the first entry of maximal similarity: `faq = faqs[faq_idx]`, `matched_question = original_text`, `confidence` = that similarity, which is positive and reaches the threshold |
| `Matching.FirstMaximumUnique` | chatbot_api.py:164 | only one index is the first maximum |
| `Matching.NoSharedWordNoMatch` | chatbot_api.py:128-131 | a question that shares no word with any indexed question gets no match, whatever the threshold |
| `ChatbotApi.SimpleChatbot.constructor` | chatbot_api.py:25-30 | the chatbot starts with the loaded FAQs (or the sample FAQs) and the index built from them |
| `ChatbotApi.SimpleChatbot.LoadFaqData` | chatbot_api.py:32-44 | the file's FAQs are installed, or the sample FAQs when the file is missing or not valid JSON |
| `ChatbotApi.SimpleChatbot.LoadSampleData` | chatbot_api.py:46-84 | the sample FAQs are installed |
| `ChatbotApi.SimpleChatbot.PrepareQuestions` | chatbot_api.py:96-118 | the index is rebuilt from scratch (no duplicates on a second call), has the index's length and is well formed |
| `ChatbotApi.SimpleChatbot.FindBestMatch` | chatbot_api.py:145-185 | the loop returns exactly the specified best match |
| `ChatbotApi.FallbackResponse` | chatbot_api.py:238-243 | the fallback reply, its text, category, confidence and matched question equal to the source's |
| `ChatbotApi.ValidationError` | chatbot_api.py:222 | the 400 "Message cannot be empty" |
| `ChatbotApi.EmptyMessageError` | chatbot_api.py:245-247 | the 500 the catch-all raises in its place |
| `ChatbotApi.ChatReply` | chatbot_api.py:229-243 | a match is answered with its FAQ's answer and category, its confidence and matched question; no match with exactly the fallback reply |
| `ChatbotApi.ChatOutcome` | chatbot_api.py:216-247 | the endpoint fails exactly for a blank message; any other message is answered with the reply for the stripped message at threshold 0.1 |
| `ChatbotApi.Chat` | chatbot_api.py:216-247 | the endpoint as written: the outcome with the 400 turned into a 500 by the catch-all |
| `ChatbotApi.ChatCorrected` | chatbot_api.py:218-243 | the same endpoint with the 400 for a blank message passed through |
| `ChatbotApi.BlankMessageMisreported` | chatbot_api.py:218-247 | for every blank message, the endpoint as written answers 500 while the corrected one answers the 400 raised |
| `ChatbotApi.CorrectionKeepsReplies` | chatbot_api.py:218-243 | for every other message, the two endpoints give the same successful reply |

## Findings

| source | as written | input that shows it | evidently intended | confidence | as-written member | corrected member |
|---|---|---|---|---|---|---|
| chatbot_api.py:218-247 | the `HTTPException(400)` for an empty message is raised inside the `try`, and `except Exception` turns it into a 500 "Internal server error: 400: Message cannot be empty" | a request whose message is `"   "` | a 400 "Message cannot be empty" | high (not executed) | `ChatbotApi.Chat` (with `ChatbotApi.BlankMessageMisreported`) | `ChatbotApi.ChatCorrected` |

## Left out

- Characters are classified by their ASCII meaning: `lower()`, `\w`, `\s`, `split()` and `strip()` treat every non-ASCII character as punctuation here, whereas Python lower-cases non-ASCII letters, counts them as word characters and splits on non-ASCII whitespace.
- `cosine_similarity` is not computed: the square roots and float division are floating-point numerics. It is the parameter `sim`; only the zero score for vectors without a shared word is stated (`WordVectors.ZeroWithoutSharedWord`), and the dot product is modelled exactly.
- Scores and the threshold are reals, not IEEE doubles.
- `load_faq_data` reads and parses a JSON file: the model takes its outcome as a parameter (the FAQ list, or None for a missing file or invalid JSON). A JSON file without a `faqs` key, or records with missing keys, raise in the source and are outside the typed model.
- The catch-all `except` of `find_best_match` is modelled only for the error the typed model can raise: an index entry pointing past the FAQ list answers None.
- `ChatbotApi.EmptyMessageError`: its detail text assumes Starlette's `str()` of an `HTTPException` (`"<status>: <detail>"`); older versions render it differently.
- `user_id` of a chat request is only logged; every `print` is left out.
- The FastAPI application, CORS middleware, server start-up and the endpoints `/`, `/health`, `/test-questions`, `/debug/questions` and `/categories` are HTTP plumbing or read-only reporting.
- `for_scrapping/main.py` is a one-off script built on a network fetch and an HTML parser library whose behaviour is not visible.
- The socket relay, message store and roster of the JavaScript backend are not part of this model.
