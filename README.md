# Legal QA retrieval backend — Dafny model

This project models the decision-making core of a retrieval-augmented legal
question-answering backend. The backend has three parts:

- **Retrieval** (`retrieve.js`) loads the `.txt` legal documents into a TF-IDF
  corpus. It scores every document against a question by cosine similarity of
  sparse term-weight vectors, sorts the scores in descending order and keeps
  the top K.
- **Generation** (`llm.js`) fixes a provider (OpenAI or Groq) and its client
  from the environment when the module loads. It writes the
  retrieval-augmented prompt that numbers the retrieved documents, sends it to
  the selected provider and maps that provider's failures to error messages.
- **HTTP** (`index.js`) handles `POST /api/ask` as a chain of guards:
  - 400 for an invalid question;
  - 503 when no LLM is configured;
  - a fixed fallback answer when nothing relevant was retrieved;
  - 200 with the answer and its sources;
  - 500 for any failure.

  It also has a 404 handler for unmatched routes.

Modules:

- `Wrappers` (`wrappers.dfy`): `Option` and `Result`.
- `Text` (`text.dfy`): the JavaScript string operations the core uses: `endsWith`, `includes`, `Array.prototype.join`, and decimal rendering of a number in a template literal.
- `Retrieve` (`retrieve.dfy`): `retrieve.js`.
  - The module state (`tfidf`, `documents`) is the class `Retriever`, whose methods update it.
  - `cosineSimilarity` and the vector building are loop methods. They are proved against specification functions: the ghost `Dot` and `Similarity`, and the compiled `VectorOf`.
  - The in-place `sort` is an array method proved equal to the stable insertion sort `SortByScore`. The ranking properties are lemmas about `Rank`.
- `Llm` (`llm.dfy`): `llm.js`.
  - The configuration fixed at load is the value `Config`, built by `Configure` from the environment.
  - Prompt assembly, dispatch and the error mapping are functions.
- `Server` (`server.dfy`): `index.js`. The `/api/ask` handler is a pure function `Ask`. Retrieval and the providers' replies are parameters.

The model represents some inputs as parameters:

- The TF-IDF term weights come from a third-party library, so `listTerms` is a parameter (corpus, document index) ↦ term list.
- `Math.sqrt` is a parameter `sqrt` that is positive on positive numbers.
- The directory listing and the file reader are parameters of `LoadDocuments`.
- A provider's chat completion is a parameter of type `Completion`.
- The retrieval call made by the handler is a parameter of type `Retrieval`.

## Model

| member | source | states |
|---|---|---|
| `Retrieve.Retriever.LoadDocuments` | backend/src/retrieve.js:17-40 | the corpus is rebuilt from scratch: the documents are exactly the ".txt" names of the listing, in listing order, each paired with its file's contents; the TF-IDF corpus holds exactly those texts in that order; the returned count is the number of documents |
| `Retrieve.Retriever.constructor` | backend/src/retrieve.js:12-13 | before any load there is no TF-IDF instance and no document |
| `Retrieve.Retriever.IsLoaded` | backend/src/retrieve.js:73 | with the corpus in step with the documents, retrieval can run exactly when at least one document is loaded |
| `Retrieve.TxtFiles` | backend/src/retrieve.js:19 | the filtered listing is no longer than the listing |
| `Retrieve.TxtFilesMembers` | backend/src/retrieve.js:19 | a name is kept exactly when it is in the listing and ends with ".txt" |
| `Retrieve.TxtFilesAppend` | backend/src/retrieve.js:19 | the filter keeps listing order: filtering a concatenation concatenates the filtered parts |
| `Retrieve.LoadAll` | backend/src/retrieve.js:24-36 | one document per kept file |
| `Retrieve.Texts` | backend/src/retrieve.js:29 | one corpus text per document |
| `Retrieve.VectorOf` | backend/src/retrieve.js:82-85 | the vector's keys are exactly the listed terms |
| `Retrieve.VectorOfLastWins` | backend/src/retrieve.js:83-84 | a term listed more than once takes the weight of its last listing |
| `Retrieve.BuildVector` | backend/src/retrieve.js:82-85 | the key-assignment loop builds exactly `VectorOf` of the term list |
| `Retrieve.Term` | backend/src/retrieve.js:53-56 | one key's contribution to the dot product: the product of the two weights when both vectors hold the key, and 0 when either lacks it |
| `Retrieve.Weight` | backend/src/retrieve.js:53-54 | the read of `vec[key]` defaulting to 0: a key's weight when the vector holds it, and 0 when it does not |
| `Retrieve.QueryVector` | backend/src/retrieve.js:78-85 | the question's vector has as keys exactly the terms the library lists for a corpus holding only the question |
| `Retrieve.CosineSimilarity` | backend/src/retrieve.js:45-64 | the result is the similarity specification: 0 when either squared magnitude is 0, otherwise the dot product over the product of the magnitudes' square roots |
| `Retrieve.Accumulate` | backend/src/retrieve.js:46-59 | the loop over the union of keys sums the dot product and both squared magnitudes, reading absent keys as 0 |
| `Retrieve.Normalize` | backend/src/retrieve.js:61-63 | 0 when either squared magnitude is 0; otherwise the value that, multiplied by the product of the two square roots, gives the dot product |
| `Retrieve.Similarity` | backend/src/retrieve.js:45-64 | the similarity is the normalisation of the dot product over the shared keys by the two vectors' own squared magnitudes, which are non-negative |
| `Retrieve.DotRemove` | backend/src/retrieve.js:52-59 | a sum over a key set is one key's product plus the sum over the rest, whichever key is taken first (the order of the loop does not matter) |
| `Retrieve.DotSymmetric` | backend/src/retrieve.js:56 | the dot product is symmetric in its two vectors |
| `Retrieve.DotDropZeroTerms` | backend/src/retrieve.js:53-56 | keys contributing a zero product can be dropped from the sum |
| `Retrieve.SquaresZero` | backend/src/retrieve.js:57-58 | a squared magnitude is non-negative, and it is 0 exactly when every weight over the keys is 0 |
| `Retrieve.UnionMagnitude` | backend/src/retrieve.js:46-58 | a vector's squared magnitude summed over the union of keys equals that summed over its own keys |
| `Retrieve.DotOverSharedKeys` | backend/src/retrieve.js:46-56 | the dot product over the union of keys equals the sum over the shared keys only |
| `Retrieve.ZeroMagnitudeScoresZero` | backend/src/retrieve.js:61 | the similarity is 0 whenever either vector has zero squared magnitude |
| `Retrieve.ZeroMagnitudeIff` | backend/src/retrieve.js:57-61 | the squared magnitude is 0 exactly when every weight of the vector is 0 |
| `Retrieve.SimilaritySymmetric` | backend/src/retrieve.js:45-64 | the similarity is symmetric in its two arguments |
| `Retrieve.NoSharedTermScoresZero` | backend/src/retrieve.js:46-63 | vectors sharing no term have similarity 0 |
| `Retrieve.NoSharedTermAllZero` | backend/src/retrieve.js:88-103 | a question sharing no term with any document gives every document score 0 |
| `Retrieve.ScoreOf` | backend/src/retrieve.js:89-102 | the entry for document i carries that document's text and filename, and its score is the cosine similarity of the query with the vector of `listTerms(i)`; it is 0 when the two share no term |
| `Retrieve.ScoreAll` | backend/src/retrieve.js:88-103 | one scored entry per loaded document |
| `Retrieve.Insert` | backend/src/retrieve.js:107 | insertion adds exactly one entry |
| `Retrieve.SortByScore` | backend/src/retrieve.js:107 | sorting keeps the length |
| `Retrieve.SliceEnd` | backend/src/retrieve.js:108 | `slice(0, topK)` stops at `min(topK, n)` for non-negative `topK` and at `max(n + topK, 0)` for negative `topK` |
| `Retrieve.Rank` | backend/src/retrieve.js:106-108 | the result is the first `SliceEnd(topK, n)` entries of the stable descending sort of the scores |
| `Retrieve.InsertMultiset` | backend/src/retrieve.js:107 | insertion adds exactly the inserted entry |
| `Retrieve.InsertSorted` | backend/src/retrieve.js:107 | insertion into a descending sequence keeps it descending |
| `Retrieve.InsertStable` | backend/src/retrieve.js:107 | the inserted entry goes behind every entry of equal score |
| `Retrieve.SortPermutes` | backend/src/retrieve.js:107 | the sort is a permutation of the scores |
| `Retrieve.SortOrders` | backend/src/retrieve.js:107 | the sorted scores are non-increasing |
| `Retrieve.SortStable` | backend/src/retrieve.js:107 | entries of equal score keep their relative input order (the stability ECMAScript requires) |
| `Retrieve.WithScoreAppend` | backend/src/retrieve.js:107 | selecting the entries of one score distributes over concatenation |
| `Retrieve.SortInPlace` | backend/src/retrieve.js:106-107 | the in-place sort leaves the array equal to the stable sort of its old contents |
| `Retrieve.InsertInPlace` | backend/src/retrieve.js:107 | one insertion step sorts the prefix up to position i and leaves the rest of the array untouched |
| `Retrieve.RankLength` | backend/src/retrieve.js:106-108 | the result has exactly `min(topK, number of documents)` entries |
| `Retrieve.RankOrdered` | backend/src/retrieve.js:107 | the result's scores are non-increasing from first to last |
| `Retrieve.RankSelectsTop` | backend/src/retrieve.js:88-108 | every result is a scored document, none returned more often than it was scored, and every document left out scores no more than the last one returned |
| `Retrieve.RankFirstIsMax` | backend/src/retrieve.js:106-108 | the first result has the highest score of all documents |
| `Retrieve.RankKeepsTies` | backend/src/retrieve.js:107 | two results with equal scores are found at increasing positions of the input; this is a corollary, and `RankStable` and `SortStable` state stability in full |
| `Retrieve.RankStable` | backend/src/retrieve.js:106-108 | for every score, the results with that score are the first entries of that score in corpus order, in that order |
| `Retrieve.Retriever.RetrieveDocuments` | backend/src/retrieve.js:72-116 | fails with "Documents not loaded. Call loadDocuments() first." when no corpus was built or it is empty; otherwise returns the ranking of every loaded document, cut to `topK`; each entry carries the document's own text and filename, and its cosine score against the question's vector, using the library's terms for that document within the corpus of the loaded texts |
| `Llm.Truthy` | backend/src/llm.js:7-23 | an environment value is falsy exactly when the variable is unset or holds the empty string |
| `Llm.ProviderName` | backend/src/llm.js:7 | the provider is `LLM_PROVIDER` when it is set and non-empty, and "openai" otherwise |
| `Llm.ProviderOf` | backend/src/llm.js:13-35 | names select OpenAI and Groq exactly when they are "openai" and "groq"; any other name is unsupported |
| `Llm.Configure` | backend/src/llm.js:7-35 | only the selected provider's client is created, exactly when its API key is set (and, for Groq, the SDK constructor succeeds), and it carries that key |
| `Llm.ConfiguredIff` | backend/src/llm.js:153-160 | `isLLMConfigured` holds exactly when the provider is openai with an OpenAI key, or groq with a Groq key whose client was built |
| `Llm.IsLLMConfigured` | backend/src/llm.js:153-160 | true only for the providers openai and groq; for each of them, exactly when that provider's client exists |
| `Llm.DefaultsToOpenAI` | backend/src/llm.js:7 | with no provider set the provider is "openai", and it is configured exactly when the OpenAI key is set |
| `Llm.Entries` | backend/src/llm.js:44-45 | entry k is "[Document k+1]:\n" followed by document k's text |
| `Llm.Context` | backend/src/llm.js:44-46 | the context is empty exactly when there are no documents, and otherwise it begins with "[Document 1]:\n" and the first document's text |
| `Llm.ConstructRAGPrompt` | backend/src/llm.js:43-57 | every document's labelled entry occurs in the prompt |
| `Llm.EmptyContext` | backend/src/llm.js:44-52 | with no documents the context is empty, and `<context>` is followed directly by `</context>` |
| `Llm.ContextSnoc` | backend/src/llm.js:44-46 | another document appends its numbered entry after a blank line behind the earlier ones, in input order |
| `Llm.ContextEntryAt` | backend/src/llm.js:44-46 | document i appears as "[Document i+1]:\n" and its text, right after the earlier documents and a blank line |
| `Llm.ContextPrefix` | backend/src/llm.js:44-46 | the context of the first n documents begins the context of all of them |
| `Llm.LabelNumber` | backend/src/llm.js:45 | a label is "[Document " and "]:\n" around a run of decimal digits that reads back as the document's one-based position |
| `Llm.LabelsDistinct` | backend/src/llm.js:45 | distinct positions get distinct labels |
| `Llm.PromptLayout` | backend/src/llm.js:48-56 | the prompt is the instruction and the context up to `</context>`, then "Question: " and the question verbatim, then the closing request |
| `Llm.GroqErrorMessage` | backend/src/llm.js:111-114 | a message mentioning "connect" or "network" becomes the fixed connection error; any other becomes "Groq API failed: " and the message |
| `Llm.GroqErrorIff` | backend/src/llm.js:111-114 | the connection error is produced exactly for messages mentioning "connect" or "network", and otherwise the original message follows the prefix |
| `Llm.CallOpenAI` | backend/src/llm.js:62-84 | the completion text is returned, and a failure becomes "OpenAI API failed: " and the SDK's message |
| `Llm.CallGroq` | backend/src/llm.js:90-115 | the completion text is returned, and a failure is mapped by the Groq error rule |
| `Llm.ConfigError` | backend/src/llm.js:132-144 | "OpenAI client not initialized. Check your API key." for openai, "Groq client not initialized. Check your API key." for groq, and "Unsupported LLM provider: " and the name for any other provider |
| `Llm.GenerateAnswer` | backend/src/llm.js:124-147 | a missing client gives "... client not initialized. Check your API key.", an unknown provider gives "Unsupported LLM provider: <name>", and otherwise the built prompt goes to the selected provider |
| `Llm.UnconfiguredNeverCalls` | backend/src/llm.js:132-144 | when not configured, generation fails with the configuration error whatever the providers would reply |
| `Llm.ConfiguredAsksSelected` | backend/src/llm.js:126-141 | when configured, only the selected provider's reply to the built prompt matters |
| `Server.TrimStart` | backend/src/index.js:52 | leading whitespace is removed, all of it, and nothing else |
| `Server.TrimEnd` | backend/src/index.js:52 | trailing whitespace is removed, all of it, and nothing else |
| `Server.Trim` | backend/src/index.js:52 | the trimmed string is a contiguous part of the original that begins and ends with non-whitespace, and everything outside it is whitespace |
| `Server.TrimEmptyIff` | backend/src/index.js:52 | a string trims to nothing exactly when all its characters are whitespace |
| `Server.IsValidQuestion` | backend/src/index.js:52 | a question passes validation exactly when it is a string containing a non-whitespace character |
| `Server.Ask` | backend/src/index.js:47-103 | the status is 400 exactly for an invalid question, 503 exactly for a valid question with the LLM unconfigured, and 500 exactly when retrieval fails or generation fails after a match; 200 carries an answer body |
| `Server.InvalidQuestionRejected` | backend/src/index.js:52-57 | a missing, non-string or whitespace-only question gets 400 with the fixed body, whatever the configuration, so 400 comes before 503 |
| `Server.UnconfiguredUnavailable` | backend/src/index.js:60-65 | a valid question with the LLM unconfigured gets 503, and the response does not depend on retrieval or the providers |
| `Server.RetrievesTopThree` | backend/src/index.js:70 | retrieval is consulted only for the question with topK 3 |
| `Server.NoMatchFallback` | backend/src/index.js:73-78 | an empty retrieval or a first score of 0 gives the fixed "couldn't find" answer with no sources, whatever the providers would reply |
| `Server.SourcesOf` | backend/src/index.js:86-90 | one source per retrieved document, copying text, filename and score field for field |
| `Server.AnswerWithSources` | backend/src/index.js:80-94 | otherwise the response is 200 with the generated answer and the sources in retrieval order, field for field |
| `Server.FailureIsInternal` | backend/src/index.js:96-101 | a retrieval or generation failure gives 500 "Internal server error" with the failure's message |
| `Server.NoMatch` | backend/src/index.js:73 | on documents in descending order with non-negative scores, the no-match test holds exactly when every score is 0 |
| `Server.RankedNoMatchIff` | backend/src/index.js:73 | on ranked non-negative scores, the no-match test holds exactly when every score is 0 |
| `Server.FallbackIffNoPositiveScore` | backend/src/index.js:70-78 | with retrieval ranking non-negative scores, the fallback answer is sent exactly when no document scores above 0 |
| `Server.NotFound` | backend/src/index.js:106-111 | 404 "Not found"; the message begins with "Route ", the method and a space, and ends with a space, the path and " not found" |
| `Server.NotFoundNamesRoute` | backend/src/index.js:109 | the 404 message determines the method and the path it names |
| `Text.EndsWith` | backend/src/retrieve.js:19 | `endsWith` holds exactly when the suffix fits and matches the string's last characters one by one |
| `Text.JoinFirst` | backend/src/llm.js:46 | joining no parts gives ""; otherwise the join begins with the first part, followed by the separator when there are more parts |
| `Text.JoinLast` | backend/src/llm.js:46 | a join of one or more parts ends with the last part, preceded by the separator when there are more parts |
| `Text.Includes` | backend/src/llm.js:111 | `includes` holds exactly when the part occurs at some index |
| `Text.JoinAppend` | backend/src/llm.js:46 | joining a concatenation puts one separator between the two joined parts |
| `Text.NatToString` | backend/src/llm.js:45 | a number renders as a non-empty string of decimal digits with no leading zero |
| `Text.ParseNatToString` | backend/src/llm.js:45 | the rendered digits read back as the same number |
| `Text.NatToStringInjective` | backend/src/llm.js:45 | distinct numbers render differently |

## Left out

- The TF-IDF weighting of the `natural` library (`TfIdf`, `addDocument`, `listTerms`): its source is not part of this model. The corpus state is the sequence of texts added, and `listTerms` is a parameter.
- Floating point:
  - Scores and weights are reals.
  - `Math.sqrt` is a parameter assumed positive on positive numbers.
  - NaN, infinities and rounding are not modelled, nor is `toFixed` in the log lines.
  - Numeric bounds (score ≤ 1, Cauchy–Schwarz, "an identical query ranks first") are not stated.
- File system I/O: the directory listing and the file reader are inputs. A read that throws part-way through a load is not modelled (the reader is total).
- JavaScript property lookup along the prototype chain: `vec[key] || 0` on a key such as "constructor" that only one vector holds reads an inherited property, not 0. The model reads absent keys as 0, and it keeps a term `__proto__` that the key assignments `vector[item.term] = item.tfidf` (backend/src/retrieve.js:84 and 92) drop, because that setter ignores a number.
- Strings are sequences of Unicode scalar values, not UTF-16 code units. `trim` uses the ECMAScript WhiteSpace and LineTerminator sets over those values.
- The engine's own sort algorithm: `Retrieve.SortInPlace` is an insertion sort that meets ECMAScript's stable-sort requirement. The comparator-call pattern is not modelled; any stable sort under that comparator produces the same array.
- The SDK requests of `callOpenAI` and `callGroq`, including the model name, the system message, the temperature, `max_tokens` and the `choices[0]` extraction: a `Completion` parameter gives the text or the SDK's error message.
- The awaiting of promises: the asynchronous calls are modelled by their outcomes.
- The Express framework: the app, CORS, `express.json` body parsing, dotenv, `app.listen`, the port, the health endpoint and its timestamp, the generic error-handling middleware, and all console logging. The `question` field is taken as already parsed into absent / non-string / string.
- The start-up sequence in `index.js` (`initializeRetrieval`, the exit on failure, the configuration warning). `initializeRetrieval` is only an alias of `loadDocuments`.
- The default `topK = 3` of `retrieveDocuments`: the only caller always passes 3.
- The frontend.
