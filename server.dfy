/**
 * The HTTP layer of the backend: the `POST /api/ask` handler as a chain of
 * guards from the request's `question`, the generation configuration, the
 * retrieval outcome and the providers' replies to a status and a JSON body,
 * and the catch-all 404 handler.
 *
 * Retrieval is the parameter `retrieve`; its error outcome stands for the
 * exception `retrieveDocuments` throws. Generation is `Llm.GenerateAnswer`.
 */
module Server {
  import opened Wrappers
  import opened Text
  import Retrieve
  import Llm

  /**
   * The `question` field of the request body: absent, some value that is not a
   * string (number, boolean, object, `null`, ...), or a string.
   */
  datatype Question = Missing | NonString | Str(value: string)

  /** One entry of the `sources` array of an answer. */
  datatype Source = Source(text: string, filename: string, score: real)

  /** The JSON bodies the handlers send. */
  datatype Body =
    | ErrorBody(error: string, message: string)
    | AnswerBody(answer: string, sources: seq<Source>)

  datatype Response = Response(status: nat, body: Body)

  /** `retrieveDocuments(question, topK)`: the ranked documents, or the message of the error it throws. */
  type Retrieval = (string, int) -> Result<seq<Retrieve.Scored>>

  /** The number of documents the handler asks for. */
  const TopK := 3

  const InvalidRequest := "Invalid request"
  const QuestionRequired := "Question is required and must be a non-empty string"
  const ServiceUnavailable := "Service unavailable"
  const NotConfigured := "LLM is not configured. Please set API keys in .env file."
  const NoInformation := "I couldn't find any relevant information in the legal documents to answer your question."
  const InternalError := "Internal server error"
  const NotFoundError := "Not found"

  // ---------------------------------------------------------------------------
  // `String.prototype.trim`

  /** The characters ECMAScript's `trim` removes: WhiteSpace and LineTerminator. */
  predicate IsWhitespace(c: char) {
    c in Whitespace
  }

  /**
   * U+0009-U+000D, U+0020, U+00A0, U+1680, U+2000-U+200A, U+2028, U+2029, U+202F,
   * U+205F, U+3000 and U+FEFF.
   */
  const Whitespace: set<char> := {
    '\U{9}', '\U{A}', '\U{B}', '\U{C}', '\U{D}', '\U{20}', '\U{A0}', '\U{1680}',
    '\U{2000}', '\U{2001}', '\U{2002}', '\U{2003}', '\U{2004}', '\U{2005}', '\U{2006}', '\U{2007}',
    '\U{2008}', '\U{2009}', '\U{200A}', '\U{2028}', '\U{2029}', '\U{202F}', '\U{205F}', '\U{3000}', '\U{FEFF}'
  }

  /** `s` without its leading whitespace. */
  function TrimStart(s: string): (r: string)
    ensures |r| <= |s| && r == s[|s| - |r|..]
    ensures r != [] ==> !IsWhitespace(r[0])
    ensures forall i :: 0 <= i < |s| - |r| ==> IsWhitespace(s[i])
  {
    if s != [] && IsWhitespace(s[0]) then
      var r := TrimStart(s[1..]);
      assert forall i :: 1 <= i < |s| ==> s[1..][i - 1] == s[i];
      r
    else s
  }

  /** `s` without its trailing whitespace. */
  function TrimEnd(s: string): (r: string)
    ensures |r| <= |s| && r == s[..|r|]
    ensures r != [] ==> !IsWhitespace(r[|r| - 1])
    ensures forall i :: |r| <= i < |s| ==> IsWhitespace(s[i])
  {
    if s != [] && IsWhitespace(s[|s| - 1]) then
      var r := TrimEnd(s[..|s| - 1]);
      assert forall i :: 0 <= i < |s| - 1 ==> s[..|s| - 1][i] == s[i];
      r
    else s
  }

  /** `r` is `s[lo..hi]`, and everything of `s` outside it is whitespace. */
  ghost predicate TrimBounds(s: string, r: string, lo: int, hi: int) {
    0 <= lo <= hi <= |s| && r == s[lo..hi] &&
    (forall i :: 0 <= i < lo ==> IsWhitespace(s[i])) &&
    (forall i :: hi <= i < |s| ==> IsWhitespace(s[i]))
  }

  /**
   * `s.trim()`: the part of `s` between its leading and its trailing whitespace,
   * beginning and ending with a non-whitespace character.
   */
  function Trim(s: string): (r: string)
    ensures exists lo, hi :: TrimBounds(s, r, lo, hi)
    ensures r != [] ==> !IsWhitespace(r[0]) && !IsWhitespace(r[|r| - 1])
  {
    var t := TrimStart(s);
    var r := TrimEnd(t);
    TrimParts(s, t, r);
    r
  }

  /**
   * A suffix `t` of `s` with only whitespace before it, and a prefix `r` of `t` with
   * only whitespace after it: `r` is a slice of `s` with only whitespace around it.
   */
  lemma TrimParts(s: string, t: string, r: string)
    requires |t| <= |s| && t == s[|s| - |t|..]
    requires forall i :: 0 <= i < |s| - |t| ==> IsWhitespace(s[i])
    requires |r| <= |t| && r == t[..|r|]
    requires forall i :: |r| <= i < |t| ==> IsWhitespace(t[i])
    requires t != [] ==> !IsWhitespace(t[0])
    requires r != [] ==> !IsWhitespace(r[|r| - 1])
    ensures TrimBounds(s, r, |s| - |t|, |s| - |t| + |r|)
    ensures r != [] ==> !IsWhitespace(r[0]) && !IsWhitespace(r[|r| - 1])
  {
    if r != [] {
      assert r[0] == t[0];
    }
    var lo := |s| - |t|;
    forall i | lo + |r| <= i < |s|
      ensures IsWhitespace(s[i])
    {
      assert s[i] == t[i - lo];
    }
  }

  /** A string trims to nothing exactly when every character of it is whitespace. */
  lemma TrimEmptyIff(s: string)
    ensures |Trim(s)| == 0 <==> forall i :: 0 <= i < |s| ==> IsWhitespace(s[i])
  {
    var t := TrimStart(s);
    if |Trim(s)| == 0 {
      assert t == [];
    }
  }

  // ---------------------------------------------------------------------------
  // `POST /api/ask`

  /**
   * `!question || typeof question !== 'string' || question.trim().length === 0` fails:
   * the question is a string with a non-whitespace character.
   */
  predicate IsValidQuestion(q: Question)
    ensures IsValidQuestion(q) <==> q.Str? && exists i :: 0 <= i < |q.value| && !IsWhitespace(q.value[i])
  {
    if q.Str? then
      TrimEmptyIff(q.value);
      q.value != "" && |Trim(q.value)| != 0
    else
      false
  }

  /** `retrievedDocs.length === 0 || retrievedDocs[0].score === 0` */
  predicate NoMatch(docs: seq<Retrieve.Scored>)
    ensures Retrieve.NonIncreasing(docs) && (forall x :: x in docs ==> x.score >= 0.0) ==>
      (NoMatch(docs) <==> forall x :: x in docs ==> x.score == 0.0)
  {
    |docs| == 0 || docs[0].score == 0.0
  }

  /** `retrievedDocs.map(doc => ({ text, filename, score }))` */
  function SourcesOf(docs: seq<Retrieve.Scored>): (sources: seq<Source>)
    ensures |sources| == |docs|
    ensures forall i :: 0 <= i < |docs| ==>
      sources[i].text == docs[i].text && sources[i].filename == docs[i].filename && sources[i].score == docs[i].score
  {
    seq(|docs|, i requires 0 <= i < |docs| => Source(docs[i].text, docs[i].filename, docs[i].score))
  }

  /** The handler's outcome for a request whose question field is `q`. */
  function Ask(q: Question, cfg: Llm.Config, retrieve: Retrieval, apis: Llm.Apis): (r: Response)
    ensures r.status == 400 <==> !IsValidQuestion(q)
    ensures r.status == 503 <==> IsValidQuestion(q) && !Llm.IsLLMConfigured(cfg)
    ensures r.status == 500 <==>
      (IsValidQuestion(q) && Llm.IsLLMConfigured(cfg) &&
       (retrieve(q.value, TopK).Err? ||
        (!NoMatch(retrieve(q.value, TopK).value) &&
         Llm.GenerateAnswer(cfg, retrieve(q.value, TopK).value, q.value, apis).Err?)))
    ensures r.status == 200 || r.status == 400 || r.status == 500 || r.status == 503
    ensures r.status == 200 <==> r.body.AnswerBody?
  {
    if !IsValidQuestion(q) then
      Response(400, ErrorBody(InvalidRequest, QuestionRequired))
    else if !Llm.IsLLMConfigured(cfg) then
      Response(503, ErrorBody(ServiceUnavailable, NotConfigured))
    else
      match retrieve(q.value, TopK)
      case Err(m) => Response(500, ErrorBody(InternalError, m))
      case Ok(docs) =>
        if NoMatch(docs) then
          Response(200, AnswerBody(NoInformation, []))
        else
          match Llm.GenerateAnswer(cfg, docs, q.value, apis)
          case Err(m) => Response(500, ErrorBody(InternalError, m))
          case Ok(answer) => Response(200, AnswerBody(answer, SourcesOf(docs)))
  }

  /**
   * A missing, non-string, empty or whitespace-only question is rejected with 400,
   * whatever the configuration, retrieval and providers would do.
   */
  lemma InvalidQuestionRejected(q: Question, cfg: Llm.Config, retrieve: Retrieval, apis: Llm.Apis)
    requires q.Missing? || q.NonString? || (q.Str? && forall i :: 0 <= i < |q.value| ==> IsWhitespace(q.value[i]))
    ensures Ask(q, cfg, retrieve, apis) == Response(400, ErrorBody(InvalidRequest, QuestionRequired))
  {
    if q.Str? {
      TrimEmptyIff(q.value);
    }
  }

  /**
   * With the LLM unconfigured a valid question gets 503, and retrieval and the
   * providers are not consulted: any other retrieval and providers give the same response.
   */
  lemma UnconfiguredUnavailable(q: Question, cfg: Llm.Config, retrieve1: Retrieval, apis1: Llm.Apis,
                                retrieve2: Retrieval, apis2: Llm.Apis)
    requires IsValidQuestion(q) && !Llm.IsLLMConfigured(cfg)
    ensures Ask(q, cfg, retrieve1, apis1) == Response(503, ErrorBody(ServiceUnavailable, NotConfigured))
    ensures Ask(q, cfg, retrieve1, apis1) == Ask(q, cfg, retrieve2, apis2)
  {
  }

  /** Retrieval is consulted only for the question itself with topK 3. */
  lemma RetrievesTopThree(q: Question, cfg: Llm.Config, retrieve1: Retrieval, retrieve2: Retrieval, apis: Llm.Apis)
    requires q.Str? ==> retrieve1(q.value, 3) == retrieve2(q.value, 3)
    ensures Ask(q, cfg, retrieve1, apis) == Ask(q, cfg, retrieve2, apis)
  {
  }

  /**
   * When retrieval finds nothing, or its best score is 0, the answer is the fixed
   * no-information text with no sources, and the providers are not asked.
   */
  lemma NoMatchFallback(q: Question, cfg: Llm.Config, retrieve: Retrieval, apis1: Llm.Apis, apis2: Llm.Apis)
    requires IsValidQuestion(q) && Llm.IsLLMConfigured(cfg)
    requires retrieve(q.value, TopK).Ok? && NoMatch(retrieve(q.value, TopK).value)
    ensures Ask(q, cfg, retrieve, apis1) == Response(200, AnswerBody(NoInformation, []))
    ensures Ask(q, cfg, retrieve, apis1) == Ask(q, cfg, retrieve, apis2)
  {
  }

  /**
   * Otherwise a generated answer is sent with the retrieved documents as sources,
   * in the same order and field for field.
   */
  lemma AnswerWithSources(q: Question, cfg: Llm.Config, retrieve: Retrieval, apis: Llm.Apis)
    requires IsValidQuestion(q) && Llm.IsLLMConfigured(cfg)
    requires retrieve(q.value, TopK).Ok? && !NoMatch(retrieve(q.value, TopK).value)
    requires Llm.GenerateAnswer(cfg, retrieve(q.value, TopK).value, q.value, apis).Ok?
    ensures Ask(q, cfg, retrieve, apis).status == 200
    ensures Ask(q, cfg, retrieve, apis).body.answer ==
      Llm.GenerateAnswer(cfg, retrieve(q.value, TopK).value, q.value, apis).value
    ensures |Ask(q, cfg, retrieve, apis).body.sources| == |retrieve(q.value, TopK).value|
    ensures forall i :: 0 <= i < |retrieve(q.value, TopK).value| ==>
      var d, s := retrieve(q.value, TopK).value[i], Ask(q, cfg, retrieve, apis).body.sources[i];
      s.text == d.text && s.filename == d.filename && s.score == d.score
  {
  }

  /** A failure of retrieval or of generation is reported as 500 carrying the error's message. */
  lemma FailureIsInternal(q: Question, cfg: Llm.Config, retrieve: Retrieval, apis: Llm.Apis)
    requires IsValidQuestion(q) && Llm.IsLLMConfigured(cfg)
    ensures retrieve(q.value, TopK).Err? ==>
      Ask(q, cfg, retrieve, apis) == Response(500, ErrorBody(InternalError, retrieve(q.value, TopK).message))
    ensures (retrieve(q.value, TopK).Ok? && !NoMatch(retrieve(q.value, TopK).value) &&
             Llm.GenerateAnswer(cfg, retrieve(q.value, TopK).value, q.value, apis).Err?) ==>
      Ask(q, cfg, retrieve, apis) == Response(500, ErrorBody(InternalError,
        Llm.GenerateAnswer(cfg, retrieve(q.value, TopK).value, q.value, apis).message))
  {
  }

  /**
   * With retrieval ranking non-negative scores, the fallback answer is sent exactly
   * when no document scores above 0.
   */
  lemma FallbackIffNoPositiveScore(q: Question, cfg: Llm.Config, retrieve: Retrieval, apis: Llm.Apis,
                                   scores: seq<Retrieve.Scored>)
    requires IsValidQuestion(q) && Llm.IsLLMConfigured(cfg)
    requires retrieve(q.value, TopK) == Ok(Retrieve.Rank(scores, TopK))
    requires forall x :: x in scores ==> x.score >= 0.0
    ensures Ask(q, cfg, retrieve, apis) == Response(200, AnswerBody(NoInformation, [])) <==>
      forall x :: x in scores ==> x.score == 0.0
  {
    var ranked := Retrieve.Rank(scores, TopK);
    RankedNoMatchIff(scores);
    if !NoMatch(ranked) {
      assert |SourcesOf(ranked)| > 0;
    }
  }

  /** Among non-negative scores, the top three show no match exactly when every score is 0. */
  lemma RankedNoMatchIff(scores: seq<Retrieve.Scored>)
    requires forall x :: x in scores ==> x.score >= 0.0
    ensures NoMatch(Retrieve.Rank(scores, TopK)) <==> forall x :: x in scores ==> x.score == 0.0
  {
    var ranked := Retrieve.Rank(scores, TopK);
    Retrieve.RankLength(scores, TopK);
    if ranked != [] {
      Retrieve.RankFirstIsMax(scores, TopK);
      Retrieve.RankSelectsTop(scores, TopK);
      assert ranked[0] in multiset(scores);
      assert ranked[0] in scores;
    }
  }

  // ---------------------------------------------------------------------------
  // Unmatched routes

  /** The 404 handler: the message names the request's method (`verb`) and path. */
  function NotFound(verb: string, path: string): (r: Response)
    ensures r.status == 404 && r.body.ErrorBody? && r.body.error == NotFoundError
    ensures StartsWith(r.body.message, "Route " + verb + " ")
    ensures EndsWith(r.body.message, " " + path + " not found")
  {
    var message := "Route " + verb + " " + path + " not found";
    assert message == ("Route " + verb + " ") + (path + " not found");
    assert message == ("Route " + verb) + (" " + path + " not found");
    Concat("Route " + verb + " ", path + " not found");
    Concat("Route " + verb, " " + path + " not found");
    Response(404, ErrorBody(NotFoundError, message))
  }

  /** No space in an HTTP method name (methods are tokens). */
  predicate IsToken(verb: string) {
    forall i :: 0 <= i < |verb| ==> verb[i] != ' '
  }

  /** The 404 message determines the method and the path it names. */
  lemma NotFoundNamesRoute(m1: string, p1: string, m2: string, p2: string)
    requires IsToken(m1) && IsToken(m2)
    requires NotFound(m1, p1) == NotFound(m2, p2)
    ensures m1 == m2 && p1 == p2
  {
    var s1 := "Route " + m1 + " " + p1 + " not found";
    var s2 := "Route " + m2 + " " + p2 + " not found";
    assert s1 == NotFound(m1, p1).body.message;
    assert s2 == NotFound(m2, p2).body.message;
    SpaceAfterVerb(m1, p1);
    SpaceAfterVerb(m2, p2);
    assert |m1| == |m2|;
    assert m1 == s1[6..6 + |m1|];
    assert m2 == s2[6..6 + |m2|];
    assert p1 == s1[7 + |m1|..|s1| - 10];
    assert p2 == s2[7 + |m2|..|s2| - 10];
  }

  /** In a 404 message for a token, the first space after "Route " is the one following the method. */
  lemma SpaceAfterVerb(verb: string, path: string)
    requires IsToken(verb)
    ensures ("Route " + verb + " " + path + " not found")[6 + |verb|] == ' '
    ensures forall k :: 0 <= k < |verb| ==> ("Route " + verb + " " + path + " not found")[6 + k] == verb[k]
  {
  }
}
