/**
 * The generation side of the backend: which hosted model provider is used,
 * whether its client exists, how the retrieval-augmented prompt is written,
 * and how the provider's failures are reported.
 *
 * The provider and the clients are fixed once when the module loads, from
 * the environment; that configuration is the record `Config`. The chat
 * completion requests themselves are the parameters of type `Completion`.
 */
module Llm {
  import opened Wrappers
  import opened Text
  import Retrieve

  /** The environment variables the module reads (absent when unset). */
  datatype Env = Env(llmProvider: Option<string>, openaiApiKey: Option<string>, groqApiKey: Option<string>)

  /** A provider's SDK client, created with an API key. */
  datatype Client = Client(apiKey: string)

  /** The module-level state: the provider name and the two client slots (`null` is `None`). */
  datatype Config = Config(provider: string, openaiClient: Option<Client>, groqClient: Option<Client>)

  /** The providers the module knows, and every other name. */
  datatype Provider = OpenAI | Groq | Unsupported(name: string)

  /**
   * A provider's chat completion for a user prompt: the text of the first
   * choice, or the message of the error the SDK raised.
   */
  type Completion = string -> Result<string>

  /** The two providers' chat completion endpoints. */
  datatype Apis = Apis(openai: Completion, groq: Completion)

  const DefaultProvider := "openai"
  const OpenAINotInitialized := "OpenAI client not initialized. Check your API key."
  const GroqNotInitialized := "Groq client not initialized. Check your API key."
  const UnsupportedPrefix := "Unsupported LLM provider: "
  const OpenAIFailedPrefix := "OpenAI API failed: "
  const GroqFailedPrefix := "Groq API failed: "
  const GroqConnectionError := "Failed to connect to Groq API. " + "Please check your internet connection and API key."

  // ---------------------------------------------------------------------------
  // Configuration

  /** JavaScript truthiness of an environment variable: set and not the empty string. */
  predicate Truthy(v: Option<string>)
    ensures !Truthy(v) <==> v == None || v == Some("")
  {
    v.Some? && v.value != ""
  }

  /** `process.env.LLM_PROVIDER || 'openai'` */
  function ProviderName(env: Env): (name: string)
    ensures name != ""
    ensures Truthy(env.llmProvider) ==> name == env.llmProvider.value
    ensures !Truthy(env.llmProvider) ==> name == DefaultProvider
  {
    if Truthy(env.llmProvider) then env.llmProvider.value else DefaultProvider
  }

  /** The provider a configured name selects; names are compared exactly. */
  function ProviderOf(name: string): (p: Provider)
    ensures p == OpenAI <==> name == "openai"
    ensures p == Groq <==> name == "groq"
    ensures p.Unsupported? ==> p.name == name
  {
    if name == "openai" then OpenAI
    else if name == "groq" then Groq
    else Unsupported(name)
  }

  /**
   * The clients created at load: only the selected provider's, and only when its
   * API key is set; `groqConstructs` says whether `new Groq(...)` returns rather than throws.
   */
  function Configure(env: Env, groqConstructs: bool): (cfg: Config)
    ensures cfg.provider == ProviderName(env)
    ensures cfg.openaiClient.Some? <==> ProviderOf(cfg.provider) == OpenAI && Truthy(env.openaiApiKey)
    ensures cfg.groqClient.Some? <==> ProviderOf(cfg.provider) == Groq && Truthy(env.groqApiKey) && groqConstructs
    ensures cfg.openaiClient.Some? ==> cfg.openaiClient.value.apiKey == env.openaiApiKey.value
    ensures cfg.groqClient.Some? ==> cfg.groqClient.value.apiKey == env.groqApiKey.value
  {
    var provider := ProviderName(env);
    if provider == "openai" then
      Config(provider, if Truthy(env.openaiApiKey) then Some(Client(env.openaiApiKey.value)) else None, None)
    else if provider == "groq" then
      Config(provider, None, if Truthy(env.groqApiKey) && groqConstructs then Some(Client(env.groqApiKey.value)) else None)
    else
      Config(provider, None, None)
  }

  /** `isLLMConfigured()`: the selected provider is known and its client exists. */
  predicate IsLLMConfigured(cfg: Config)
    ensures IsLLMConfigured(cfg) ==> cfg.provider == "openai" || cfg.provider == "groq"
    ensures cfg.provider == "openai" ==> (IsLLMConfigured(cfg) <==> cfg.openaiClient.Some?)
    ensures cfg.provider == "groq" ==> (IsLLMConfigured(cfg) <==> cfg.groqClient.Some?)
  {
    match ProviderOf(cfg.provider)
    case OpenAI => cfg.openaiClient.Some?
    case Groq => cfg.groqClient.Some?
    case Unsupported(_) => false
  }

  /** Configured exactly when the provider is openai or groq and its own key (and client) made it. */
  lemma ConfiguredIff(env: Env, groqConstructs: bool)
    ensures IsLLMConfigured(Configure(env, groqConstructs)) <==>
      (ProviderName(env) == "openai" && Truthy(env.openaiApiKey)) ||
      (ProviderName(env) == "groq" && Truthy(env.groqApiKey) && groqConstructs)
  {
  }

  /** With no provider set, openai is used, and it is configured exactly when its key is set. */
  lemma DefaultsToOpenAI(env: Env, groqConstructs: bool)
    requires !Truthy(env.llmProvider)
    ensures Configure(env, groqConstructs).provider == "openai"
    ensures IsLLMConfigured(Configure(env, groqConstructs)) <==> Truthy(env.openaiApiKey)
  {
  }

  // ---------------------------------------------------------------------------
  // The prompt

  const Instruction := "You are a legal expert assistant. Use ONLY the following retrieved paragraphs to answer the user's question. If the answer cannot be found in the provided context, say so clearly."
  const Closing := "Please provide a clear, accurate answer based solely on the information provided above."
  const ContextOpen := "\n\n<context>\n"
  const ContextClose := "\n</context>"
  const QuestionIntro := "\n\nQuestion: "
  const Separator := "\n\n"

  const LabelOpen := "[Document "
  const LabelClose := "]:\n"

  /** The label of the document at zero-based position `i`. */
  function Label(i: nat): string {
    LabelOpen + NatToString(i + 1) + LabelClose
  }

  /**
   * Between the label's fixed opening and closing stand the decimal digits of
   * the document's one-based position.
   */
  lemma LabelNumber(i: nat)
    ensures StartsWith(Label(i), LabelOpen) && EndsWith(Label(i), LabelClose)
    ensures |Label(i)| > |LabelOpen| + |LabelClose|
    ensures var d := Label(i)[|LabelOpen|..|Label(i)| - |LabelClose|];
      (forall k :: 0 <= k < |d| ==> IsDigit(d[k])) && ParseDecimal(d) == i + 1
  {
    var n := NatToString(i + 1);
    ParseNatToString(i + 1);
    var l := Label(i);
    Concat(LabelOpen + n, LabelClose);
    assert l[..|LabelOpen|] == LabelOpen;
    assert l[|LabelOpen|..|l| - |LabelClose|] == n;
  }

  /** The entries of `docs`, the first one labelled as position `from`. */
  function Entries(docs: seq<Retrieve.Scored>, from: nat): (es: seq<string>)
    ensures |es| == |docs|
    ensures forall k :: 0 <= k < |docs| ==> es[k] == Label(from + k) + docs[k].text
  {
    seq(|docs|, k requires 0 <= k < |docs| => Label(from + k) + docs[k].text)
  }

  /** `retrievedDocs.map(...).join('\n\n')` */
  function Context(docs: seq<Retrieve.Scored>): (c: string)
    ensures c == "" <==> docs == []
    ensures docs != [] ==> StartsWith(c, Label(0) + docs[0].text)
  {
    var es := Entries(docs, 0);
    if |es| <= 1 then
      Join(es, Separator)
    else
      assert es == [es[0]] + es[1..];
      JoinAppend([es[0]], es[1..], Separator);
      Concat(es[0], Separator + Join(es[1..], Separator));
      Join(es, Separator)
  }

  /** `constructRAGPrompt(retrievedDocs, question)` */
  function ConstructRAGPrompt(docs: seq<Retrieve.Scored>, question: string): (p: string)
    ensures forall i :: 0 <= i < |docs| ==> Includes(p, Label(i) + docs[i].text)
  {
    var head := Instruction + ContextOpen;
    var tail := ContextClose + QuestionIntro + question + Separator + Closing;
    var p := (Instruction + ContextOpen + Context(docs) + ContextClose) + (QuestionIntro + question + Separator + Closing);
    assert p == head + Context(docs) + tail;
    assert forall i :: 0 <= i < |docs| ==> Includes(p, Label(i) + docs[i].text) by {
      forall i | 0 <= i < |docs|
        ensures Includes(p, Label(i) + docs[i].text)
      {
        EntryInContext(docs, i);
        IncludesInside(head, Context(docs), tail, Label(i) + docs[i].text);
      }
    }
    p
  }

  /** Every document's labelled entry occurs in the context. */
  lemma EntryInContext(docs: seq<Retrieve.Scored>, i: nat)
    requires i < |docs|
    ensures Includes(Context(docs), Label(i) + docs[i].text)
  {
    ContextEntryAt(docs, i);
    var before := if i == 0 then "" else Context(docs[..i]) + Separator;
    var entry := Label(i) + docs[i].text;
    var c := Context(docs);
    assert c[..|before + entry|] == before + entry;
    assert c[|before|..|before| + |entry|] == (before + entry)[|before|..];
    assert OccursAt(c, entry, |before|);
  }

  /** With no documents the context is empty: `<context>` is followed directly by `</context>`. */
  lemma EmptyContext(question: string)
    ensures Context([]) == ""
    ensures ConstructRAGPrompt([], question) ==
      (Instruction + ContextOpen + ContextClose) + (QuestionIntro + question + Separator + Closing)
  {
    assert Instruction + ContextOpen + Context([]) == Instruction + ContextOpen;
  }

  /**
   * Adding a document appends its labelled entry, numbered one past the documents
   * before it, after a blank line when there were any.
   */
  lemma ContextSnoc(docs: seq<Retrieve.Scored>, d: Retrieve.Scored)
    ensures Context(docs + [d]) ==
      (if docs == [] then "" else Context(docs) + Separator) + Label(|docs|) + d.text
  {
    var es := Entries(docs + [d], 0);
    if docs != [] {
      assert es == Entries(docs, 0) + [Label(|docs|) + d.text];
      JoinAppend(Entries(docs, 0), [Label(|docs|) + d.text], Separator);
    } else {
      assert |es| == 1;
    }
  }

  /**
   * Document `i` appears as "[Document i+1]:\n" and its text right after the
   * context of the documents before it and a blank line (nothing when `i` is 0),
   * and the context up to and including it begins the whole context.
   */
  lemma ContextEntryAt(docs: seq<Retrieve.Scored>, i: nat)
    requires i < |docs|
    ensures StartsWith(Context(docs), (if i == 0 then "" else Context(docs[..i]) + Separator) + Label(i) + docs[i].text)
  {
    assert docs[..i + 1] == docs[..i] + [docs[i]];
    ContextSnoc(docs[..i], docs[i]);
    ContextPrefix(docs, i + 1);
  }

  /** The context of the first `n` documents begins the context of all of them. */
  lemma ContextPrefix(docs: seq<Retrieve.Scored>, n: nat)
    requires n <= |docs|
    ensures StartsWith(Context(docs), Context(docs[..n]))
  {
    if 0 < n < |docs| {
      var a, b := Entries(docs, 0)[..n], Entries(docs, 0)[n..];
      assert Entries(docs, 0) == a + b;
      assert a == Entries(docs[..n], 0);
      JoinAppend(a, b, Separator);
    } else if n == |docs| {
      assert docs[..n] == docs;
    }
  }

  /** The labels name distinct positions: a label determines its document's number. */
  lemma LabelsDistinct(i: nat, j: nat)
    requires Label(i) == Label(j)
    ensures i == j
  {
    var p := "[Document ";
    assert Label(i)[|p|..|Label(i)| - 3] == NatToString(i + 1);
    assert Label(j)[|p|..|Label(j)| - 3] == NatToString(j + 1);
    NatToStringInjective(i + 1, j + 1);
  }

  /**
   * The prompt is the instruction and the context up to the closing context tag,
   * followed by "Question: " (after a blank line), the question verbatim, a blank
   * line and the closing request.
   */
  lemma PromptLayout(docs: seq<Retrieve.Scored>, question: string)
    ensures StartsWith(ConstructRAGPrompt(docs, question), Instruction + ContextOpen + Context(docs) + ContextClose)
    ensures EndsWith(ConstructRAGPrompt(docs, question), QuestionIntro + question + Separator + Closing)
    ensures |ConstructRAGPrompt(docs, question)| ==
      |Instruction + ContextOpen + Context(docs) + ContextClose| + |QuestionIntro + question + Separator + Closing|
  {
    Concat(Instruction + ContextOpen + Context(docs) + ContextClose, QuestionIntro + question + Separator + Closing);
  }

  // ---------------------------------------------------------------------------
  // Calling the provider

  /** `callGroq`'s catch block: connection-like messages become one fixed error. */
  function GroqErrorMessage(message: string): (r: string)
    ensures (Includes(message, "connect") || Includes(message, "network")) ==> r == GroqConnectionError
    ensures !(Includes(message, "connect") || Includes(message, "network")) ==> r == GroqFailedPrefix + message
  {
    if Includes(message, "connect") || Includes(message, "network") then GroqConnectionError
    else GroqFailedPrefix + message
  }

  /** The connection error is returned exactly for messages mentioning "connect" or "network". */
  lemma GroqErrorIff(message: string)
    ensures GroqErrorMessage(message) == GroqConnectionError <==>
      Includes(message, "connect") || Includes(message, "network")
    ensures GroqErrorMessage(message) != GroqConnectionError ==>
      GroqErrorMessage(message)[|GroqFailedPrefix|..] == message
  {
    var r := GroqFailedPrefix + message;
    assert GroqFailedPrefix[0] == 'G';
    assert GroqConnectionError[0] == 'F';
    assert r[0] == GroqFailedPrefix[0];
  }

  /** `callOpenAI`: the completion text, or the SDK's error message behind a fixed prefix. */
  function CallOpenAI(api: Completion, prompt: string): (r: Result<string>)
    ensures api(prompt).Ok? <==> r.Ok?
    ensures r.Ok? ==> r.value == api(prompt).value
    ensures r.Err? ==> r.message == OpenAIFailedPrefix + api(prompt).message
  {
    match api(prompt)
    case Ok(text) => Ok(text)
    case Err(m) => Err(OpenAIFailedPrefix + m)
  }

  /** `callGroq`: the completion text, or the SDK's error message mapped by `GroqErrorMessage`. */
  function CallGroq(api: Completion, prompt: string): (r: Result<string>)
    ensures api(prompt).Ok? <==> r.Ok?
    ensures r.Ok? ==> r.value == api(prompt).value
    ensures r.Err? ==> r.message == GroqErrorMessage(api(prompt).message)
  {
    match api(prompt)
    case Ok(text) => Ok(text)
    case Err(m) => Err(GroqErrorMessage(m))
  }

  /** The error `generateAnswer` raises before any request when the configuration cannot serve it. */
  function ConfigError(cfg: Config): (e: string)
    ensures cfg.provider == "openai" ==> e == OpenAINotInitialized
    ensures cfg.provider == "groq" ==> e == GroqNotInitialized
    ensures cfg.provider != "openai" && cfg.provider != "groq" ==> e == UnsupportedPrefix + cfg.provider
  {
    match ProviderOf(cfg.provider)
    case OpenAI => OpenAINotInitialized
    case Groq => GroqNotInitialized
    case Unsupported(name) => UnsupportedPrefix + name
  }

  /** `generateAnswer(retrievedDocs, question)`: builds the prompt and sends it to the selected provider. */
  function GenerateAnswer(cfg: Config, docs: seq<Retrieve.Scored>, question: string, apis: Apis): (r: Result<string>)
    ensures ProviderOf(cfg.provider) == OpenAI && cfg.openaiClient.None? ==> r == Err(OpenAINotInitialized)
    ensures ProviderOf(cfg.provider) == Groq && cfg.groqClient.None? ==> r == Err(GroqNotInitialized)
    ensures ProviderOf(cfg.provider).Unsupported? ==> r == Err(UnsupportedPrefix + cfg.provider)
    ensures IsLLMConfigured(cfg) && cfg.provider == "openai" ==> r == CallOpenAI(apis.openai, ConstructRAGPrompt(docs, question))
    ensures IsLLMConfigured(cfg) && cfg.provider == "groq" ==> r == CallGroq(apis.groq, ConstructRAGPrompt(docs, question))
  {
    var prompt := ConstructRAGPrompt(docs, question);
    match ProviderOf(cfg.provider)
    case OpenAI =>
      if cfg.openaiClient.None? then Err(OpenAINotInitialized) else CallOpenAI(apis.openai, prompt)
    case Groq =>
      if cfg.groqClient.None? then Err(GroqNotInitialized) else CallGroq(apis.groq, prompt)
    case Unsupported(name) => Err(UnsupportedPrefix + name)
  }

  /**
   * When the configuration is not usable, generation fails with the configuration
   * error and no provider is asked: the outcome is the same whatever the providers would reply.
   */
  lemma UnconfiguredNeverCalls(cfg: Config, docs: seq<Retrieve.Scored>, question: string, apis1: Apis, apis2: Apis)
    requires !IsLLMConfigured(cfg)
    ensures GenerateAnswer(cfg, docs, question, apis1) == Err(ConfigError(cfg))
    ensures GenerateAnswer(cfg, docs, question, apis1) == GenerateAnswer(cfg, docs, question, apis2)
  {
  }

  /** When configured, exactly the selected provider is asked, with exactly the built prompt. */
  lemma ConfiguredAsksSelected(cfg: Config, docs: seq<Retrieve.Scored>, question: string, apis1: Apis, apis2: Apis)
    requires IsLLMConfigured(cfg)
    requires cfg.provider == "openai" ==> apis1.openai(ConstructRAGPrompt(docs, question)) == apis2.openai(ConstructRAGPrompt(docs, question))
    requires cfg.provider == "groq" ==> apis1.groq(ConstructRAGPrompt(docs, question)) == apis2.groq(ConstructRAGPrompt(docs, question))
    ensures GenerateAnswer(cfg, docs, question, apis1) == GenerateAnswer(cfg, docs, question, apis2)
  {
  }
}
