/**
 * The string policies of the client for the local model server: what text is
 * sent for embedding, what a failed embedding call yields, how summary and
 * answer prompts are chosen and clipped, and how a summary is post-processed.
 * The HTTP calls themselves are oracles: a service maps the request that the
 * client would send to the reply it gets back.
 */
module LlmClient {
  import opened Wrappers
  import opened Text

  /** Stand-in text for an empty or whitespace-only document. */
  const EmptySentinel: string := "empty document"
  /** At most this many characters are sent to the embedding endpoint. */
  const EmbeddingCharLimit: nat := 10000
  /** Length of the all-zero vector returned when the embedding call fails. */
  const FallbackDimension: nat := 768
  /** At most this many characters of a document go into a summary prompt. */
  const SummaryContentLimit: nat := 3000
  /** At most this many characters of context go into a question prompt. */
  const AnswerContextLimit: nat := 4000

  const SummaryFailedMessage: string := "Summary generation failed."
  const SummaryErrorMessage: string := "Error generating summary."
  const AnswerFailedMessage: string := "Failed to answer question."
  const AnswerErrorMessage: string := "Error processing your question."

  /** What `get_embedding` hands back: a list of numbers, or some other JSON value. */
  datatype Embedding = Vector(values: seq<real>) | NotAVector

  /**
   * The body of an answer from `/embeddings`: a JSON object that may or may not
   * hold an "embedding" member, or a body that `.json()` or `.get` cannot read.
   */
  datatype EmbeddingBody = EmbeddingFields(embedding: Option<Embedding>) | UnreadableEmbeddingBody

  datatype EmbeddingReply =
    | EmbeddingResponse(status: int, body: EmbeddingBody)
    | EmbeddingCallRaised

  /** The embedding endpoint, as a function of the text actually sent to it. */
  type EmbeddingService = string -> EmbeddingReply

  function Zeros(n: nat): (z: seq<real>)
    ensures |z| == n
    ensures forall i | 0 <= i < n :: z[i] == 0.0
  {
    seq(n, _ => 0.0)
  }

  /** The text `get_embedding` sends: the sentinel for blank input, and never more than the limit. */
  function EmbeddingText(text: string): (sent: string)
    ensures |sent| <= EmbeddingCharLimit
    ensures IsBlank(text) ==> sent == EmptySentinel
    ensures !IsBlank(text) ==> sent <= text && |sent| == if |text| < EmbeddingCharLimit then |text| else EmbeddingCharLimit
  {
    var cleaned := if IsBlank(text) then EmptySentinel else text;
    Slice(cleaned, EmbeddingCharLimit)
  }

  /** How `get_embedding` reads a reply: soft failure is the 768-zero vector. */
  function EmbeddingFromReply(reply: EmbeddingReply): Embedding {
    match reply
    case EmbeddingCallRaised => Vector(Zeros(FallbackDimension))
    case EmbeddingResponse(status, body) =>
      if status != 200 then Vector(Zeros(FallbackDimension))
      else match body
        case UnreadableEmbeddingBody => Vector(Zeros(FallbackDimension))
        case EmbeddingFields(e) => e.GetOr(Vector([]))
  }

  /** `get_embedding(text)` against a given embedding service. */
  function GetEmbedding(text: string, service: EmbeddingService): Embedding {
    EmbeddingFromReply(service(EmbeddingText(text)))
  }

  /** Every failed call, whatever the text, yields exactly 768 zeros. */
  lemma FailedCallYieldsZeroVector(text: string, service: EmbeddingService)
    requires service(EmbeddingText(text)).EmbeddingCallRaised?
          || service(EmbeddingText(text)).status != 200
          || service(EmbeddingText(text)).body.UnreadableEmbeddingBody?
    ensures GetEmbedding(text, service).Vector?
    ensures |GetEmbedding(text, service).values| == FallbackDimension
    ensures forall i | 0 <= i < FallbackDimension :: GetEmbedding(text, service).values[i] == 0.0
  {
    var reply := service(EmbeddingText(text));
    assert GetEmbedding(text, service) == EmbeddingFromReply(reply);
    assert EmbeddingFromReply(reply) == Vector(Zeros(FallbackDimension));
  }

  /** A successful reply without an "embedding" member yields the empty list, not the fallback. */
  lemma MissingEmbeddingYieldsEmptyList(text: string, service: EmbeddingService)
    requires service(EmbeddingText(text)) == EmbeddingResponse(200, EmbeddingFields(None))
    ensures GetEmbedding(text, service) == Vector([])
  {
  }

  /**
   * Two texts that agree on their first 10 000 characters get the same embedding,
   * and so do any two blank texts: the rest of a long document is never seen.
   */
  lemma EmbeddingSeesOnlyTheSentPrefix(a: string, b: string, service: EmbeddingService)
    requires (IsBlank(a) && IsBlank(b))
          || (!IsBlank(a) && !IsBlank(b) && Slice(a, EmbeddingCharLimit) == Slice(b, EmbeddingCharLimit))
    ensures GetEmbedding(a, service) == GetEmbedding(b, service)
  {
  }

  /** The requested `max_tokens` of a summary: `max(100, max_length // 3)`. */
  function SummaryMaxTokens(maxLength: int): (tokens: int)
    ensures tokens >= 100
    ensures tokens == 100 <==> maxLength < 303
    ensures tokens > 100 ==> 3 * tokens <= maxLength < 3 * tokens + 3
  {
    var third := maxLength / 3;  // Euclidean division by 3 is Python's floor division
    if third > 100 then third else 100
  }

  /** The prompts the client writes; the fixed wording around the fields is not modelled. */
  datatype Prompt =
    | QueryFocusedSummary(query: string, filePath: string, excerpt: string, maxLength: int)
    | DocumentSummary(filePath: string, excerpt: string, maxLength: int)
    | QuestionAnswer(question: string, excerpt: string)

  datatype GenerateRequest = GenerateRequest(prompt: Prompt, temperature: real, topP: real, maxTokens: int)

  /** The body of a 200 answer from `/generate`; unreadable covers a non-string "response" too. */
  datatype GenerateBody = GenerateFields(response: Option<string>) | UnreadableGenerateBody

  datatype GenerateReply =
    | GenerateResponse(status: int, body: GenerateBody)
    | GenerateCallRaised

  /** The generation endpoint, as a function of the request sent to it. */
  type GenerateService = GenerateRequest -> GenerateReply

  /** Python truthiness of the optional `query_context`. */
  predicate Truthy(s: Option<string>) {
    s.Some? && s.value != ""
  }

  /** The request `generate_summary` sends. */
  function SummaryRequest(filePath: string, content: string, queryContext: Option<string>, maxLength: int): (req: GenerateRequest)
    ensures req.prompt.QueryFocusedSummary? <==> Truthy(queryContext)
    ensures req.prompt.QueryFocusedSummary? || req.prompt.DocumentSummary?
    ensures Truthy(queryContext) ==> req.prompt.query == queryContext.value
    ensures req.prompt.filePath == filePath && req.prompt.maxLength == maxLength
    ensures req.prompt.excerpt <= content
    ensures |req.prompt.excerpt| == if |content| < SummaryContentLimit then |content| else SummaryContentLimit
    ensures req.maxTokens == SummaryMaxTokens(maxLength)
  {
    var excerpt := Slice(content, SummaryContentLimit);
    var prompt :=
      if Truthy(queryContext) then QueryFocusedSummary(queryContext.value, filePath, excerpt, maxLength)
      else DocumentSummary(filePath, excerpt, maxLength);
    GenerateRequest(prompt, 0.1, 0.95, SummaryMaxTokens(maxLength))
  }

  /**
   * The clean-up of a generated summary: strip it, and when it is longer than
   * `maxLength` keep `summary[:maxLength-3]` followed by "...".
   */
  function ClipSummary(raw: string, maxLength: int): (summary: string)
    ensures |Strip(raw)| <= maxLength ==> summary == Strip(raw)
    ensures |Strip(raw)| > maxLength ==>
              EndsWith(summary, "...") && summary[..|summary| - 3] <= Strip(raw)
    ensures |Strip(raw)| > maxLength && maxLength >= 3 ==> |summary| == maxLength
    ensures |Strip(raw)| > maxLength && maxLength < 3 ==> |summary| > maxLength
  {
    var stripped := Strip(raw);
    if |stripped| > maxLength then Slice(stripped, maxLength - 3) + "..." else stripped
  }

  /** `generate_summary` against a given generation service. */
  function GenerateSummary(filePath: string, content: string, queryContext: Option<string>, maxLength: int,
                           service: GenerateService): string
  {
    match service(SummaryRequest(filePath, content, queryContext, maxLength))
    case GenerateCallRaised => SummaryErrorMessage
    case GenerateResponse(status, body) =>
      if status != 200 then SummaryFailedMessage
      else match body
        case UnreadableGenerateBody => SummaryErrorMessage
        case GenerateFields(response) => ClipSummary(response.GetOr(""), maxLength)
  }

  /** A summary is one of the two failure messages or fits in `maxLength` characters. */
  lemma SummaryFitsOrFails(filePath: string, content: string, queryContext: Option<string>, maxLength: int,
                           service: GenerateService)
    requires maxLength >= 3
    ensures var s := GenerateSummary(filePath, content, queryContext, maxLength, service);
            s == SummaryFailedMessage || s == SummaryErrorMessage || |s| <= maxLength
  {
  }

  /** The request `answer_question` sends. */
  function AnswerRequest(question: string, context: string): (req: GenerateRequest)
    ensures req.prompt.QuestionAnswer? && req.prompt.question == question
    ensures req.prompt.excerpt <= context
    ensures |req.prompt.excerpt| == if |context| < AnswerContextLimit then |context| else AnswerContextLimit
    ensures req.maxTokens == 500
  {
    GenerateRequest(QuestionAnswer(question, Slice(context, AnswerContextLimit)), 0.2, 0.95, 500)
  }

  /** `answer_question` against a given generation service. */
  function AnswerQuestion(question: string, context: string, service: GenerateService): (answer: string)
    ensures answer == AnswerFailedMessage || answer == AnswerErrorMessage || answer == Strip(answer)
    ensures var reply := service(AnswerRequest(question, context));
      && (reply.GenerateCallRaised? ==> answer == AnswerErrorMessage)
      && (reply.GenerateResponse? && reply.status != 200 ==> answer == AnswerFailedMessage)
      && (reply.GenerateResponse? && reply.status == 200 ==>
            match reply.body
            case UnreadableGenerateBody => answer == AnswerErrorMessage
            case GenerateFields(None) => answer == ""
            case GenerateFields(Some(text)) => answer == Strip(text))
  {
    match service(AnswerRequest(question, context))
    case GenerateCallRaised => AnswerErrorMessage
    case GenerateResponse(status, body) =>
      if status != 200 then AnswerFailedMessage
      else match body
        case UnreadableGenerateBody => AnswerErrorMessage
        case GenerateFields(response) => StripIdempotent(response.GetOr("")); Strip(response.GetOr(""))
  }
}
