/** The compliance-check route: `POST` validates the request, asks the
    primary provider (Gemini) for a verdict, falls back to the secondary
    provider (Ollama) only when the primary call throws, turns unparseable
    replies into a non-compliant verdict, normalises the reason, and maps
    each failure to a fixed status and a non-compliant verdict.

    The language models, the HTTP layer and `JSON.parse` are outside the
    model: a provider is a function from the content to check to what its
    call came to, and the JSON parser is a function from reply text to an
    optional verdict object. */
module ComplianceRoute {
  import opened Optional
  import opened JsString

  /** What a provider call came to: it threw (network, quota, SDK error)
      or it returned the reply text. */
  datatype ProviderOutcome = Threw | Returned(text: string)

  /** A verdict object as a provider reply parses to: `reason` is `None`
      when the field is missing or null. */
  datatype Reply = Reply(isCompliant: bool, reason: Option<string>)

  /** What a `checkComplianceWith…` function came to. */
  datatype CheckOutcome = CheckThrew | Checked(reply: Reply)

  datatype Provider = Gemini | Ollama

  /** One provider consulted, with the content it was asked about. */
  datatype Call = Call(provider: Provider, content: string)

  /** The `content` field of the request body: absent (or null), a value
      of another type together with its JavaScript truthiness, or a
      string. */
  datatype ContentField = Absent | NotString(truthy: bool) | Text(s: string)

  /** JavaScript truthiness of the field: the empty string is falsy. */
  predicate IsTruthy(c: ContentField) {
    match c
    case Absent => false
    case NotString(truthy) => truthy
    case Text(s) => s != ""
  }

  /** The request body: unreadable (not JSON, or JSON null, so that the
      destructuring throws), or a JSON object with its `content` field. */
  datatype RequestBody = Unreadable | Json(content: ContentField)

  datatype ResponseBody =
    | ErrorBody(error: string)
    | VerdictBody(isCompliant: bool, reason: string)
    | FailureBody(error: string, isCompliant: bool, reason: string)

  datatype Response = Response(status: nat, body: ResponseBody)

  const ManualReviewReason := "Unable to verify compliance - please review content manually"
  const TechnicalIssuesReason := "Unable to verify compliance due to technical issues. Please review content manually."
  const TechnicalErrorReason := "Technical error occurred during compliance check"
  const ContentRequiredError := "Content is required and must be a string"
  const CheckFailedError := "Failed to check compliance"

  /** The parse-or-default step shared by both provider functions: the
      trimmed reply text is parsed, and a reply that does not parse becomes
      the non-compliant manual-review verdict instead of an error. A
      compliant verdict therefore always comes from a reply that parsed to
      a compliant object. */
  function ParseOrDefault(parse: string -> Option<Reply>, text: string): (r: Reply)
    ensures parse(Trim(text)).Some? ==> r == parse(Trim(text)).value
    ensures parse(Trim(text)).None? ==> r == Reply(false, Some(ManualReviewReason))
    ensures r.isCompliant ==> parse(Trim(text)).Some? && parse(Trim(text)).value.isCompliant
  {
    match parse(Trim(text))
    case Some(reply) => reply
    case None => Reply(false, Some(ManualReviewReason))
  }

  /** `checkComplianceWithGemini` / `checkComplianceWithOllama`: a throwing
      provider call makes the check throw; a returned reply is parsed or
      defaulted and never throws. */
  function CheckWithProvider(outcome: ProviderOutcome, parse: string -> Option<Reply>): (r: CheckOutcome)
    ensures r.CheckThrew? <==> outcome.Threw?
    ensures r.Checked? ==> r.reply == ParseOrDefault(parse, outcome.text)
  {
    match outcome
    case Threw => CheckThrew
    case Returned(text) => Checked(ParseOrDefault(parse, text))
  }

  /** `reason || ''`: a present reason is kept, a missing one becomes the
      empty string, and the result is empty exactly when the reason was
      missing or empty. */
  function NormalizeReason(reason: Option<string>): (r: string)
    ensures reason.Some? ==> r == reason.value
    ensures r == "" <==> reason.None? || reason.value == ""
  {
    reason.GetOr("")
  }

  /** The request passes the check `!content || typeof content !== 'string'`
      exactly when it carries a non-empty string `content`. */
  predicate IsValidContent(body: RequestBody)
    ensures IsValidContent(body) <==> body.Json? && body.content.Text? && body.content.s != ""
  {
    body.Json? && !(!IsTruthy(body.content) || !body.content.Text?)
  }

  /** The response reports the content as compliant. */
  predicate ReportsCompliant(resp: Response) {
    (resp.body.VerdictBody? && resp.body.isCompliant)
    || (resp.body.FailureBody? && resp.body.isCompliant)
  }

  /** `provider` returned a reply for `content` that parses to a compliant
      verdict. */
  ghost predicate VouchedCompliant(provider: string -> ProviderOutcome, content: string, parse: string -> Option<Reply>) {
    provider(content).Returned?
    && parse(Trim(provider(content).text)).Some?
    && parse(Trim(provider(content).text)).value.isCompliant
  }

  /** The verdict response for a check that succeeded. */
  function VerdictResponse(reply: Reply): Response {
    Response(200, VerdictBody(reply.isCompliant, NormalizeReason(reply.reason)))
  }

  /** `POST /api/social/compliance`. Besides the response it returns the
      providers it consulted, in order, each with the content it was given.
      - An unreadable body gives status 500 with a non-compliant body, and
        a missing, empty or non-string `content` gives status 400; in both
        cases no provider is consulted.
      - Otherwise the primary is consulted with the content; the secondary
        is consulted, with the same content, exactly when the primary call
        threw. A primary reply that does not parse does not fall back.
      - When both calls throw, the answer is non-compliant with the
        technical-issues reason and the default status 200.
      - Otherwise the answer carries the provider's verdict, with its reason
        normalised.
      - Fail-safe: the answer is compliant only if a consulted provider
        returned a reply that parsed to a compliant verdict. */
  method Post(body: RequestBody, gemini: string -> ProviderOutcome, ollama: string -> ProviderOutcome,
              parse: string -> Option<Reply>)
    returns (resp: Response, consulted: seq<Call>)
    ensures body.Unreadable? ==>
      resp == Response(500, FailureBody(CheckFailedError, false, TechnicalErrorReason)) && consulted == []
    ensures body.Json? && !IsValidContent(body) ==>
      resp == Response(400, ErrorBody(ContentRequiredError)) && consulted == []
    ensures IsValidContent(body) ==>
      var content := body.content.s;
      && resp.status == 200
      && |consulted| >= 1 && consulted[0] == Call(Gemini, content)
      && (gemini(content).Returned? ==>
            consulted == [Call(Gemini, content)]
            && resp == VerdictResponse(ParseOrDefault(parse, gemini(content).text)))
      && (gemini(content).Threw? ==>
            consulted == [Call(Gemini, content), Call(Ollama, content)]
            && (ollama(content).Threw? ==> resp == Response(200, VerdictBody(false, TechnicalIssuesReason)))
            && (ollama(content).Returned? ==>
                  resp == VerdictResponse(ParseOrDefault(parse, ollama(content).text))))
    ensures ReportsCompliant(resp) ==>
      IsValidContent(body)
      && (VouchedCompliant(gemini, body.content.s, parse)
          || (gemini(body.content.s).Threw? && VouchedCompliant(ollama, body.content.s, parse)))
  {
    if body.Unreadable? {
      return Response(500, FailureBody(CheckFailedError, false, TechnicalErrorReason)), [];
    }
    if !IsValidContent(body) {
      return Response(400, ErrorBody(ContentRequiredError)), [];
    }
    var content := body.content.s;

    var complianceResult: Option<Reply> := None;
    consulted := [Call(Gemini, content)];
    var primary := CheckWithProvider(gemini(content), parse);
    if primary.Checked? {
      complianceResult := Some(primary.reply);
    } else {
      consulted := consulted + [Call(Ollama, content)];
      var secondary := CheckWithProvider(ollama(content), parse);
      if secondary.CheckThrew? {
        return Response(200, VerdictBody(false, TechnicalIssuesReason)), consulted;
      }
      complianceResult := Some(secondary.reply);
    }
    resp := VerdictResponse(complianceResult.value);
  }
}
