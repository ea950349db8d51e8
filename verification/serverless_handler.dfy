/** The serverless `api/send-email` handler: CORS headers, method dispatch, configuration check, then the email. */
module ServerlessHandler {
  import opened JsValues
  import opened EmailDispatch

  const MethodNotAllowedMessage := "Method Not Allowed"
  const MissingKeyMessage := "Missing RESEND_API_KEY"

  /** The four CORS headers set before any branch is taken. */
  const CorsHeaders: seq<(string, string)> := [
    ("Access-Control-Allow-Credentials", "true"),
    ("Access-Control-Allow-Origin", "*"),
    ("Access-Control-Allow-Methods", "GET,OPTIONS,PATCH,DELETE,POST,PUT"),
    ("Access-Control-Allow-Headers",
     "X-CSRF-Token, X-Requested-With, Accept, Accept-Version, Content-Length, Content-MD5, Content-Type, Date, X-Api-Version")
  ]

  datatype Response = Response(headers: seq<(string, string)>, handled: Handled)

  /** The POST branch: configuration check, validation, then delivery. */
  function Post(apiKey: Option<string>, body: Fields, template: string, outcome: SendOutcome): (h: Handled)
    ensures !Truthy(apiKey) ==> h == Handled(500, ErrorBody(MissingKeyMessage), None)
    ensures Truthy(apiKey) && !HasRequiredFields(body) ==> h == Handled(400, ErrorBody(MissingFieldsMessage), None)
    ensures h.sent.Some? <==> Truthy(apiKey) && HasRequiredFields(body)
    ensures h.sent.Some? ==> h.sent.value == Compose(body, template)
    ensures h.status == 200 <==>
              Truthy(apiKey) && HasRequiredFields(body) && outcome.Replied? && outcome.reply.error.None?
    ensures h.status == 200 ==> h.body == Unwrapped(outcome.reply)
    ensures h.sent.Some? && outcome.Threw? ==> h.body == ErrorBody(outcome.message)
    ensures h.sent.Some? && outcome.Replied? && outcome.reply.error.Some? ==> h.body == ErrorBody(outcome.reply.error.value)
    ensures h.status in {200, 400, 500}
  {
    if !Truthy(apiKey) then Handled(500, ErrorBody(MissingKeyMessage), None)
    else if !HasRequiredFields(body) then Handled(400, ErrorBody(MissingFieldsMessage), None)
    else Deliver(Compose(body, template), outcome, false)
  }

  /** Everything after the headers: the method branches of `handler` in source order. */
  function Dispatch(verb: string, apiKey: Option<string>, body: Fields, template: string,
                    outcome: SendOutcome): (h: Handled)
    ensures verb == "OPTIONS" ==> h == Handled(200, NoBody, None)
    ensures verb != "OPTIONS" && verb != "POST" ==> h == Handled(405, ErrorBody(MethodNotAllowedMessage), None)
    ensures verb == "POST" ==> h == Post(apiKey, body, template, outcome)
  {
    if verb == "OPTIONS" then Handled(200, NoBody, None)
    else if verb != "POST" then Handled(405, ErrorBody(MethodNotAllowedMessage), None)
    else Post(apiKey, body, template, outcome)
  }

  /**
   * `handler(req, res)` with the request method and JSON fields, the `RESEND_API_KEY`
   * setting, the bundled template and the provider's outcome.
   */
  function Handler(verb: string, apiKey: Option<string>, body: Fields, template: string,
                   outcome: SendOutcome): (r: Response)
    ensures r.headers == CorsHeaders
    ensures r.handled == Dispatch(verb, apiKey, body, template, outcome)
  {
    Response(CorsHeaders, Dispatch(verb, apiKey, body, template, outcome))
  }
}
