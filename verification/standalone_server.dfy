/** The `POST /api/send-email` route of the standalone Express server. */
module StandaloneServer {
  import opened JsValues
  import opened EmailDispatch

  /**
   * The route body, given the parsed JSON fields, the result of reading `template.html`
   * and the provider's outcome for whatever email is handed to it.
   */
  function HandleSendEmail(body: Fields, templateFile: Result<string>, outcome: SendOutcome): (h: Handled)
    ensures !HasRequiredFields(body) <==> h.status == 400
    ensures !HasRequiredFields(body) ==> h.body == ErrorBody(MissingFieldsMessage) && h.sent.None?
    ensures HasRequiredFields(body) && templateFile.Err? ==> h == Handled(500, ErrorBody(templateFile.message), None)
    ensures h.sent.Some? <==> HasRequiredFields(body) && templateFile.Ok?
    ensures h.sent.Some? ==> h.sent.value == Compose(body, templateFile.value)
    ensures h.status == 200 <==>
              HasRequiredFields(body) && templateFile.Ok? && outcome.Replied? && outcome.reply.error.None?
    ensures h.status == 200 ==> h.body == Wrapped(true, outcome.reply)
    ensures h.sent.Some? && outcome.Threw? ==> h.body == ErrorBody(outcome.message)
    ensures h.sent.Some? && outcome.Replied? && outcome.reply.error.Some? ==> h.body == ErrorBody(outcome.reply.error.value)
    ensures h.status in {200, 400, 500}
  {
    if !HasRequiredFields(body) then Handled(400, ErrorBody(MissingFieldsMessage), None)
    else match templateFile
      case Err(msg) => Handled(500, ErrorBody(msg), None)
      case Ok(template) => Deliver(Compose(body, template), outcome, true)
  }
}
