/** The two email handlers side by side. */
module HandlerParity {
  import opened JsValues
  import opened EmailDispatch
  import StandaloneServer
  import ServerlessHandler

  /**
   * For a POST with the key configured and the same template text, both handlers send the
   * same email and answer with the same status and body, except that on success the
   * standalone server wraps the provider's reply in `{ success: true, data }`.
   */
  lemma {:induction false} SameOutcome(apiKey: Option<string>, body: Fields, template: string, outcome: SendOutcome)
    requires Truthy(apiKey)
    ensures var s := StandaloneServer.HandleSendEmail(body, Ok(template), outcome);
      var v := ServerlessHandler.Handler("POST", apiKey, body, template, outcome).handled;
      && s.sent == v.sent
      && s.status == v.status
      && (s.status != 200 ==> s.body == v.body)
      && (s.status == 200 ==> v.body.Unwrapped? && s.body == Wrapped(true, v.body.reply))
  {
  }

  /** The serverless handler checks its configuration before the body: a missing key wins over missing fields. */
  lemma {:induction false} ConfigBeforeValidation(apiKey: Option<string>, body: Fields, template: string, outcome: SendOutcome)
    requires !Truthy(apiKey)
    ensures ServerlessHandler.Handler("POST", apiKey, body, template, outcome).handled.status == 500
    ensures ServerlessHandler.Handler("POST", apiKey, body, template, outcome).handled.sent.None?
  {
  }

  /** Invalid fields are refused with 400 by both handlers and nothing is sent. */
  lemma {:induction false} BothRefuseMissingFields(apiKey: Option<string>, body: Fields, template: string, outcome: SendOutcome)
    requires Truthy(apiKey) && !HasRequiredFields(body)
    ensures StandaloneServer.HandleSendEmail(body, Ok(template), outcome) == Handled(400, ErrorBody(MissingFieldsMessage), None)
    ensures ServerlessHandler.Handler("POST", apiKey, body, template, outcome).handled ==
              Handled(400, ErrorBody(MissingFieldsMessage), None)
  {
  }
}
