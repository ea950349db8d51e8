/**
 * What the two email handlers share: the request fields, their validation, the email
 * handed to the delivery provider, and the shapes of the provider's answer and of the
 * HTTP reply. The provider call itself is not modelled: its outcome is a parameter.
 */
module EmailDispatch {
  import opened JsValues
  import EmailRender

  const Sender := "Happy New Year <gift@terrypmw.com>"
  const SubjectPrefix := "A Vintage Greeting Card from "
  const MissingFieldsMessage := "Missing required fields"

  /** The JSON body `{ toEmail, toName, fromName, message, image }`; absent fields are None. */
  datatype Fields = Fields(toEmail: Option<string>, toName: Option<string>, fromName: Option<string>,
                           message: Option<string>, image: Option<string>)

  /** `toEmail && toName && fromName && message && image`. */
  predicate HasRequiredFields(f: Fields)
  {
    Truthy(f.toEmail) && Truthy(f.toName) && Truthy(f.fromName) && Truthy(f.message) && Truthy(f.image)
  }

  /** The argument of `resend.emails.send`. */
  datatype OutboundEmail = OutboundEmail(from: string, to: seq<string>, subject: string, html: string,
                                         attachments: seq<EmailRender.Attachment>)

  /** The provider's resolved answer: its data, and the message of its `error` object when it has one. */
  datatype ProviderReply = ProviderReply(data: Option<string>, error: Option<string>)

  /** What `await resend.emails.send(...)` does: resolve with a reply, or throw. */
  datatype SendOutcome = Replied(reply: ProviderReply) | Threw(message: string)

  /** JSON bodies the handlers answer with. */
  datatype Body =
    | NoBody                                  // `res.status(200).end()`
    | ErrorBody(error: string)                // `{ error: … }`
    | Wrapped(success: bool, reply: ProviderReply)  // `{ success: true, data }`
    | Unwrapped(reply: ProviderReply)         // the provider's reply as is

  /** A handler's HTTP status and body, and the email it handed to the provider, if any. */
  datatype Handled = Handled(status: nat, body: Body, sent: Option<OutboundEmail>)

  /** The email both handlers send for a valid request. */
  function Compose(f: Fields, template: string): (m: OutboundEmail)
    requires HasRequiredFields(f)
    ensures m.from == Sender && m.to == [f.toEmail.value]
    ensures m.subject == SubjectPrefix + f.fromName.value
    ensures var r := EmailRender.Render(template, f.toName.value, f.fromName.value, f.message.value, f.image.value);
      m.html == r.html && m.attachments == r.attachments
  {
    var rendered := EmailRender.Render(template, f.toName.value, f.fromName.value, f.message.value, f.image.value);
    OutboundEmail(Sender, [f.toEmail.value], SubjectPrefix + f.fromName.value, rendered.html, rendered.attachments)
  }

  /** The success body: the standalone server wraps the reply, the serverless handler passes it through. */
  function SuccessBody(reply: ProviderReply, wrap: bool): Body
  {
    if wrap then Wrapped(true, reply) else Unwrapped(reply)
  }

  /** The HTTP status and body for the provider's outcome once the email has been handed over. */
  function Deliver(mail: OutboundEmail, outcome: SendOutcome, wrap: bool): (h: Handled)
    ensures h.sent == Some(mail)
    ensures h.status == 200 <==> outcome.Replied? && outcome.reply.error.None?
    ensures h.status != 200 ==> h.status == 500
    ensures outcome.Threw? ==> h.body == ErrorBody(outcome.message)
    ensures outcome.Replied? && outcome.reply.error.Some? ==> h.body == ErrorBody(outcome.reply.error.value)
    ensures h.status == 200 ==> h.body == SuccessBody(outcome.reply, wrap)
  {
    match outcome
    case Threw(msg) => Handled(500, ErrorBody(msg), Some(mail))
    case Replied(reply) =>
      if reply.error.Some? then Handled(500, ErrorBody(reply.error.value), Some(mail))
      else Handled(200, SuccessBody(reply, wrap), Some(mail))
  }
}
