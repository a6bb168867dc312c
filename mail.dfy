/** What the two copies of `sendEmail` share: the options a caller passes, the message
    handed to the transport, the outcome of one attempt, and the result of a whole
    dispatch. The SMTP transport is an oracle: `Transport(k)` is what happens on attempt
    `k` (counting from 0): building and verifying a fresh transporter fails, sending
    fails, or the message is delivered. */
module Mail {
  import opened UserModel
  import opened Text

  /** An HTML body: which template the caller filled in, with the values it interpolates.
      The markup around them is presentation and is not modelled. */
  datatype Html =
    | PaymentConfirmedHtml(name: string, plan: Plan, startDate: Millis, endDate: Millis)
    | RenewalNoticeHtml(name: string, plan: Plan, startDate: Millis, endDate: Millis)
    | MembershipExpiredHtml(name: string, endDate: Millis)
    | ExpiringSoonHtml(name: string, daysLeft: int, endDate: Millis)

  /** The `options` object: `email`, `subject`, `html`, and the `template` key that the
      registration handler passes but that no copy of `sendEmail` reads. */
  datatype EmailOptions = EmailOptions(email: string, subject: string, html: Option<Html>, template: Option<string>)

  /** `mailOptions` as far as the transport sees the caller's data. */
  datatype MailMessage = MailMessage(to: string, subject: string, html: Option<Html>)

  /** One call of `sendEmail` as it is logged by the model: the message and what became of it. */
  datatype Dispatch = Dispatch(mail: MailMessage, result: DispatchResult)

  /** The `info` object a successful `sendMail` resolves to. */
  datatype SendInfo = SendInfo(messageId: string)

  datatype AttemptOutcome =
    | VerifyFailed(message: string)   // createTransporter: `verify()` rejected
    | SendFailed(message: string)     // `sendMail` rejected
    | Delivered(info: SendInfo)

  type Transport = nat -> AttemptOutcome

  /** What `sendEmail` resolves to, or the error it throws once attempts run out. */
  datatype DispatchResult = Sent(info: SendInfo) | FailedAfterRetries(message: string)

  const MaxAttempts: nat := 3

  /** `mailOptions`: recipient, subject and body are copied unchanged from the options. */
  function BuildMail(options: EmailOptions): (m: MailMessage)
    ensures m.to == options.email && m.subject == options.subject && m.html == options.html
  {
    MailMessage(options.email, options.subject, options.html)
  }

  /** The body of the message does not depend on the `template` key: a caller that passes
      a template and no `html` sends a message with no body. */
  lemma TemplateIgnored(options: EmailOptions, t: Option<string>)
    ensures BuildMail(options.(template := t)) == BuildMail(options)
    ensures options.html.None? ==> BuildMail(options).html.None?
  {
  }

  /** The `error.message` of a failed attempt. */
  function FailureMessage(o: AttemptOutcome): string
    requires !o.Delivered?
  {
    match o
    case VerifyFailed(msg) => msg
    case SendFailed(msg) => msg
  }

  /** What a dispatch through `transport` comes to, read front to back: the first of the
      three attempts that delivers, or, when none does, the error built from the third
      attempt's failure. */
  function DispatchOutcome(transport: Transport): DispatchResult {
    if transport(0).Delivered? then Sent(transport(0).info)
    else if transport(1).Delivered? then Sent(transport(1).info)
    else if transport(2).Delivered? then Sent(transport(2).info)
    else FailedAfterRetries(TerminalMessage(FailureMessage(transport(2))))
  }

  /** A dispatch succeeds exactly when one of the three attempts delivers. */
  lemma DispatchOutcomeSent(transport: Transport)
    ensures DispatchOutcome(transport).Sent? <==> exists k :: 0 <= k < MaxAttempts && transport(k).Delivered?
  {
    if exists k :: 0 <= k < MaxAttempts && transport(k).Delivered? {
      var k :| 0 <= k < MaxAttempts && transport(k).Delivered?;
      assert k == 0 || k == 1 || k == 2;
    }
  }

  /** The error thrown after the last failure. */
  function TerminalMessage(last: string): (r: string)
    ensures StartsWith(r, "Failed to send email after 3 attempts: ")
    ensures r[|"Failed to send email after 3 attempts: "|..] == last
  {
    "Failed to send email after " + NatToString(MaxAttempts) + " attempts: " + last
  }

  function Pow2(e: nat): (r: nat)
    ensures r >= 1
  {
    if e == 0 then 1 else 2 * Pow2(e - 1)
  }
}
