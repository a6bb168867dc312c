/** `sendEmail` of services/emailService.js, the copy the controllers and the expiration
    pass use: up to three attempts, each with a freshly built and verified transporter,
    returning the first delivery and waiting `1000 * attempts` ms after each failure but
    the last. The waits are returned as values instead of being slept. */
module EmailService {
  import opened UserModel
  import opened Mail

  /** The wait after failure number `attempts`. */
  function RetryDelay(attempts: nat): nat {
    1000 * attempts
  }

  method SendEmail(options: EmailOptions, transport: Transport)
    returns (attempts: nat, delays: seq<nat>, mail: MailMessage, result: DispatchResult)
    ensures 1 <= attempts <= MaxAttempts
    ensures mail.to == options.email && mail.subject == options.subject && mail.html == options.html
    ensures forall k :: 0 <= k < attempts - 1 ==> !transport(k).Delivered?
    ensures result.Sent? <==> transport(attempts - 1).Delivered?
    ensures result.Sent? <==> exists k :: 0 <= k < MaxAttempts && transport(k).Delivered?
    ensures result.Sent? ==> result.info == transport(attempts - 1).info
    ensures result.FailedAfterRetries? ==>
      && attempts == MaxAttempts
      && result.message == TerminalMessage(FailureMessage(transport(MaxAttempts - 1)))
    ensures |delays| == attempts - 1
    ensures forall k :: 0 <= k < |delays| ==> delays[k] == 1000 * (k + 1)
    ensures result.FailedAfterRetries? ==> delays == [1000, 2000]
    ensures result == DispatchOutcome(transport)
  {
    attempts, delays := 0, [];
    mail := BuildMail(options);
    result := FailedAfterRetries("");
    var finished := false;
    while attempts < MaxAttempts && !finished
      invariant 0 <= attempts <= MaxAttempts
      invariant attempts == MaxAttempts ==> finished
      invariant finished ==> 1 <= attempts
      invariant forall k :: 0 <= k < attempts - 1 ==> !transport(k).Delivered?
      invariant !finished ==> forall k :: 0 <= k < attempts ==> !transport(k).Delivered?
      invariant !finished ==> |delays| == attempts
      invariant finished ==> |delays| == attempts - 1
      invariant finished ==> (result.Sent? <==> transport(attempts - 1).Delivered?)
      invariant finished && result.Sent? ==> result.info == transport(attempts - 1).info
      invariant finished && result.FailedAfterRetries? ==>
        attempts == MaxAttempts && result.message == TerminalMessage(FailureMessage(transport(MaxAttempts - 1)))
      invariant forall k :: 0 <= k < |delays| ==> delays[k] == RetryDelay(k + 1)
    {
      attempts := attempts + 1;
      var outcome := transport(attempts - 1);
      if outcome.Delivered? {
        result := Sent(outcome.info);
        finished := true;
      } else if attempts == MaxAttempts {
        result := FailedAfterRetries(TerminalMessage(FailureMessage(outcome)));
        finished := true;
      } else {
        delays := delays + [RetryDelay(attempts)];
      }
    }
  }

  /** A transport that fails twice and then delivers gives a delivery on the third attempt,
      after waits of 1000 and 2000 ms. */
  method FailTwiceThenDeliver(options: EmailOptions, info: SendInfo)
    returns (attempts: nat, delays: seq<nat>, result: DispatchResult)
    ensures attempts == 3 && delays == [1000, 2000] && result == Sent(info)
  {
    var transport: Transport := k => if k < 2 then SendFailed("timeout") else Delivered(info);
    var mail;
    attempts, delays, mail, result := SendEmail(options, transport);
  }
}
