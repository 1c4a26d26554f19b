/** The single-recipient send route: validation, configuration check, message assembly and error mapping. */
module SendNewsletter {
  import opened Wrappers
  import opened Strings
  import opened Http
  import MimeMessage

  /** The fields of the request's JSON body. */
  datatype SendRequest = SendRequest(to: Option<string>, subject: Option<string>, htmlContent: Option<string>)

  /** The response, and the `raw` string submitted to Gmail if the route got that far. */
  datatype Outcome = Outcome(response: Response, submitted: Option<string>)

  const MissingFieldsMessage := "Recipient, subject, and HTML content are required."
  const SentMessage := "Email sent successfully!"
  const FallbackErrorMessage := "An unexpected error occurred while sending the email."

  /** The `catch` clause: a 401 code or an 'Invalid Credentials' message is an authentication failure, anything else is 500. */
  function ErrorResponse(e: Thrown): (r: Response)
    ensures r.status == 401 <==> e.code == Some(401) || MessageIncludes(e, "Invalid Credentials")
    ensures r.status == 401 ==> r.body == ErrorBody(GmailAuthFailedMessage)
    ensures r.status != 401 ==> r.status == 500 && r.body == ErrorBody(OrElse(e.message, FallbackErrorMessage))
  {
    if e.code == Some(401) || MessageIncludes(e, "Invalid Credentials") then
      Response(401, ErrorBody(GmailAuthFailedMessage))
    else
      Response(500, ErrorBody(OrElse(e.message, FallbackErrorMessage)))
  }

  /**
   * `POST`. `request` is what `request.json()` yields or throws; `delivery` is
   * what the Gmail call does with the message.
   */
  function Post(request: Result<SendRequest, Thrown>, cfg: GmailConfig, delivery: Delivery): (o: Outcome)
    ensures request.Failure? ==> o == Outcome(ErrorResponse(request.error), None)
    ensures request.Success? && !(Truthy(request.value.to) && Truthy(request.value.subject) && Truthy(request.value.htmlContent))
            ==> o == Outcome(Response(400, ErrorBody(MissingFieldsMessage)), None)
    ensures request.Success? && Truthy(request.value.to) && Truthy(request.value.subject) && Truthy(request.value.htmlContent)
            && !Configured(cfg)
            ==> o == Outcome(Response(500, ErrorBody(MissingCredentialsMessage)), None)
    ensures o.submitted.Some? <==>
            request.Success? && Truthy(request.value.to) && Truthy(request.value.subject) && Truthy(request.value.htmlContent)
            && Configured(cfg)
    ensures o.submitted.Some? ==>
            o.submitted.value == MimeMessage.Raw(request.value.to.value, request.value.subject.value, request.value.htmlContent.value)
            && o.response == (if delivery.Delivered? then Response(200, MessageBody(SentMessage)) else ErrorResponse(delivery.error))
  {
    match request
    case Failure(e) => Outcome(ErrorResponse(e), None)
    case Success(req) =>
      if !(Truthy(req.to) && Truthy(req.subject) && Truthy(req.htmlContent)) then
        Outcome(Response(400, ErrorBody(MissingFieldsMessage)), None)
      else if !Configured(cfg) then
        Outcome(Response(500, ErrorBody(MissingCredentialsMessage)), None)
      else
        var raw := MimeMessage.Raw(req.to.value, req.subject.value, req.htmlContent.value);
        match delivery
        case Delivered => Outcome(Response(200, MessageBody(SentMessage)), Some(raw))
        case Rejected(e) => Outcome(ErrorResponse(e), Some(raw))
  }

  /** A request that reaches Gmail submits a message that decodes to its own recipient, subject and HTML body. */
  lemma {:induction false} SubmittedMessageDecodes(request: Result<SendRequest, Thrown>, cfg: GmailConfig, delivery: Delivery)
    requires Post(request, cfg, delivery).submitted.Some?
    requires '\n' !in request.value.to.value && '\n' !in request.value.subject.value
    ensures MimeMessage.Recover(Post(request, cfg, delivery).submitted.value)
            == Some(MimeMessage.Fields(request.value.to.value, request.value.subject.value, request.value.htmlContent.value))
  {
    MimeMessage.RecoverRaw(request.value.to.value, request.value.subject.value, request.value.htmlContent.value);
  }
}
