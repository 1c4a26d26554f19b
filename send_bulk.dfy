/**
 * The bulk send route: the request ladder, one rendering of the newsletter,
 * and the loop that mails it to every active subscriber and tallies the outcome.
 */
module SendBulk {
  import opened Wrappers
  import opened Strings
  import opened Http
  import opened Newsletter
  import HtmlRenderer
  import MimeMessage

  /** The `newsletterData` object as posted: any field may be missing. */
  datatype DraftFields = DraftFields(
    newsletterTitle: Option<string>,
    newsletterSubject: Option<string>,
    articles: Option<seq<Article>>)

  /** The fields of the request's JSON body. */
  datatype BulkRequest = BulkRequest(newsletterData: Option<DraftFields>, aiStyles: Option<HtmlRenderer.AiStyles>)

  /** The answer of the subscriber query: an error, or the e-mail column of the active rows (`data` may be null). */
  datatype SubscriberFetch = FetchFailed | Fetched(rows: Option<seq<string>>)

  const IncompleteMessage := "Newsletter data is incomplete."
  const FetchFailedMessage := "Failed to fetch subscribers."
  const NoSubscribersMessage := "No active subscribers found to send the newsletter to."
  const FallbackErrorMessage := "An unexpected error occurred while sending bulk emails."

  /** Pause after a delivered message, in milliseconds. */
  const SentDelayMs := 200
  /** Pause after a rejected message, in milliseconds. */
  const FailedDelayMs := 1000

  /** `!newsletterData || !newsletterData.newsletterTitle || !newsletterData.newsletterSubject`, negated. */
  predicate Complete(data: Option<DraftFields>) {
    data.Some? && Truthy(data.value.newsletterTitle) && Truthy(data.value.newsletterSubject)
  }

  /** The `catch` clause: a key error, a 401 code or an 'Invalid Credentials' message is an authentication failure. */
  function ErrorResponse(e: Thrown): (r: Response)
    ensures r.status == 401 <==>
            MessageIncludes(e, "API key not valid") || e.code == Some(401) || MessageIncludes(e, "Invalid Credentials")
    ensures r.status == 401 ==> r.body == ErrorBody(GmailAuthFailedMessage)
    ensures r.status != 401 ==> r.status == 500 && r.body == ErrorBody(OrElse(e.message, FallbackErrorMessage))
  {
    if MessageIncludes(e, "API key not valid") || e.code == Some(401) || MessageIncludes(e, "Invalid Credentials") then
      Response(401, ErrorBody(GmailAuthFailedMessage))
    else
      Response(500, ErrorBody(OrElse(e.message, FallbackErrorMessage)))
  }

  /** The `TypeError` a property read on `undefined` throws. */
  function TypeError(property: string): Thrown {
    Thrown(None, Some(TypeErrorHead + property + "')"))
  }

  // written in two pieces so that the lemma below can inspect each one
  const TypeErrorHead := "Cannot read properties " + "of undefined (reading '"

  /** A rendering failure is reported as a server error, never as an authentication failure. */
  lemma {:induction false} TypeErrorIsServerError(property: string)
    requires 'k' !in property && 'I' !in property
    ensures ErrorResponse(TypeError(property)).status == 500
  {
    assert 'k' !in "Cannot read properties " && 'I' !in "Cannot read properties ";
    assert 'k' !in "of undefined (reading '" && 'I' !in "of undefined (reading '";
    var m := TypeErrorHead + property + "')";
    assert 'k' !in m && 'I' !in m;
    AbsentChar(m, "API key not valid", 'k');
    AbsentChar(m, "Invalid Credentials", 'I');
  }

  /** The three property reads that can fail while rendering. */
  lemma {:induction false} RenderFailuresAreServerErrors()
    ensures ErrorResponse(TypeError("map")).status == 500
    ensures ErrorResponse(TypeError("articleContainer")).status == 500
    ensures ErrorResponse(TypeError("card")).status == 500
  {
    TypeErrorIsServerError("map");
    TypeErrorIsServerError("articleContainer");
    TypeErrorIsServerError("card");
  }

  /**
   * `generateNewsletterHtml(newsletterData, aiStyles)`: the document, or the
   * `TypeError` it throws when the articles (read first) or the styles are missing.
   */
  function Render(title: string, subject: string, articles: Option<seq<Article>>, aiStyles: Option<HtmlRenderer.AiStyles>,
                  year: nat, md: HtmlRenderer.Markdown, cn: HtmlRenderer.ClassMerge): (r: Result<string, Thrown>)
    ensures r.Success? <==> articles.Some? && aiStyles.Some?
    ensures r.Success? ==> r.value == HtmlRenderer.Document(NewsletterData(title, subject, articles.value), aiStyles.value, year, md, cn)
    ensures r.Failure? ==> ErrorResponse(r.error).status == 500
  {
    RenderFailuresAreServerErrors();
    if articles.None? then Failure(TypeError("map"))
    else if aiStyles.None? then Failure(TypeError(if |articles.value| > 0 then "articleContainer" else "card"))
    else
      Success(HtmlRenderer.Document(NewsletterData(title, subject, articles.value), aiStyles.value, year, md, cn))
  }

  /** How many of the first outcomes were deliveries. */
  function CountDelivered(deliveries: seq<Delivery>): nat {
    if |deliveries| == 0 then 0
    else CountDelivered(deliveries[..|deliveries| - 1]) + (if deliveries[|deliveries| - 1].Delivered? then 1 else 0)
  }

  /** The subscribers whose message was rejected, in mailing order. */
  function FailedRecipients(subscribers: seq<string>, deliveries: seq<Delivery>): seq<string>
    requires |subscribers| == |deliveries|
  {
    if |subscribers| == 0 then []
    else
      var n := |subscribers| - 1;
      FailedRecipients(subscribers[..n], deliveries[..n]) + (if deliveries[n].Rejected? then [subscribers[n]] else [])
  }

  /**
   * The encoded message for each subscriber, in list order: with an LF-free
   * subject, the message to an LF-free address reads back as that address,
   * the shared subject and the shared HTML body.
   */
  function Messages(subscribers: seq<string>, subject: string, html: string): (r: seq<string>)
    ensures |r| == |subscribers|
    ensures '\n' !in subject ==>
            forall i :: 0 <= i < |subscribers| && '\n' !in subscribers[i] ==>
              MimeMessage.Recover(r[i]) == Some(MimeMessage.Fields(subscribers[i], subject, html))
  {
    var r := seq(|subscribers|, i requires 0 <= i < |subscribers| => MimeMessage.Raw(subscribers[i], subject, html));
    if '\n' in subject then r
    else
      SubmittedMessagesDecode(subscribers, subject, html, r);
      r
  }

  /** Encoding one more subscriber's message. */
  lemma {:induction false} MessagesStep(subscribers: seq<string>, subject: string, html: string, i: nat)
    requires i < |subscribers|
    ensures Messages(subscribers[..i + 1], subject, html)
            == Messages(subscribers[..i], subject, html) + [MimeMessage.Raw(subscribers[i], subject, html)]
  {
  }

  /** Tallying one more outcome. */
  lemma {:induction false} TallyStep(subscribers: seq<string>, deliveries: seq<Delivery>, i: nat)
    requires |subscribers| == |deliveries| && i < |subscribers|
    ensures CountDelivered(deliveries[..i + 1]) == CountDelivered(deliveries[..i]) + (if deliveries[i].Delivered? then 1 else 0)
    ensures FailedRecipients(subscribers[..i + 1], deliveries[..i + 1])
            == FailedRecipients(subscribers[..i], deliveries[..i]) + (if deliveries[i].Rejected? then [subscribers[i]] else [])
  {
    assert subscribers[..i + 1][..i] == subscribers[..i];
    assert deliveries[..i + 1][..i] == deliveries[..i];
  }

  /** The `for` loop over the subscribers: one message each, tallied, with a pause after each. */
  method SendAll(subscribers: seq<string>, subject: string, html: string, deliveries: seq<Delivery>)
    returns (sentCount: nat, failedCount: nat, failedEmails: seq<string>, submitted: seq<string>, delayMs: nat)
    requires |deliveries| == |subscribers|
    ensures submitted == Messages(subscribers, subject, html)
    ensures sentCount == CountDelivered(deliveries)
    ensures failedEmails == FailedRecipients(subscribers, deliveries)
    ensures failedCount == |failedEmails|
    ensures sentCount + failedCount == |subscribers|
    ensures delayMs == SentDelayMs * sentCount + FailedDelayMs * failedCount
  {
    sentCount, failedCount, failedEmails, submitted, delayMs := 0, 0, [], [], 0;
    var i := 0;
    while i < |subscribers|
      invariant 0 <= i <= |subscribers|
      invariant submitted == Messages(subscribers[..i], subject, html)
      invariant sentCount == CountDelivered(deliveries[..i])
      invariant failedEmails == FailedRecipients(subscribers[..i], deliveries[..i])
      invariant failedCount == |failedEmails|
      invariant sentCount + failedCount == i
      invariant delayMs == SentDelayMs * sentCount + FailedDelayMs * failedCount
    {
      var to := subscribers[i];
      submitted := submitted + [MimeMessage.Raw(to, subject, html)];
      MessagesStep(subscribers, subject, html, i);
      TallyStep(subscribers, deliveries, i);
      match deliveries[i] {
        case Delivered =>
          sentCount := sentCount + 1;
          delayMs := delayMs + SentDelayMs;
        case Rejected(_) =>
          failedCount := failedCount + 1;
          failedEmails := failedEmails + [to];
          delayMs := delayMs + FailedDelayMs;
      }
      i := i + 1;
    }
    assert subscribers[..i] == subscribers;
    assert deliveries[..i] == deliveries;
  }

  const ReportHead := "Newsletter sending process completed. Sent to "
  const ReportMiddle := " subscribers. "
  const ReportTail := " failed."

  /** The summary sentence of the final report. */
  function ReportMessage(sentCount: nat, failedCount: nat): string {
    ReportHead + NatToString(sentCount) + ReportMiddle + NatToString(failedCount) + ReportTail
  }

  /**
   * `POST`. `request` is what `request.json()` yields or throws, `fetch` the
   * subscriber query's answer, `deliveries` what Gmail does with each message
   * in turn; `year`, `md` and `cn` are the renderer's clock, Markdown converter
   * and class merger. `submitted` lists the `raw` strings sent to Gmail.
   */
  method Post(request: Result<BulkRequest, Thrown>, cfg: GmailConfig, fetch: SubscriberFetch, deliveries: seq<Delivery>,
              year: nat, md: HtmlRenderer.Markdown, cn: HtmlRenderer.ClassMerge)
    returns (response: Response, submitted: seq<string>)
    requires fetch.Fetched? && fetch.rows.Some? ==> |deliveries| == |fetch.rows.value|
    ensures request.Failure? ==> response == ErrorResponse(request.error) && submitted == []
    ensures request.Success? && !Complete(request.value.newsletterData)
            ==> response == Response(400, ErrorBody(IncompleteMessage)) && submitted == []
    ensures request.Success? && Complete(request.value.newsletterData) && !Configured(cfg)
            ==> response == Response(500, ErrorBody(MissingCredentialsMessage)) && submitted == []
    ensures request.Success? && Complete(request.value.newsletterData) && Configured(cfg) && fetch.FetchFailed?
            ==> response == Response(500, ErrorBody(FetchFailedMessage)) && submitted == []
    ensures request.Success? && Complete(request.value.newsletterData) && Configured(cfg) && fetch.Fetched?
            && (fetch.rows.None? || |fetch.rows.value| == 0)
            ==> response == Response(200, MessageBody(NoSubscribersMessage)) && submitted == []
    ensures request.Success? && Complete(request.value.newsletterData) && Configured(cfg) && fetch.Fetched?
            && fetch.rows.Some? && |fetch.rows.value| > 0 ==>
            var data := request.value.newsletterData.value;
            var rows := fetch.rows.value;
            var html := Render(data.newsletterTitle.value, data.newsletterSubject.value, data.articles,
                               request.value.aiStyles, year, md, cn);
            && (html.Failure? ==> response == ErrorResponse(html.error) && response.status == 500 && submitted == [])
            && (html.Success? ==>
                && submitted == Messages(rows, data.newsletterSubject.value, html.value)
                && var sent := CountDelivered(deliveries);
                   var failed := FailedRecipients(rows, deliveries);
                   response == Response(200, BulkReport(ReportMessage(sent, |failed|), sent, |failed|, failed)))
  {
    submitted := [];
    if request.Failure? {
      return ErrorResponse(request.error), [];
    }
    var req := request.value;
    if !Complete(req.newsletterData) {
      return Response(400, ErrorBody(IncompleteMessage)), [];
    }
    if !Configured(cfg) {
      return Response(500, ErrorBody(MissingCredentialsMessage)), [];
    }
    if fetch.FetchFailed? {
      return Response(500, ErrorBody(FetchFailedMessage)), [];
    }
    if fetch.rows.None? || |fetch.rows.value| == 0 {
      return Response(200, MessageBody(NoSubscribersMessage)), [];
    }
    var data := req.newsletterData.value;
    var html := Render(data.newsletterTitle.value, data.newsletterSubject.value, data.articles, req.aiStyles, year, md, cn);
    if html.Failure? {
      return ErrorResponse(html.error), [];
    }
    var sentCount, failedCount, failedEmails, delayMs;
    sentCount, failedCount, failedEmails, submitted, delayMs :=
      SendAll(fetch.rows.value, data.newsletterSubject.value, html.value, deliveries);
    response := Response(200, BulkReport(ReportMessage(sentCount, failedCount), sentCount, failedCount, failedEmails));
  }

  /**
   * Every subscriber receives the same subject and HTML body; the messages
   * differ only in the recipient line.
   */
  lemma {:induction false} SubmittedMessagesDecode(rows: seq<string>, subject: string, html: string, submitted: seq<string>)
    requires |submitted| == |rows|
    requires forall i :: 0 <= i < |rows| ==> submitted[i] == MimeMessage.Raw(rows[i], subject, html)
    requires '\n' !in subject
    ensures forall i :: 0 <= i < |rows| && '\n' !in rows[i] ==>
              MimeMessage.Recover(submitted[i]) == Some(MimeMessage.Fields(rows[i], subject, html))
  {
    forall i | 0 <= i < |rows| && '\n' !in rows[i]
      ensures MimeMessage.Recover(submitted[i]) == Some(MimeMessage.Fields(rows[i], subject, html))
    {
      MimeMessage.RecoverRaw(rows[i], subject, html);
    }
  }

  /** A subscriber is in the failure list exactly when one of their messages was rejected. */
  lemma {:induction false} FailedRecipientsMembership(subscribers: seq<string>, deliveries: seq<Delivery>, email: string)
    requires |subscribers| == |deliveries|
    ensures email in FailedRecipients(subscribers, deliveries) <==>
            exists i :: 0 <= i < |subscribers| && subscribers[i] == email && deliveries[i].Rejected?
    decreases |subscribers|
  {
    if |subscribers| > 0 {
      var n := |subscribers| - 1;
      FailedRecipientsMembership(subscribers[..n], deliveries[..n], email);
      if email in FailedRecipients(subscribers[..n], deliveries[..n]) {
        var i :| 0 <= i < n && subscribers[..n][i] == email && deliveries[..n][i].Rejected?;
        assert subscribers[i] == email && deliveries[i].Rejected?;
      }
      if exists i :: 0 <= i < |subscribers| && subscribers[i] == email && deliveries[i].Rejected? {
        var i :| 0 <= i < |subscribers| && subscribers[i] == email && deliveries[i].Rejected?;
        if i < n {
          assert subscribers[..n][i] == email && deliveries[..n][i].Rejected?;
        }
      }
    }
  }

  /** Every subscriber is counted once: as delivered or as failed. */
  lemma {:induction false} OutcomesPartition(subscribers: seq<string>, deliveries: seq<Delivery>)
    requires |subscribers| == |deliveries|
    ensures CountDelivered(deliveries) + |FailedRecipients(subscribers, deliveries)| == |subscribers|
    decreases |subscribers|
  {
    if |subscribers| > 0 {
      var n := |subscribers| - 1;
      OutcomesPartition(subscribers[..n], deliveries[..n]);
    }
  }

  /** When every message goes through, nobody is reported as failed. */
  lemma {:induction false} AllDelivered(subscribers: seq<string>, deliveries: seq<Delivery>)
    requires |subscribers| == |deliveries|
    requires forall i :: 0 <= i < |deliveries| ==> deliveries[i].Delivered?
    ensures CountDelivered(deliveries) == |subscribers|
    ensures FailedRecipients(subscribers, deliveries) == []
    decreases |subscribers|
  {
    if |subscribers| > 0 {
      var n := |subscribers| - 1;
      AllDelivered(subscribers[..n], deliveries[..n]);
    }
  }

  /** When exactly the `k`-th message is rejected, the report names that subscriber alone. */
  lemma {:induction false} SingleRejection(subscribers: seq<string>, deliveries: seq<Delivery>, k: nat)
    requires |subscribers| == |deliveries| && k < |deliveries|
    requires deliveries[k].Rejected?
    requires forall i :: 0 <= i < |deliveries| && i != k ==> deliveries[i].Delivered?
    ensures CountDelivered(deliveries) == |subscribers| - 1
    ensures FailedRecipients(subscribers, deliveries) == [subscribers[k]]
    decreases |subscribers|
  {
    var n := |subscribers| - 1;
    if k == n {
      AllDelivered(subscribers[..n], deliveries[..n]);
    } else {
      SingleRejection(subscribers[..n], deliveries[..n], k);
    }
  }

  /** A run of digits followed by a non-digit splits in one way only. */
  lemma {:induction false} DigitsSplit(d1: string, r1: string, d2: string, r2: string)
    requires forall i :: 0 <= i < |d1| ==> IsDigit(d1[i])
    requires forall i :: 0 <= i < |d2| ==> IsDigit(d2[i])
    requires |r1| > 0 && |r2| > 0 && !IsDigit(r1[0]) && !IsDigit(r2[0])
    requires d1 + r1 == d2 + r2
    ensures d1 == d2 && r1 == r2
  {
    // at the shorter run's end one side has a digit and the other does not
    var m := if |d1| < |d2| then |d1| else |d2|;
    assert (d1 + r1)[m] == (d2 + r2)[m];
    assert d1 == (d1 + r1)[..|d1|] && d2 == (d2 + r2)[..|d2|];
    assert r1 == (d1 + r1)[|d1|..] && r2 == (d2 + r2)[|d2|..];
  }

  /** Equal strings with a common prefix have equal remainders. */
  lemma {:induction false} CancelPrefix(p: string, a: string, b: string)
    requires p + a == p + b
    ensures a == b
  {
    assert a == (p + a)[|p|..];
    assert b == (p + b)[|p|..];
  }

  /** The summary sentence read as: fixed head, sent count, the rest. */
  lemma {:induction false} ReportMessageShape(sent: nat, failed: nat)
    ensures ReportMessage(sent, failed) == ReportHead + (NatToString(sent) + (ReportMiddle + (NatToString(failed) + ReportTail)))
  {
  }

  /** The summary sentence determines both counts. */
  lemma {:induction false} ReportMessageInjective(sent1: nat, failed1: nat, sent2: nat, failed2: nat)
    requires ReportMessage(sent1, failed1) == ReportMessage(sent2, failed2)
    ensures sent1 == sent2 && failed1 == failed2
  {
    var d1, d2 := NatToString(sent1), NatToString(sent2);
    var e1, e2 := NatToString(failed1), NatToString(failed2);
    ReportMessageShape(sent1, failed1);
    ReportMessageShape(sent2, failed2);
    CancelPrefix(ReportHead, d1 + (ReportMiddle + (e1 + ReportTail)), d2 + (ReportMiddle + (e2 + ReportTail)));
    DigitsSplit(d1, ReportMiddle + (e1 + ReportTail), d2, ReportMiddle + (e2 + ReportTail));
    CancelPrefix(ReportMiddle, e1 + ReportTail, e2 + ReportTail);
    DigitsSplit(e1, ReportTail, e2, ReportTail);
    DecimalRoundTrip(sent1);
    DecimalRoundTrip(sent2);
    DecimalRoundTrip(failed1);
    DecimalRoundTrip(failed2);
  }
}
