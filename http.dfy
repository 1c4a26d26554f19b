/** What the route handlers see of the outside world and what they answer. */
module Http {
  import opened Wrappers
  import opened Strings
  import opened JsonValue

  /** A thrown value, as a `catch (error: any)` clause reads it: its `code` and `message` properties. */
  datatype Thrown = Thrown(code: Option<int>, message: Option<string>)

  /** The outcome of one `gmail.users.messages.send` call. */
  datatype Delivery = Delivered | Rejected(error: Thrown)

  /** The JSON body of a `NextResponse.json(...)`. */
  datatype Body =
    | ErrorBody(error: string)
    | MessageBody(message: string)
    | JsonBody(json: Json)
    | BulkReport(message: string, sentCount: nat, failedCount: nat, failedEmails: seq<string>)

  datatype Response = Response(status: int, body: Body)

  /** The four Gmail OAuth settings read from the server environment. */
  datatype GmailConfig = GmailConfig(
    clientId: Option<string>,
    clientSecret: Option<string>,
    redirectUri: Option<string>,
    refreshToken: Option<string>)

  /** `clientId && clientSecret && redirectUri && refreshToken`. */
  predicate Configured(cfg: GmailConfig) {
    Truthy(cfg.clientId) && Truthy(cfg.clientSecret) && Truthy(cfg.redirectUri) && Truthy(cfg.refreshToken)
  }

  /** `error.message?.includes(phrase)`. */
  predicate MessageIncludes(e: Thrown, phrase: string) {
    e.message.Some? && Contains(e.message.value, phrase)
  }

  const MissingCredentialsMessage := "Gmail API credentials are not fully configured on the server."
  const GmailAuthFailedMessage :=
    "Authentication failed. Please check your Gmail API credentials (CLIENT_ID, CLIENT_SECRET, REFRESH_TOKEN)."
}
