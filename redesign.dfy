/**
 * The redesign route: `extractJson`, which pulls a JSON value out of a model
 * reply that may wrap it in a fenced code block, and the `POST` ladder around it.
 */
module Redesign {
  import opened Wrappers
  import opened Strings
  import opened JsonValue
  import opened Http

  /** `JSON.parse`: the parsed value, or `None` where it throws. */
  type JsonParser = string -> Option<Json>

  /** The opening fence: three backticks, exactly lowercase `json`, then LF. */
  const Opener := "```json\n"

  /** The closing fence: LF then three backticks. */
  const Closer := "\n```"

  predicate OpenerAt(s: string, i: nat) {
    OccursAt(s, Opener, i)
  }

  predicate CloserAt(s: string, j: nat) {
    OccursAt(s, Closer, j)
  }

  /** The nearest closing fence starting at or after `from` (the lazy `[\s\S]*?`). */
  function NearestCloser(s: string, from: nat): (r: Option<nat>)
    ensures r.Some? ==> from <= r.value && CloserAt(s, r.value)
    ensures r.Some? ==> forall j :: from <= j < r.value ==> !CloserAt(s, j)
    ensures r.None? ==> forall j :: from <= j ==> !CloserAt(s, j)
    decreases |s| - from
  {
    if from + |Closer| > |s| then None
    else if CloserAt(s, from) then Some(from)
    else NearestCloser(s, from + 1)
  }

  /** An opening fence at `i` that some closing fence follows: where the regex can match. */
  predicate FenceAt(s: string, i: nat) {
    OpenerAt(s, i) && NearestCloser(s, i + |Opener|).Some?
  }

  /**
   * `s.match(/```json\n([\s\S]*?)\n```/)` searching from `from`: the bounds of
   * the captured body, for the leftmost opening fence that has a closing fence
   * after it and the nearest such closing fence.
   */
  function FenceMatch(s: string, from: nat): (r: Option<(nat, nat)>)
    ensures r.Some? ==> from + |Opener| <= r.value.0 <= r.value.1
    ensures r.Some? ==> FenceAt(s, r.value.0 - |Opener|) && NearestCloser(s, r.value.0) == Some(r.value.1)
    ensures r.Some? ==> forall i :: from <= i < r.value.0 - |Opener| ==> !FenceAt(s, i)
    ensures r.None? ==> forall i :: from <= i ==> !FenceAt(s, i)
    decreases |s| - from
  {
    if from + |Opener| > |s| then None
    else if FenceAt(s, from) then Some((from + |Opener|, NearestCloser(s, from + |Opener|).value))
    else FenceMatch(s, from + 1)
  }

  /** `JSON.parse(text)` inside a `try` whose `catch` yields `null`. */
  function ParseOrNull(text: string, parse: JsonParser): Json {
    match parse(text)
    case Some(v) => v
    case None => JNull
  }

  /** `extractJson`. */
  function ExtractJson(s: string, parse: JsonParser): Json {
    match FenceMatch(s, 0)
    case Some((b, e)) =>
      if b < e then ParseOrNull(s[b..e], parse) else ParseOrNull(s, parse)
    case None => ParseOrNull(s, parse)
  }

  /**
   * With a leftmost usable opening fence at `i` and the nearest closing fence at
   * `e` enclosing a non-empty body, the result is the parse of that body, and
   * `null` if it does not parse: the whole string is then not tried.
   */
  lemma {:induction false} ExtractFenced(s: string, parse: JsonParser, i: nat, e: nat)
    requires FenceAt(s, i) && NearestCloser(s, i + |Opener|) == Some(e)
    requires forall k :: 0 <= k < i ==> !FenceAt(s, k)
    requires i + |Opener| < e
    ensures ExtractJson(s, parse) == ParseOrNull(s[i + |Opener|..e], parse)
    ensures parse(s[i + |Opener|..e]).None? ==> ExtractJson(s, parse) == JNull
  {
    var r := FenceMatch(s, 0);
    assert r.Some?;
    assert r.value.0 == i + |Opener|;
  }

  /** With no usable fence, or an empty fenced body, the result is the parse of the whole string, or `null`. */
  lemma {:induction false} ExtractFallsBack(s: string, parse: JsonParser)
    requires (forall i :: 0 <= i ==> !FenceAt(s, i))
             || (exists i :: 0 <= i && FenceAt(s, i) && NearestCloser(s, i + |Opener|) == Some(i + |Opener|)
                             && forall k :: 0 <= k < i ==> !FenceAt(s, k))
    ensures ExtractJson(s, parse) == ParseOrNull(s, parse)
  {
    if FenceMatch(s, 0).Some? {
      var i :| 0 <= i && FenceAt(s, i) && NearestCloser(s, i + |Opener|) == Some(i + |Opener|)
               && forall k :: 0 <= k < i ==> !FenceAt(s, k);
      assert FenceMatch(s, 0).value.0 == i + |Opener|;
    }
  }

  /** Text without the exact opening fence (say "```JSON", "```json" CRLF or a bare "```") is parsed whole. */
  lemma {:induction false} ExtractWithoutOpener(s: string, parse: JsonParser)
    requires !Contains(s, Opener)
    ensures ExtractJson(s, parse) == ParseOrNull(s, parse)
  {
    ExtractFallsBack(s, parse);
  }

  /** The three characters after a closing fence's LF are backticks. */
  lemma {:induction false} CloserBackticks(s: string, j: nat, k: nat)
    requires CloserAt(s, j) && 1 <= k < |Closer|
    ensures s[j + k] == '`'
  {
    assert s[j..j + |Closer|][k] == Closer[k];
  }

  /** Round trip: a non-empty JSON text without a closing fence inside, wrapped in fences, comes back parsed. */
  lemma {:induction false} ExtractWrapped(t: string, v: Json, parse: JsonParser)
    requires |t| > 0 && parse(t) == Some(v) && !Contains(t, Closer)
    ensures ExtractJson(Opener + t + Closer, parse) == v
  {
    var s := Opener + t + Closer;
    var e := |Opener| + |t|;
    assert s[e..e + |Closer|] == Closer;
    assert CloserAt(s, e);
    forall j | |Opener| <= j < e
      ensures !CloserAt(s, j)
    {
      if j + |Closer| <= e {
        // a closing fence wholly inside the body would be one inside t
        assert s[j..j + |Closer|] == t[j - |Opener|..j - |Opener| + |Closer|];
        assert !OccursAt(t, Closer, j - |Opener|);
      } else {
        // one overlapping the final fence would need a backtick where its LF is
        assert s[e] == '\n';
        if CloserAt(s, j) {
          CloserBackticks(s, j, e - j);
        }
      }
    }
    var r := NearestCloser(s, |Opener|);
    assert r == Some(e);
    assert s[..|Opener|] == Opener;
    assert OpenerAt(s, 0);
    ExtractFenced(s, parse, 0, e);
    assert s[|Opener|..e] == t;
  }

  /** The fields of the request's JSON body. */
  datatype RedesignRequest = RedesignRequest(designPrompt: Option<string>, apiKey: Option<string>)

  /** `model.generateContent(prompt)` and `response.text()` for an API key and prompt: the reply text, or what was thrown. */
  type Generator = (string, string) -> Result<string, Thrown>

  const PromptStart :=
    "\n"
    + "      You are a web design assistant specializing in Tailwind CSS.\n"
    + "      Based on the user's request, generate a JSON object containing Tailwind CSS utility classes to style a newsletter.\n"
    + "      The JSON object should have the following keys: \"card\", \"header\", \"mainTitle\", \"articleContainer\", \"articleTitle\", \"footer\".\n"
    + "      Only provide Tailwind classes as string values for these keys. Do not add any other properties.\n"
    + "      User's design request: \""
  const PromptEnd :=
    "\"\n"
    + "      \n"
    + "      Example response for a \"dark mode\" request:\n"
    + "      {\n"
    + "        \"card\": \"bg-gray-900 text-gray-100 border border-gray-700\",\n"
    + "        \"header\": \"bg-gray-800 border-b border-gray-700\",\n"
    + "        \"mainTitle\": \"text-blue-400\",\n"
    + "        \"articleContainer\": \"p-4 rounded-lg bg-gray-800/50\",\n"
    + "        \"articleTitle\": \"text-blue-300\",\n"
    + "        \"footer\": \"bg-gray-950 border-t border-gray-800\"\n"
    + "      }\n"
    + "    "

  /** The prompt sent to the model, the design request quoted inside it. */
  function Prompt(designPrompt: string): string {
    PromptStart + designPrompt + PromptEnd
  }

  const MissingKeyMessage := "API Key is required for AI services."
  const MissingPromptMessage := "Design prompt is required."
  // written in three pieces so that the lemma below can inspect each one
  const InvalidJsonMessage := "AI failed to return " + "a valid JSON format. " + "Please try a different prompt."
  const InvalidKeyMessage := "The provided Gemini API Key is not valid."
  const FallbackErrorMessage := "An unexpected error occurred."

  /** The `catch` clause: a message mentioning 'API key not valid' is 401, anything else 500. */
  function ErrorResponse(e: Thrown): (r: Response)
    ensures r.status == 401 <==> MessageIncludes(e, "API key not valid")
    ensures r.status == 401 ==> r.body == ErrorBody(InvalidKeyMessage)
    ensures r.status != 401 ==> r.status == 500 && r.body == ErrorBody(OrElse(e.message, FallbackErrorMessage))
  {
    if MessageIncludes(e, "API key not valid") then Response(401, ErrorBody(InvalidKeyMessage))
    else Response(500, ErrorBody(OrElse(e.message, FallbackErrorMessage)))
  }

  /** The format error thrown for a reply without JSON does not look like a key error. */
  lemma {:induction false} InvalidJsonIsServerError()
    ensures !MessageIncludes(Thrown(None, Some(InvalidJsonMessage)), "API key not valid")
  {
    assert 'k' !in "AI failed to return ";
    assert 'k' !in "a valid JSON format. ";
    assert 'k' !in "Please try a different prompt.";
    AbsentChar(InvalidJsonMessage, "API key not valid", 'k');
  }

  /** The reply step: the extracted JSON when truthy, otherwise the thrown format error, through the `catch` clause. */
  function ReplyResponse(reply: Result<string, Thrown>, parse: JsonParser): (r: Response)
    ensures reply.Failure? ==> r == ErrorResponse(reply.error)
    ensures reply.Success? && ExtractJson(reply.value, parse).Truthy() ==> r == Response(200, JsonBody(ExtractJson(reply.value, parse)))
    ensures reply.Success? && !ExtractJson(reply.value, parse).Truthy() ==> r == Response(500, ErrorBody(InvalidJsonMessage))
  {
    match reply
    case Failure(e) => ErrorResponse(e)
    case Success(text) =>
      var json := ExtractJson(text, parse);
      if json.Truthy() then Response(200, JsonBody(json))
      else
        InvalidJsonIsServerError();
        ErrorResponse(Thrown(None, Some(InvalidJsonMessage)))
  }

  /** `POST`. `request` is what `request.json()` yields or throws. */
  function Post(request: Result<RedesignRequest, Thrown>, generate: Generator, parse: JsonParser): (r: Response)
    ensures request.Failure? ==> r == ErrorResponse(request.error)
    ensures request.Success? && !Truthy(request.value.apiKey) ==> r == Response(400, ErrorBody(MissingKeyMessage))
    ensures request.Success? && Truthy(request.value.apiKey) && !Truthy(request.value.designPrompt)
            ==> r == Response(400, ErrorBody(MissingPromptMessage))
    ensures request.Success? && Truthy(request.value.apiKey) && Truthy(request.value.designPrompt)
            ==> r == ReplyResponse(generate(request.value.apiKey.value, Prompt(request.value.designPrompt.value)), parse)
  {
    match request
    case Failure(e) => ErrorResponse(e)
    case Success(req) =>
      if !Truthy(req.apiKey) then Response(400, ErrorBody(MissingKeyMessage))
      else if !Truthy(req.designPrompt) then Response(400, ErrorBody(MissingPromptMessage))
      else ReplyResponse(generate(req.apiKey.value, Prompt(req.designPrompt.value)), parse)
  }
}
