# Newsletter app core in Dafny

This project models the core of a Next.js newsletter app and proves properties of the model. The core has five parts:

- **HTML renderer** (`generateNewsletterHtml`). It turns a newsletter (title, subject, articles) and optional AI style tokens into one standalone HTML document. The template text is reproduced piece by piece, including the literal `charset="UTF-T-8"`.
- **Single-message route** (`/api/send-newsletter`). It checks the request and the Gmail settings, then builds a MIME text with LF line breaks. It encodes that text as UTF-8 bytes, then as base64, then rewrites it to the URL-safe alphabet and strips the padding. It maps thrown errors to 401 or 500.
- **Bulk route** (`/api/send-bulk-newsletter`). It checks the request, fetches the subscribers and renders the newsletter once. Then a loop sends one message per subscriber, counts successes and failures, lists the failed addresses and adds up the pauses.
- **Redesign route** (`/api/redesign`). `extractJson` finds a fenced JSON block in the model's reply. Around it sits the request and error ladder.
- **Local store** (`storage.ts`). This is the list of saved newsletters kept under the `ai-newsletters` key of the browser's local storage. It is a class whose state is the storage availability and the key/value map.

Outside calls are parameters of the model:

- Gmail outcomes are a sequence of deliveries, one per subscriber.
- The subscriber query is an answer value.
- The Gemini reply is a function from the API key and prompt to a reply.
- `JSON.parse` is a partial function.
- `marked.parse` and `cn` are function parameters.
- The copyright year, `randomUUID()` and the ISO time are value parameters.

Modules: `Wrappers`, `Strings`, `Bytes`, `Utf8`, `Base64Url`, `JsonValue`, `Http`, `MimeMessage`, `SendNewsletter`, `Newsletter`, `HtmlRenderer`, `SendBulk`, `Redesign`, `Storage`.

Saving with an id that is not in the list creates a new record with a fresh id (src/lib/storage.ts:45-65). It does not leave the list unchanged, and it does not reuse the given id.

The encoder's round trip holds only when the recipient and subject contain no LF. `MimeMessage.ParseCompose` proves both directions: an LF in either field changes where the headers end.

## Model

| member | source | states |
|---|---|---|
| HtmlRenderer.Document | src/lib/newsletter-html-generator.ts:14-82 | no contract of its own: the template with every interpolation; characterised by `DocumentFrame`, `DocumentTitles`, `DocumentClasses`, `DocumentCopyright`, `ArticleInDocument`, `FooterTokenIgnored` and `SummaryIgnored` |
| HtmlRenderer.ArticlesHtml | src/lib/newsletter-html-generator.ts:18-55 | no contract of its own: `map` then `join('')`; characterised by `ArticlesHtmlCons` and `SeparatorCount` |
| HtmlRenderer.ArticleItem | src/lib/newsletter-html-generator.ts:25-52 | no contract of its own: one article's block with its separator; characterised by `SeparatorPlacement` and `CardInItem` |
| HtmlRenderer.ArticleCard | src/lib/newsletter-html-generator.ts:25-50 | no contract of its own: the article container; characterised by `ArticleClasses`, `ImageBlockPresence`, `SourceLinkPresence` and `ContentEmbedding` |
| HtmlRenderer.ContentHtml | src/lib/newsletter-html-generator.ts:21-23 | no contract of its own; characterised by `ContentEmbedding` |
| HtmlRenderer.ArticlesHtmlCons | src/lib/newsletter-html-generator.ts:18-55 | articles are rendered one block each, in input order, concatenated; a separator follows a block exactly when another block comes after it |
| HtmlRenderer.SeparatorPlacement | src/lib/newsletter-html-generator.ts:51 | the block at `index` ends with the `<hr>` separator iff `index < n - 1` |
| HtmlRenderer.SeparatorsAmongPrefix | src/lib/newsletter-html-generator.ts:51 | among the first k blocks, k carry a separator, except when k is the whole non-empty list, where k - 1 do |
| HtmlRenderer.SeparatorCount | src/lib/newsletter-html-generator.ts:51 | n articles yield max(n - 1, 0) separators |
| HtmlRenderer.ArticleInDocument | src/lib/newsletter-html-generator.ts:18-73 | every article's block occurs in the document |
| HtmlRenderer.CardInItem | src/lib/newsletter-html-generator.ts:25-52 | every article block contains the article's card |
| HtmlRenderer.ContentEmbedding | src/lib/newsletter-html-generator.ts:21-41 | `contentType == 'html'` puts the content verbatim in the prose div; otherwise the Markdown converter's output goes there; missing content counts as `''` |
| HtmlRenderer.ImageBlockPresence | src/lib/newsletter-html-generator.ts:27-37 | the image block is non-empty iff `imageUrl` is non-empty; its `src` is the URL; its `alt` is the title, or `Article Image` without one |
| HtmlRenderer.SourceLinkPresence | src/lib/newsletter-html-generator.ts:43-49 | the source link is non-empty iff `url` is non-empty; its `href` is the URL and its label is "기사 보기" |
| HtmlRenderer.ArticleClasses | src/lib/newsletter-html-generator.ts:26-39 | the article container's class is `cn('py-4', articleContainer)`; the `<h3>` class is `cn(base, articleTitle)`, holding the title or `''` |
| HtmlRenderer.DocumentTitles | src/lib/newsletter-html-generator.ts:63-70 | the title appears unescaped in `<title>` and in the `<h1>`; the subject appears in the `Subject:` line |
| HtmlRenderer.DocumentClasses | src/lib/newsletter-html-generator.ts:67-68 | the card class is `cn(base, card)` and the header class is `cn('p-6', header)` |
| HtmlRenderer.DocumentCopyright | src/lib/newsletter-html-generator.ts:75 | the footer carries the given year |
| HtmlRenderer.DocumentFrame | src/lib/newsletter-html-generator.ts:57-81 | the document starts with the doctype, `<html>` and `<head>` opening text and ends with the text that closes `main`, the card `div`, `body` and `html` |
| HtmlRenderer.FooterTokenIgnored | src/lib/newsletter-html-generator.ts:5-12 | the output does not depend on the `footer` style token |
| HtmlRenderer.SummaryIgnored | src/lib/newsletter-html-generator.ts:18-55 | the output does not depend on the articles' `summary` fields |
| MimeMessage.Compose | src/app/api/send-newsletter/route.ts:27-34 | no contract of its own: the six lines joined by LF; characterised by `ComposeLayout` and `ParseCompose` |
| MimeMessage.ComposeLayout | src/app/api/send-newsletter/route.ts:27-34 | the message is `To:`, `Subject:`, `MIME-Version: 1.0`, `Content-Type: text/html; charset=UTF-8`, an empty line, then the body, joined by single LFs |
| MimeMessage.ParseCompose | src/app/api/send-newsletter/route.ts:27-34 | a mail reader recovers recipient, subject and body iff neither recipient nor subject contains an LF |
| Utf8.Encode | src/app/api/send-newsletter/route.ts:36 | `Buffer.from(text)`: n characters take between n and 4n bytes; see `DecodeEncode` and `DecodeOnlyEncodings` for the round trips |
| Utf8.EncodeChar | src/app/api/send-newsletter/route.ts:36 | each character takes 1 to 4 bytes: exactly 1 below U+0080 (the byte equal to the code), 2 below U+0800, 3 below U+10000 and 4 from there on (the shortest form) |
| Utf8.DecodeEncode | src/app/api/send-newsletter/route.ts:36 | UTF-8 decoding of the encoded bytes gives back the text |
| Utf8.DecodeFirstCanonical | src/app/api/send-newsletter/route.ts:36 | the reference decoder accepts only shortest forms: the bytes a decoded character takes are exactly its encoding |
| Utf8.DecodeOnlyEncodings | src/app/api/send-newsletter/route.ts:36 | bytes that decode to a text are exactly that text's encoding, so `Buffer.from` is the one encoding of each text |
| Utf8.EncodeAscii | src/app/api/send-newsletter/route.ts:36 | ASCII text encodes byte for byte |
| Base64Url.StdEncode | src/app/api/send-newsletter/route.ts:36-37 | `toString('base64')`: n bytes give 4·⌈n/3⌉ characters, whole quanta with `=` padding |
| Base64Url.ReplaceAll | src/app/api/send-newsletter/route.ts:38-39 | `replace(/c/g, d)`: same length, only occurrences of `c` change and they become `d`, and no `c` is left when `c != d` |
| Base64Url.StripTrailing | src/app/api/send-newsletter/route.ts:40 | `replace(/=+$/, '')`: the result is a prefix of the input that does not end in `=`, and every removed character was `=` |
| Base64Url.EncodeAsRoute | src/app/api/send-newsletter/route.ts:36-40 | no contract of its own: the route's chain; characterised by `RouteIsUnpaddedBase64Url`, `EncodeAsRouteShape` and `DecodeEncodeAsRoute` |
| Base64Url.UrlChar | src/app/api/send-newsletter/route.ts:37-39 | every output symbol is in `[A-Za-z0-9_-]` and is never `=` |
| Base64Url.UrlIndex | src/app/api/send-newsletter/route.ts:37-39 | a character has a 6-bit value iff it is URL-safe, and that value maps back to it |
| Base64Url.Sextets | src/app/api/send-newsletter/route.ts:37 | n bytes become 4·⌊n/3⌋ symbols, plus 0, 2 or 3 for n mod 3 = 0, 1, 2 |
| Base64Url.StripPadding | src/app/api/send-newsletter/route.ts:40 | removing trailing `=` from a text that does not end in `=`, padded with `=` signs, gives back the text |
| Base64Url.RouteIsUnpaddedBase64Url | src/app/api/send-newsletter/route.ts:36-40 | padded base64, with `+`→`-` and `/`→`_` and the trailing `=` removed, equals unpadded base64url (RFC 4648 section 5, padding omitted as section 3.2 permits) |
| Base64Url.EncodeAsRouteShape | src/app/api/send-newsletter/route.ts:36-40 | the encoded length is the unpadded length and every character is URL-safe |
| Base64Url.DecodeSextetsOfBytes | src/app/api/send-newsletter/route.ts:37 | regrouping the 6-bit values into bytes gives back the input bytes |
| Base64Url.DecodeEncodeAsRoute | src/app/api/send-newsletter/route.ts:36-40 | unpadded base64url decoding of the route's output returns the original bytes |
| Base64Url.DecodeExactlyEncodings | src/app/api/send-newsletter/route.ts:36-40 | a string decodes to some bytes iff it is exactly their unpadded encoding |
| MimeMessage.Raw | src/app/api/send-newsletter/route.ts:27-40 | no contract of its own: the composed message, UTF-8 encoded, then encoded as the route does; characterised by `RawShape` and `RecoverRaw` |
| MimeMessage.RecoverRaw | src/app/api/send-newsletter/route.ts:27-40 | decoding the `raw` field and parsing the message gives back recipient, subject and HTML body, when recipient and subject contain no LF |
| MimeMessage.RawShape | src/app/api/send-newsletter/route.ts:36-40 | `raw` has the unpadded length of the message's UTF-8 bytes and only URL-safe characters |
| SendNewsletter.ErrorResponse | src/app/api/send-newsletter/route.ts:51-56 | status 401 iff code 401 or the message contains 'Invalid Credentials', with the fixed authentication text; otherwise 500 with the message or the fallback text |
| SendNewsletter.Post | src/app/api/send-newsletter/route.ts:5-58 | an unreadable body goes to the error mapping; a falsy `to`, `subject` or `htmlContent` gives 400; a missing Gmail setting gives 500; a message is submitted iff both checks pass, and then it is the encoded message; the send outcome gives 200 or the mapped error |
| SendNewsletter.SubmittedMessageDecodes | src/app/api/send-newsletter/route.ts:27-47 | the submitted `raw` decodes to the request's own recipient, subject and HTML when they contain no LF |
| SendBulk.ErrorResponse | src/app/api/send-bulk-newsletter/route.ts:104-110 | status 401 iff the message contains 'API key not valid' or 'Invalid Credentials' or the code is 401; otherwise 500 with the message or the fallback text |
| SendBulk.TypeErrorIsServerError | src/app/api/send-bulk-newsletter/route.ts:53 | the renderer's property-read failure maps to 500 |
| SendBulk.Render | src/app/api/send-bulk-newsletter/route.ts:53 | rendering succeeds iff articles and style tokens are present, and then gives the renderer's document; a failure maps to 500 |
| SendBulk.Messages | src/app/api/send-bulk-newsletter/route.ts:59-76 | one message per subscriber, in list order; with an LF-free subject, the message to each LF-free address decodes back to that address, the shared subject and the shared HTML body; `SendAll` is proved to submit exactly these |
| SendBulk.SendAll | src/app/api/send-bulk-newsletter/route.ts:55-95 | one message per subscriber in list order, all with the same subject and HTML; `sentCount` counts deliveries; `failedEmails` lists rejected subscribers in order; `failedCount` is its length; sent + failed = n; delay = 200·sent + 1000·failed ms |
| SendBulk.Post | src/app/api/send-bulk-newsletter/route.ts:21-111 | the order is 400 for incomplete data, then 500 for credentials, 500 for a fetch error, 200 "no subscribers" for an empty or absent list, and a render failure mapped by the catch, each sending nothing; otherwise the report of `SendAll` with status 200 |
| SendBulk.SubmittedMessagesDecode | src/app/api/send-bulk-newsletter/route.ts:59-76 | with an LF-free subject, every LF-free recipient's message decodes to that recipient with the same subject and body; the messages differ only in the recipient |
| SendBulk.FailedRecipientsMembership | src/app/api/send-bulk-newsletter/route.ts:88-94 | an address is in `failedEmails` iff a message to it was rejected |
| SendBulk.OutcomesPartition | src/app/api/send-bulk-newsletter/route.ts:55-95 | delivered count plus failure-list length equals the number of subscribers |
| SendBulk.AllDelivered | src/app/api/send-bulk-newsletter/route.ts:78-87 | with no rejection, all n are counted as sent and no address is listed |
| SendBulk.SingleRejection | src/app/api/send-bulk-newsletter/route.ts:78-94 | with exactly one rejection, at k, the counts are n - 1 sent and one failed, and `failedEmails` is that one subscriber |
| SendBulk.ReportMessage | src/app/api/send-bulk-newsletter/route.ts:98 | no contract of its own: the summary sentence; characterised by `ReportMessageInjective`, which shows it determines both counts |
| SendBulk.ReportMessageInjective | src/app/api/send-bulk-newsletter/route.ts:98 | the summary sentence determines both counts |
| Strings.NatToString | src/app/api/send-bulk-newsletter/route.ts:98 | a count is written as a non-empty run of decimal digits with no leading zero |
| Strings.DecimalRoundTrip | src/app/api/send-bulk-newsletter/route.ts:98 | reading the digits back gives the count |
| Redesign.ExtractJson | src/app/api/redesign/route.ts:5-22 | no contract of its own; characterised by `ExtractFenced`, `ExtractFallsBack`, `ExtractWithoutOpener` and `ExtractWrapped` |
| Redesign.ParseOrNull | src/app/api/redesign/route.ts:8-21 | no contract of its own: `JSON.parse` with a thrown parse error read as `null`; used by both branches of `ExtractJson` |
| Redesign.NearestCloser | src/app/api/redesign/route.ts:6 | the lazy body ends at the first LF + three backticks at or after the given position |
| Redesign.FenceMatch | src/app/api/redesign/route.ts:6 | the match is the leftmost "```json" + LF that some closing fence follows, with the nearest such closing fence |
| Redesign.ExtractFenced | src/app/api/redesign/route.ts:6-13 | with a non-empty fenced body, the result is that body's parse, or null if it fails to parse; the whole string is not tried |
| Redesign.ExtractFallsBack | src/app/api/redesign/route.ts:15-21 | with no usable fence, or an empty fenced body, the result is the parse of the whole string, or null |
| Redesign.ExtractWithoutOpener | src/app/api/redesign/route.ts:6 | text without the exact lowercase "```json" + LF opener (such as "```JSON", "```json" + CRLF or a bare "```") is parsed whole |
| Redesign.ExtractWrapped | src/app/api/redesign/route.ts:6-9 | a non-empty text that parses and has no LF + "```" inside, fenced, comes back as its parse |
| Redesign.Prompt | src/app/api/redesign/route.ts:39-55 | no contract of its own: the instruction template with the design request between double quotes |
| Redesign.ErrorResponse | src/app/api/redesign/route.ts:69-74 | 401 with the invalid-key text iff the message contains 'API key not valid'; otherwise 500 with the message or the fallback |
| Redesign.InvalidJsonIsServerError | src/app/api/redesign/route.ts:63-74 | the "AI failed to return a valid JSON format" error is not taken for a key error |
| Redesign.ReplyResponse | src/app/api/redesign/route.ts:57-67 | a thrown model error is mapped; a truthy extraction is answered with 200 and the JSON; a falsy one gives 500 with the format-error text |
| Redesign.Post | src/app/api/redesign/route.ts:25-76 | a missing `apiKey` gives 400, checked before a missing `designPrompt` (400); otherwise the reply to the built prompt decides |
| Storage.IndexOfId | src/lib/storage.ts:47 | `findIndex`: the first position holding the id, or none when no entry holds it |
| Storage.FindById | src/lib/storage.ts:35 | `find`: absent iff no record has the id; otherwise the record at the first position holding it |
| Storage.RemoveId | src/lib/storage.ts:73 | the result keeps exactly the records whose id differs, and is no longer than the input |
| Storage.Upsert | src/lib/storage.ts:45-65 | a truthy id that is found updates in place: same length, same index, old id and creation time, new data, `updatedAt = now`, others unchanged; otherwise a record with the fresh id and `createdAt = updatedAt = now` goes in front of the unchanged list |
| Storage.LocalStore.constructor | src/lib/storage.ts:14-19 | the store starts with the given availability and items |
| Storage.LocalStore.Newsletters | src/lib/storage.ts:21-31 | the stored array when storage, the key and a JSON array are all there; `[]` otherwise (unavailable, missing, empty, unparsable or non-array) |
| Storage.LocalStore.NewsletterById | src/lib/storage.ts:33-36 | `getNewsletterById`: absent iff no stored record has the id; otherwise the stored record at the first position holding it |
| Storage.LocalStore.SaveNewsletter | src/lib/storage.ts:38-66 | without storage it fails with "localStorage is not available." and changes nothing; otherwise it writes the upserted list under the key, leaves other keys alone and returns the saved record |
| Storage.LocalStore.DeleteNewsletter | src/lib/storage.ts:68-75 | without storage nothing changes; otherwise the filtered list is written under the key, even when nothing matched |
| Storage.SaveThenFind | src/lib/storage.ts:45-65 | looking up the saved record's id in the new list finds that record |
| Storage.SaveLength | src/lib/storage.ts:45-65 | saving keeps the length exactly when a truthy id is found, and adds one otherwise |
| Storage.SaveKeepsIdsUnique | src/lib/storage.ts:56-65 | with a fresh id, unique ids stay unique |
| Storage.DeleteThenFind | src/lib/storage.ts:68-75 | after a delete, no record holds the id |
| Storage.DeleteKeepsOrder | src/lib/storage.ts:73 | filtering works part by part, so the kept records stay in order |
| Storage.DeleteAbsent | src/lib/storage.ts:73 | deleting an id nobody holds leaves the list unchanged |
| Storage.DeleteIdempotent | src/lib/storage.ts:73 | deleting twice equals deleting once |
| Storage.CreateThenDelete | src/lib/storage.ts:56-75 | creating a record and deleting its fresh id restores the list |

## Left out

- Network, Gmail, Supabase and Gemini calls, and async waiting: their outcomes are parameters. The OAuth client set-up and the model name are not modelled.
- `setTimeout` pauses are counted as milliseconds, not waited for. `console.error` logging is not modelled.
- `marked.parse` and `cn` are uninterpreted function parameters, and so is `JSON.parse`. The year, `randomUUID()` and `new Date().toISOString()` are value parameters. The renderer is a Dafny function, so equal inputs give equal output; this needs no separate lemma.
- JSON request bodies are read as optional strings per field. A field of another JSON type (a number, an object) is not modelled. An unreadable body or a failed destructuring is one thrown value.
- Subscriber rows are their `email` strings; a row with a null email is not modelled.
- Utf8.Encode: strings are sequences of Unicode scalar values. Lone UTF-16 surrogates, which `Buffer.from` replaces with U+FFFD, are not modelled.
- SendBulk.Render: a `TypeError` uses V8's message wording. A `null` (rather than absent) `aiStyles` would say "of null"; only the absent case is modelled, and both give status 500.
- Storage: the stored string is modelled by what `JSON.parse` makes of it. `JSON.stringify` followed by `JSON.parse` is taken to give back the same records. Array elements that are not saved newsletters, and `setItem` quota errors, are not modelled.
- Storage.Upsert: form data is a complete newsletter value. Spreading partial data or extra properties over the old record is not modelled.
- Storage.SaveThenFind: does not state `updatedAt >= createdAt` after an update. The time is a parameter with no order relative to stored timestamps. After a creation the two are equal, as `Storage.Upsert` states.
- The form's zod schema, the React pages and components, the summarize and subscribe routes, and the refresh-token script are not part of this model.
