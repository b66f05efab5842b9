# AI handler: a Dafny model

This project models the serverless function `exports.handler` in
`netlify/functions/ai-handler.js`. The function answers a request as follows:

- It refuses every HTTP method except `POST` with status 405.
- It parses the JSON body, or `{}` when the body is missing or empty, and reads its `input`.
- It refuses a missing, falsy or whitespace-only input with status 400.
- For any other input it returns status 200. The result is a one-sentence summary: the word count, plus the topics found by two case-insensitive keyword tests ("Networking" and "Security").
- Anything thrown in between becomes status 500, with the error text `"Internal server error: "` followed by the runtime's message.

The model has five modules:

- `Whitespace`: the ECMAScript whitespace set shared by `\s` and `String.prototype.trim`, `trim`, and `split(/\s+/)`. It also holds an independent reference count of the maximal non-whitespace runs (the words).
- `Search`: case-insensitive substring search, as a regular expression with the `i` flag and without the `u` flag performs it for ASCII patterns. Without `u`, no non-ASCII character folds onto an ASCII one, so comparing ASCII-lower-cased characters is exact for ASCII patterns. `Search.Lower` does not model the folding of non-ASCII letters among themselves, which no keyword needs.
- `Decimal`: renders the counts interpolated into the summary as decimal text, with a parse-back round trip.
- `Analysis`: the word count, the two keyword tests, the topic list and the summary. `Analyze` builds the analysis record step by step, as the handler does: it appends to the topic list, then assigns the summary.
- `Handler`: the request body as already parsed (`Body`, `Input`), the response (`Response`, `Payload`), the specification function `Respond` and the step-by-step method `Handle`.

`Scenarios` works through concrete requests.

A malformed body gets a 500, not a 400: `JSON.parse` (line 26) runs inside the `try` opened at line 24, so the parse error is caught at lines 70-75. (The separate proxy handler `.netlify/functions/ai-handler.js` answers bad JSON with a 400; it is not part of this model.) The model follows the code (`Handler.MalformedBodyIsServerError`).

Besides the missing body, the model distinguishes these cases, all read from the code:

- A JSON `null` body throws when its `input` is read, so it gets a 500.
- A JSON value that is not an object has no `input`, so it gets a 400.
- A falsy non-string `input` (`null`, `false`, `0`) becomes `''`, so it gets a 400.
- A truthy non-string `input` (a number, `true`, an array, an object) has no `trim` method, so it gets a 500.

## Model

| member | source | states |
|---|---|---|
| Whitespace.Trim | netlify/functions/ai-handler.js:29 | the trimmed text is empty exactly when the input is all whitespace; when it is not empty, it neither starts nor ends with whitespace |
| Whitespace.TrimDropsOnlySpace | netlify/functions/ai-handler.js:29 | the input is the trimmed text with some whitespace before it and some whitespace after it |
| Whitespace.SplitOnSpaceRuns | netlify/functions/ai-handler.js:44 | splitting on whitespace runs gives at least one piece; no piece holds whitespace; every piece but the first and last is non-empty; the empty string gives one empty piece; a string starting with a non-whitespace character has a non-empty first piece |
| Whitespace.SplitRebuilds | netlify/functions/ai-handler.js:44 | the input is the pieces with a non-empty all-whitespace gap between each pair of neighbours; together with `SplitOnSpaceRuns` ensuring that no piece holds whitespace and that every middle piece is non-empty, each middle piece is exactly one maximal run, as `split(/\s+/)` cuts |
| Whitespace.SplitKeepsNonSpace | netlify/functions/ai-handler.js:44 | the pieces, concatenated, are the input with its whitespace removed: splitting loses only whitespace |
| Whitespace.SplitCountsRuns | netlify/functions/ai-handler.js:44 | for a non-empty string with no whitespace at either end, the number of pieces equals the number of maximal non-whitespace runs |
| Analysis.WordCount | netlify/functions/ai-handler.js:44 | the word count is at least 1, and exactly 1 for an all-whitespace input |
| Analysis.WordCountIsRunCount | netlify/functions/ai-handler.js:44 | for an input with a non-whitespace character, the word count equals the number of maximal non-whitespace runs |
| Analysis.WordCountIgnoresPadding | netlify/functions/ai-handler.js:44 | adding leading or trailing whitespace does not change the word count |
| Analysis.WordCountIgnoresRunLength | netlify/functions/ai-handler.js:44 | replacing a whitespace run between two parts by any other non-empty whitespace run does not change the word count |
| Search.OccursMatches | netlify/functions/ai-handler.js:45-46 | the left-to-right scan finds a pattern exactly when the pattern occurs at some index, ignoring ASCII case |
| Search.OccursAnyMatches | netlify/functions/ai-handler.js:45-46 | an alternation of keywords matches exactly when one of its keywords occurs at some index, ignoring ASCII case |
| Analysis.HasNetworkingMatches | netlify/functions/ai-handler.js:45 | the networking test holds exactly when one of network, protocol, dns, tcp, ip, routing, vlan, osi occurs anywhere in the input, ignoring case |
| Analysis.HasSecurityMatches | netlify/functions/ai-handler.js:46 | the security test holds exactly when one of security, ssl, tls, firewall, encryption, hash occurs anywhere in the input, ignoring case |
| Analysis.NetworkingKeywordAnywhere | netlify/functions/ai-handler.js:45 | a networking keyword with any text around it sets off the networking test; no word boundary is needed |
| Analysis.SecurityKeywordAnywhere | netlify/functions/ai-handler.js:46 | a security keyword with any text around it sets off the security test; no word boundary is needed |
| Analysis.ZipMentionsNetworking | netlify/functions/ai-handler.js:45 | "ZIP file" counts as networking, because "ip" matches inside "ZIP" regardless of case |
| Analysis.Topics | netlify/functions/ai-handler.js:55-56 | the topic list is an order-preserving subsequence of [Networking, Security]; it holds Networking exactly when the networking test holds and Security exactly when the security test holds; it has at most two entries and no duplicates |
| Analysis.ValidTopicsCases | netlify/functions/ai-handler.js:55-56 | an order-preserving subsequence of [Networking, Security] is one of the four lists [], [Networking], [Security], [Networking, Security] |
| Analysis.ReportDetects | netlify/functions/ai-handler.js:58-62 | when either keyword test holds, the summary is the "Detected" sentence built from the topic list and the word count; when neither holds, it is the "Generic" sentence with the word count; the two sentences start with different letters, D and G |
| Analysis.SummaryInjective | netlify/functions/ai-handler.js:58-62 | the summary determines the topic list and the word count it was built from: different analyses never share a summary |
| Analysis.ReportCountsRuns | netlify/functions/ai-handler.js:44-62 | for an accepted input, the summary is built from the topics and the number of maximal non-whitespace runs |
| Analysis.Analyze | netlify/functions/ai-handler.js:44-62 | the analysis record built step by step holds the input, its word count, the topic list of the two keyword tests and the summary of the input |
| Decimal.NatToString | netlify/functions/ai-handler.js:59 | a count is rendered as a non-empty digit string, with a leading zero only for zero, and with one digit exactly for counts below ten |
| Decimal.NatToStringRoundTrip | netlify/functions/ai-handler.js:59 | reading the rendered digits back gives the count |
| Decimal.NatToStringInjective | netlify/functions/ai-handler.js:61 | different counts render differently |
| Handler.Respond | netlify/functions/ai-handler.js:15-77 | the status is one of 200, 400, 405, 500; it is 405 exactly when the method is not POST; the payload is a result exactly when the status is 200 |
| Handler.Handle | netlify/functions/ai-handler.js:15-77 | the handler's step-by-step run, including the analysis record it builds, gives the response `Respond` describes |
| Handler.NonPostRejected | netlify/functions/ai-handler.js:17-22 | a method other than POST gets 405 with the "Method not allowed. Use POST." error whatever the body, so the body is never examined |
| Handler.MissingBodyIsEmptyObject | netlify/functions/ai-handler.js:26-34 | a missing body is answered like the empty object; for POST, that answer is 400 with the "No input provided" error |
| Handler.BadRequestExactly | netlify/functions/ai-handler.js:26-34 | for POST, a 400 comes exactly when the body yields no usable text (missing body, missing or falsy input, or whitespace-only text), and it always carries the "No input provided" error |
| Handler.ServerErrorExactly | netlify/functions/ai-handler.js:70-75 | a 500 comes exactly when the body makes the runtime throw (malformed JSON, a null body, a truthy non-string input), and its error is the prefix followed by the thrown message |
| Handler.MalformedBodyIsServerError | netlify/functions/ai-handler.js:24-26 | a body that is not JSON gets 500, not 400, with the parse error's message after the prefix |
| Handler.AcceptedExactly | netlify/functions/ai-handler.js:65-69 | a 200 comes exactly when the method is POST and the input is a string with a non-whitespace character; the result is then the summary of that string |
| Handler.ResultDependsOnlyOnInput | netlify/functions/ai-handler.js:26-27 | for any method, two bodies that read without throwing and whose `body.input \|\| ''` value is the same (including a missing body, an absent or falsy input and the empty string, which all become `''`) get the same answer |
| Scenarios.GetIsRefused | netlify/functions/ai-handler.js:17-22 | a GET request gets 405, whatever its body |
| Scenarios.EmptyInputsAgree | netlify/functions/ai-handler.js:26-27 | a missing body, a falsy `input` and the empty string get the same answer, for any method |
| Scenarios.BlankInputIsRefused | netlify/functions/ai-handler.js:29-34 | the input " \t\n" gets 400 with the "No input provided" error |
| Scenarios.BothTopicsReport | netlify/functions/ai-handler.js:55-59 | "tls ip" is summarised as detecting Networking then Security, with 2 words |
| Scenarios.BothTopicsAccepted | netlify/functions/ai-handler.js:65-69 | a POST carrying "tls ip" gets 200 with that summary as its result |
| Scenarios.GenericReport | netlify/functions/ai-handler.js:61 | "ok" contains no keyword and gets exactly "Generic input with 1 word(s). No networking/security keywords detected." |

## Left out

- JSON parsing and serialisation (`JSON.parse`, `JSON.stringify`). The request body is taken as already parsed into `Body`/`Input`, and the response body is the structured `Payload`, not JSON text.
- The text of a runtime error message. Each throwing case carries its message as an opaque string.
- Any exception from inside the analysis itself, such as running out of memory. The model's analysis cannot throw.
- The `console.error` logging, the `Content-Type` header of the 200 response, the unused `context` argument, the asynchronous calling convention, and every event field other than `httpMethod` and `body`. These are hosting concerns.
- The commented-out alternative results (lines 37-41), because they are dead code.
- The separate proxy handler under `.netlify/functions/ai-handler.js` is not part of this model.
- JavaScript strings are sequences of UTF-16 code units, while here a string is a sequence of Unicode scalar values. Unpaired surrogates cannot be represented. Every whitespace character and keyword lies in the Basic Multilingual Plane, so the word count and the keyword tests are unaffected.
- Decimal.NatToString: renders any natural number in plain decimal. JavaScript uses exponent notation from 10^21 upward, which no count over a string can reach.
