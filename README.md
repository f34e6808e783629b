# Contact-form mail relay: a Dafny model of the request handler

The repository relays a website's contact form to an administrator by mail.
Its only logic is the serverless handler in `api/send-email.js`: it answers
CORS preflight requests, rejects methods other than POST, validates the four
form fields (name, email, subject, message) in a fixed order, checks that
the three secrets GMAIL_USER, GMAIL_PASS and ADMIN_EMAIL are set, composes
the mail (recipient the administrator, reply-to the visitor, the message
with line feeds rendered as `<br>`), hands it to the mail transport and
turns the transport's answer into an HTTP response.

This project models that handler and proves what it promises.

- `wrappers.dfy` (`Wrappers`): `Option`, for absent fields, secrets and error codes.
- `email_format.dfy` (`EmailFormat`): `isValidEmail`. The regular expression
  `^[^\s@]+@[^\s@]+\.[^\s@]+$` is implemented as a small deterministic
  automaton (`Step`, `Run`, `IsValidEmail`). It is proved equal to the
  expression read as a language, with backtracking over where the `@` and
  the separating `.` fall (`EmailPattern`). It is also proved equal to a
  character-by-character description (`HasEmailShape`).
  `\s` is ECMAScript's set of WhiteSpace and LineTerminator code points.
  The run after the separating `.` excludes `@` as well as whitespace, as
  the code's `[^\s@]+` says, so `a@b.c@d` is rejected.
- `js_string.dfy` (`JsString`): JavaScript's `length`, counted in UTF-16 code units.
- `html.dfy` (`Html`): `message.replace(/\n/g, '<br>')` as `NewlineToBr`,
  with its reverse reading `BrToNewline` and a round-trip proof.
- `send_email.dfy` (`SendEmail`): the handler as a total function `Handle`.
  It takes the request (method and optional body), the configuration and the
  transport's answer. It returns the response (status, headers, JSON payload)
  and the mail handed to the transport, if any. Lemmas state the check order
  and each outcome.
- `responder.dfy` (`Responder`): the handler's writes to the platform's
  response object (`setHeader` three times, then `status` with `json` or
  `end`). These are a small class, and `Serve` performs them so that the
  object ends up holding `Handle`'s decision.

Modelling choices:

- A field is `Option<string>`. `None` is an absent field, and `Truthy` treats
  `Some("")` as missing, as JavaScript's `!name` does. The body is itself
  optional. `None` stands for a request without a body, and for a JSON
  `null` body. Destructuring either throws a TypeError with no `code`, so
  the request gets the generic 500 of the `catch` block. A body that is a
  JSON number, string, boolean or array does not throw: destructuring it
  yields four `undefined` fields. It is modelled as
  `Some(Fields(None, None, None, None))`, which gets the 400
  missing-fields reply.
- The configuration is an explicit parameter instead of `process.env`. It is
  still read only when a request is handled.
- The transport is a parameter `TransportOutcome`: delivered with a message
  id, or failed with an optional error code.
- Lengths are JavaScript's UTF-16 code-unit counts (`Utf16Length`). Dafny's
  `char` is a Unicode scalar value, so a character above U+FFFF counts 2.
  The email pattern does not depend on this. A surrogate pair is two
  characters of `[^\s@]` in JavaScript and one here, and every run in the
  pattern only needs at least one such character.

## Model

| member | source | states |
|---|---|---|
| `EmailFormat.IsValidEmail` | api/send-email.js:4-7 | the hand-written matcher accepts a string iff the regular expression `^[^\s@]+@[^\s@]+\.[^\s@]+$` matches it, with any `@`/`.` split the regex engine may backtrack to |
| `EmailFormat.IsValidEmailShape` | api/send-email.js:4-7 | `isValidEmail(s)` iff `s` has no `\s` character, exactly one `@`, a non-empty part before it, and after it a `.` that is neither the first nor the last character of the part after the `@` |
| `EmailFormat.RunDecides` | api/send-email.js:5-6 | from every matcher state, the run ends in Accept exactly on that state's language (the invariant of the regex test) |
| `EmailFormat.StepPreservesLanguage` | api/send-email.js:5 | reading one character moves to the state whose language is what remains of the current state's language |
| `JsString.Utf16Length` | api/send-email.js:47 | `.length` lies between the number of characters and twice it, and equals it when every character is in the Basic Multilingual Plane |
| `JsString.Utf16LengthAppend` | api/send-email.js:47 | `.length` of a concatenation is the sum of the two lengths, so it is the sum of each character's 1 or 2 code units |
| `Html.NewlineToBr` | api/send-email.js:115 | the HTML fragment contains no line feed, and it equals the message when the message had none |
| `Html.NewlineToBrLength` | api/send-email.js:115 | the fragment is exactly 3 characters longer than the message per line feed (each `\n` becomes the 4 characters `<br>`, nothing else changes length) |
| `Html.BrToNewline` | api/send-email.js:115 | no counterpart in the source: a reference reading of the fragment (each `<br>` back to a line feed), used only by the round-trip proof; it never lengthens a string and leaves a string without `<br>` unchanged |
| `Html.LineFeedAndTagRenderAlike` | api/send-email.js:115 | why the round trip needs its precondition: a line feed and a literal `<br>` in the message render to the same fragment, since the message is interpolated without escaping |
| `Html.NewlineToBrRoundTrip` | api/send-email.js:115 | when the message holds no literal `<br>`, reading each `<br>` of the fragment back as a line feed gives the message again |
| `SendEmail.ComposeMail` | api/send-email.js:76-132 | the mail goes to ADMIN_EMAIL and replies to the visitor's address; its HTML message has no line feed, equals the message when that had none, and is 3 characters longer per line feed |
| `SendEmail.FailureResponse` | api/send-email.js:145-164 | a thrown error always gives 500 with an error payload and the CORS headers; the authentication message iff the code is EAUTH, the connection message iff it is ECONNECTION, otherwise "Failed to send email…" |
| `SendEmail.DeliveryResponse` | api/send-email.js:135-143 | the status is 200 iff the transport delivered, and then the payload is `{success: true, message: "Email sent successfully!", messageId}` with the transport's id; a failure gives 500 with an error payload |
| `SendEmail.HandleSubmission` | api/send-email.js:28-164 | the mail is dispatched iff the fields pass the three input checks and the configuration is complete, and then the response is the transport's answer; otherwise the response is a 400 or 500 error; a dispatched mail goes to ADMIN_EMAIL, replies to the visitor, and carries the rendered message |
| `SendEmail.Handle` | api/send-email.js:10-165 | every response carries the three CORS headers; its status is 200, 400, 405 or 500; its payload is an error exactly when the status is not 200; a dispatched mail goes to ADMIN_EMAIL, replies to the visitor's email, and has an HTML message with no line feed that equals the message when it had none |
| `SendEmail.PreflightAlwaysSucceeds` | api/send-email.js:16-19 | OPTIONS yields 200 with no body, whatever the body, configuration or transport, and no mail is dispatched |
| `SendEmail.OtherMethodsRejected` | api/send-email.js:21-26 | any method other than OPTIONS and POST yields 405 "Method not allowed…", regardless of the body, and no mail |
| `SendEmail.MissingBodyFailsGenerically` | api/send-email.js:28-30 | a POST without a body yields the generic 500 "Failed to send email…" of the `catch` block, and no mail |
| `SendEmail.MissingFieldsCheckedFirst` | api/send-email.js:32-37 | if any of the four fields is absent or empty, the response is 400 "Missing required fields…" whatever else holds, and no mail |
| `SendEmail.InvalidEmailCheckedSecond` | api/send-email.js:39-44 | with all fields present, a malformed address yields 400 "Invalid email format." whatever the lengths and configuration, and no mail |
| `SendEmail.LengthCheckedThird` | api/send-email.js:46-51 | with all fields present and a valid address, the response is 400 "Field length exceeded…" iff name > 100, subject > 200 or message > 2000 code units (the limits themselves pass); an exceeded limit dispatches no mail |
| `SendEmail.ConfigurationCheckedFourth` | api/send-email.js:53-64 | a valid submission with any secret absent or empty yields 500 with the fixed configuration message, whatever the transport, and no mail |
| `SendEmail.DeliveryOutcomes` | api/send-email.js:134-164 | a valid submission with complete configuration dispatches exactly the composed mail; delivery with id m gives 200 `{success: true, message: "Email sent successfully!", messageId: m}`; EAUTH gives the authentication message, ECONNECTION the connection message, any other code 500 "Failed to send email…" |
| `SendEmail.DispatchIffAllChecksPass` | api/send-email.js:17-135 | the transport is reached iff the method is POST, a body is present, the fields pass the three input checks, and the configuration is complete |
| `SendEmail.TransportIrrelevantWithoutDispatch` | api/send-email.js:17-64 | when no mail is dispatched, the transport's answer does not affect the result |
| `SendEmail.ResponseRevealsNoConfiguration` | api/send-email.js:53-64 | for the same transport answer, the response depends on the configuration only through its completeness, so the handler itself writes no secret into it |
| `Responder.ServerResponse.SetHeader` | api/send-email.js:12-14 | on an unfinished response, sets one header and changes nothing else |
| `Responder.ServerResponse.Status` | api/send-email.js:18 | on an unfinished response, sets the status code and changes nothing else |
| `Responder.ServerResponse.Json` | api/send-email.js:23-25 | writes the JSON payload and finishes the response, keeping status and headers |
| `Responder.ServerResponse.End` | api/send-email.js:18 | finishes the response with no body, keeping status and headers |
| `Responder.Serve` | api/send-email.js:10-26 | after the handler's writes, the response object holds the three CORS headers on top of the earlier ones, `Handle`'s status and payload, and is finished; the mail returned is the one `Handle` dispatches |

## Left out

- `index.js` (the standalone server) is not part of this model. It covers
  routing (404 "Not found" for other paths), buffering the body,
  `JSON.parse` with its 400 "Invalid JSON body", the port and signal
  handling. Only one of its effects is kept: an empty body leaves
  `req.body` unset (the optional body above). The handler uses the
  `status()`/`json()` helpers of the serverless platform's response object.
  Node's plain `http.ServerResponse` has no such methods, so under
  `index.js` those calls would throw. That server is not modelled.
- `test-email.js` is a manual smoke test over the network and has no logic.
- How the transport's answer depends on the credentials is not constrained.
  Wrong GMAIL_USER or GMAIL_PASS values make `sendMail` fail with EAUTH,
  and the message id it returns is the transport's own. `TransportOutcome`
  is an unconstrained parameter, so the model says nothing about either.
- Field values holding a lone UTF-16 surrogate (for example from
  `JSON.parse('"\ud800"')`) cannot be represented. Dafny's `string` holds
  Unicode scalar values only. In JavaScript such a unit counts 1 toward
  `.length` and matches `[^\s@]`.
- `nodemailer.createTransport` and `sendMail` are a foreign library and
  network I/O. The outcome of `sendMail` is the parameter
  `TransportOutcome`. An error thrown by `createTransport` reaches the
  same `catch` block before any mail is built or sent. Choosing the
  matching `Failed` outcome gives the right response only: the model
  still reports the composed mail as dispatched in that case, although
  the source never hands it to `sendMail`.
- Most of the mail templates are not modelled: the plain-text body, the
  styling and copy of the HTML body, and `new Date().toLocaleString()`,
  which depends on the clock and locale. `Mail` keeps the sender line, the
  recipient, the subject line, the reply-to address and the HTML rendering
  of the message.
- `console.log` and `console.error` logging.
- Field values that are not strings (numbers, booleans, objects, arrays).
  `Fields` holds strings only. In JavaScript a truthy number, boolean or
  object passes the missing-field test, its `.length` is `undefined` (an
  array's counts elements), and the regex test coerces the email to a
  string first.
- The `Content-Type` header that the platform's `json()` adds. Case-insensitive
  header names are not modelled either: `headers` is a plain map.
- Concurrency between requests. The handler shares no state between them.
