/**
  The contact-form handler of api/send-email.js as a total function: one
  request, the configuration and what the mail transport would answer go in;
  the HTTP response and the mail handed to the transport (if any) come out.
 */
module SendEmail {

  import opened Wrappers
  import opened EmailFormat
  import opened Html
  import opened JsString

  /** The four body fields; `None` is a field the JSON body does not have. */
  datatype Fields = Fields(name: Option<string>, email: Option<string>, subject: Option<string>, message: Option<string>)

  /** `body` is `None` when the request carried no body (`req.body` unset). */
  datatype Request = Request(httpMethod: string, body: Option<Fields>)

  /** The environment variables GMAIL_USER, GMAIL_PASS and ADMIN_EMAIL. */
  datatype Config = Config(gmailUser: Option<string>, gmailPass: Option<string>, adminEmail: Option<string>)

  /** What `transporter.sendMail` does with the mail: resolve with a message
      id, or reject with an error whose `code` may be missing. */
  datatype TransportOutcome = Delivered(messageId: string) | Failed(code: Option<string>)

  /** The parts of the mail options the model keeps: the sender line, the
      recipient, the subject line, the reply-to address and the HTML
      rendering of the visitor's message. */
  datatype Mail = Mail(from: string, to: string, subject: string, replyTo: string, messageHtml: string)

  /** The JSON body of a response: none (`end()`), `{error}` or
      `{success, message, messageId}`. */
  datatype Payload =
    | NoContent
    | ErrorMessage(error: string)
    | Sent(success: bool, message: string, messageId: string)

  datatype Response = Response(status: int, headers: map<string, string>, payload: Payload)

  /** The response, and the mail the handler handed to the transport. */
  datatype Exchange = Exchange(response: Response, dispatched: Option<Mail>)

  const NameLimit := 100
  const SubjectLimit := 200
  const MessageLimit := 2000

  const MethodNotAllowedError := "Method not allowed. Only POST requests are supported."
  const MissingFieldsError := "Missing required fields. Please provide name, email, subject, and message."
  const InvalidEmailError := "Invalid email format."
  const LengthExceededError := "Field length exceeded. Name: 100 chars, Subject: 200 chars, Message: 2000 chars max."
  const ConfigurationError := "Server configuration error. Please try again later."
  const AuthenticationError := "Authentication failed. Please check email credentials."
  const ConnectionError := "Connection failed. Please check your internet connection."
  const SendFailedError := "Failed to send email. Please try again later."
  const SuccessMessage := "Email sent successfully!"

  const CorsHeaders: map<string, string> := map[
    "Access-Control-Allow-Origin" := "*",
    "Access-Control-Allow-Methods" := "POST, OPTIONS",
    "Access-Control-Allow-Headers" := "Content-Type"
  ]

  /** JavaScript truthiness of a string-valued field: present and not "". */
  predicate Truthy(f: Option<string>) {
    f.Some? && f.value != ""
  }

  predicate HasAllFields(f: Fields) {
    Truthy(f.name) && Truthy(f.email) && Truthy(f.subject) && Truthy(f.message)
  }

  predicate ExceedsLimits(f: Fields)
    requires HasAllFields(f)
  {
    || Utf16Length(f.name.value) > NameLimit
    || Utf16Length(f.subject.value) > SubjectLimit
    || Utf16Length(f.message.value) > MessageLimit
  }

  /** The submission passes the three input checks. */
  predicate SubmissionValid(f: Fields) {
    HasAllFields(f) && IsValidEmail(f.email.value) && !ExceedsLimits(f)
  }

  predicate ConfigComplete(c: Config) {
    Truthy(c.gmailUser) && Truthy(c.gmailPass) && Truthy(c.adminEmail)
  }

  function Reply(status: int, payload: Payload): Response {
    Response(status, CorsHeaders, payload)
  }

  /** The mail options: addressed to the administrator, with replies going
      to the visitor, and the message rendered without line feeds. */
  function ComposeMail(f: Fields, c: Config): (m: Mail)
    requires HasAllFields(f) && ConfigComplete(c)
    ensures m.to == c.adminEmail.value && m.replyTo == f.email.value
    ensures '\n' !in m.messageHtml
    ensures '\n' !in f.message.value ==> m.messageHtml == f.message.value
    ensures |m.messageHtml| == |f.message.value| + 3 * multiset(f.message.value)['\n']
  {
    NewlineToBrLength(f.message.value);
    Mail(
      "\"Website Contact Form\" <" + c.gmailUser.value + ">",
      c.adminEmail.value,
      "\U{1F514} New Contact: " + f.name.value + " sent you a message - \"" + f.subject.value + "\"",
      f.email.value,
      NewlineToBr(f.message.value))
  }

  /** The `catch` block: classify the thrown error by its `code`. */
  function FailureResponse(code: Option<string>): (r: Response)
    ensures r.status == 500 && r.headers == CorsHeaders && r.payload.ErrorMessage?
    ensures r.payload.error == AuthenticationError <==> code == Some("EAUTH")
    ensures r.payload.error == ConnectionError <==> code == Some("ECONNECTION")
    ensures r.payload.error in {AuthenticationError, ConnectionError, SendFailedError}
  {
    if code == Some("EAUTH") then Reply(500, ErrorMessage(AuthenticationError))
    else if code == Some("ECONNECTION") then Reply(500, ErrorMessage(ConnectionError))
    else Reply(500, ErrorMessage(SendFailedError))
  }

  /** The answer once the mail has been handed to the transport. */
  function DeliveryResponse(t: TransportOutcome): (r: Response)
    ensures r.headers == CorsHeaders
    ensures r.status == 200 <==> t.Delivered?
    ensures t.Delivered? ==> r.payload == Sent(true, SuccessMessage, t.messageId)
    ensures t.Failed? ==> r.status == 500 && r.payload.ErrorMessage?
  {
    match t
    case Delivered(id) => Reply(200, Sent(true, SuccessMessage, id))
    case Failed(code) => FailureResponse(code)
  }

  /** The validation chain and dispatch for a POST that has a body. */
  function HandleSubmission(f: Fields, config: Config, transport: TransportOutcome): (x: Exchange)
    ensures x.response.headers == CorsHeaders
    ensures x.dispatched.Some? <==> SubmissionValid(f) && ConfigComplete(config)
    ensures x.dispatched.None? ==> x.response.status in {400, 500} && x.response.payload.ErrorMessage?
    ensures x.dispatched.Some? ==> x.response == DeliveryResponse(transport)
    ensures x.dispatched.Some? ==>
      && HasAllFields(f) && ConfigComplete(config)
      && x.dispatched.value.to == config.adminEmail.value
      && x.dispatched.value.replyTo == f.email.value
      && x.dispatched.value.messageHtml == NewlineToBr(f.message.value)
  {
    if !HasAllFields(f) then Exchange(Reply(400, ErrorMessage(MissingFieldsError)), None)
    else if !IsValidEmail(f.email.value) then Exchange(Reply(400, ErrorMessage(InvalidEmailError)), None)
    else if ExceedsLimits(f) then Exchange(Reply(400, ErrorMessage(LengthExceededError)), None)
    else if !ConfigComplete(config) then Exchange(Reply(500, ErrorMessage(ConfigurationError)), None)
    else Exchange(DeliveryResponse(transport), Some(ComposeMail(f, config)))
  }

  /** The exported handler. A POST without a body fails when the handler
      destructures `req.body`; the TypeError has no `code`, so it reaches
      the generic branch of the `catch` block. */
  function Handle(request: Request, config: Config, transport: TransportOutcome): (x: Exchange)
    ensures x.response.headers == CorsHeaders
    ensures x.response.status in {200, 400, 405, 500}
    ensures x.response.payload.ErrorMessage? <==> x.response.status != 200
    ensures x.dispatched.Some? ==>
      && request.body.Some? && HasAllFields(request.body.value) && ConfigComplete(config)
      && x.dispatched.value.to == config.adminEmail.value
      && x.dispatched.value.replyTo == request.body.value.email.value
      && '\n' !in x.dispatched.value.messageHtml
      && ('\n' !in request.body.value.message.value ==>
            x.dispatched.value.messageHtml == request.body.value.message.value)
  {
    if request.httpMethod == "OPTIONS" then Exchange(Reply(200, NoContent), None)
    else if request.httpMethod != "POST" then Exchange(Reply(405, ErrorMessage(MethodNotAllowedError)), None)
    else match request.body
      case None => Exchange(FailureResponse(None), None)
      case Some(f) => HandleSubmission(f, config, transport)
  }

  /** A preflight request is answered 200 with an empty body, whatever its
      body, the configuration or the transport, and nothing is sent. */
  lemma PreflightAlwaysSucceeds(body: Option<Fields>, config: Config, transport: TransportOutcome)
    ensures Handle(Request("OPTIONS", body), config, transport)
         == Exchange(Response(200, CorsHeaders, NoContent), None)
  {
  }

  /** Every method other than OPTIONS and POST gets 405, whatever the body. */
  lemma OtherMethodsRejected(request: Request, config: Config, transport: TransportOutcome)
    requires request.httpMethod != "OPTIONS" && request.httpMethod != "POST"
    ensures Handle(request, config, transport)
         == Exchange(Response(405, CorsHeaders, ErrorMessage(MethodNotAllowedError)), None)
  {
  }

  /** A POST without a body ends in the generic 500 of the `catch` block. */
  lemma MissingBodyFailsGenerically(config: Config, transport: TransportOutcome)
    ensures Handle(Request("POST", None), config, transport)
         == Exchange(Response(500, CorsHeaders, ErrorMessage(SendFailedError)), None)
  {
  }

  /** Check 1: a missing or empty field decides the response, whatever the
      other fields, the configuration and the transport. */
  lemma MissingFieldsCheckedFirst(f: Fields, config: Config, transport: TransportOutcome)
    requires !HasAllFields(f)
    ensures Handle(Request("POST", Some(f)), config, transport)
         == Exchange(Response(400, CorsHeaders, ErrorMessage(MissingFieldsError)), None)
  {
  }

  /** Check 2: with all fields present, a malformed address decides the
      response, whatever the lengths, the configuration and the transport. */
  lemma InvalidEmailCheckedSecond(f: Fields, config: Config, transport: TransportOutcome)
    requires HasAllFields(f) && !IsValidEmail(f.email.value)
    ensures Handle(Request("POST", Some(f)), config, transport)
         == Exchange(Response(400, CorsHeaders, ErrorMessage(InvalidEmailError)), None)
  {
  }

  /** Check 3: with all fields present and a well-formed address, the
      response is the length error exactly when a limit is exceeded; the
      limits themselves (100, 200, 2000 code units) are allowed. */
  lemma LengthCheckedThird(f: Fields, config: Config, transport: TransportOutcome)
    requires HasAllFields(f) && IsValidEmail(f.email.value)
    ensures Handle(Request("POST", Some(f)), config, transport).response
              == Response(400, CorsHeaders, ErrorMessage(LengthExceededError))
            <==> Utf16Length(f.name.value) > 100 || Utf16Length(f.subject.value) > 200
                 || Utf16Length(f.message.value) > 2000
    ensures ExceedsLimits(f) ==> Handle(Request("POST", Some(f)), config, transport).dispatched == None
  {
  }

  /** Check 4: a valid submission with a missing secret gets the fixed
      configuration error, whatever the transport. */
  lemma ConfigurationCheckedFourth(f: Fields, config: Config, transport: TransportOutcome)
    requires SubmissionValid(f) && !ConfigComplete(config)
    ensures Handle(Request("POST", Some(f)), config, transport)
         == Exchange(Response(500, CorsHeaders, ErrorMessage(ConfigurationError)), None)
  {
  }

  /** Step 5: a valid submission with complete configuration is handed to
      the transport, and the transport's answer decides the response. */
  lemma DeliveryOutcomes(f: Fields, config: Config, transport: TransportOutcome)
    requires SubmissionValid(f) && ConfigComplete(config)
    ensures Handle(Request("POST", Some(f)), config, transport).dispatched == Some(ComposeMail(f, config))
    ensures transport.Delivered? ==>
      Handle(Request("POST", Some(f)), config, transport).response
        == Response(200, CorsHeaders, Sent(true, "Email sent successfully!", transport.messageId))
    ensures transport == Failed(Some("EAUTH")) ==>
      Handle(Request("POST", Some(f)), config, transport).response
        == Response(500, CorsHeaders, ErrorMessage(AuthenticationError))
    ensures transport == Failed(Some("ECONNECTION")) ==>
      Handle(Request("POST", Some(f)), config, transport).response
        == Response(500, CorsHeaders, ErrorMessage(ConnectionError))
    ensures transport.Failed? && transport.code != Some("EAUTH") && transport.code != Some("ECONNECTION") ==>
      Handle(Request("POST", Some(f)), config, transport).response
        == Response(500, CorsHeaders, ErrorMessage(SendFailedError))
  {
  }

  /** The transport is reached exactly when every earlier check passes. */
  lemma DispatchIffAllChecksPass(request: Request, config: Config, transport: TransportOutcome)
    ensures Handle(request, config, transport).dispatched.Some?
        <==> && request.httpMethod == "POST"
             && request.body.Some?
             && SubmissionValid(request.body.value)
             && ConfigComplete(config)
  {
  }

  /** When nothing is handed to the transport, its answer cannot matter. */
  lemma TransportIrrelevantWithoutDispatch(request: Request, config: Config, t1: TransportOutcome, t2: TransportOutcome)
    requires Handle(request, config, t1).dispatched.None?
    ensures Handle(request, config, t1) == Handle(request, config, t2)
  {
  }

  /** For the same transport answer, the response depends on the
      configuration only through its completeness, so the handler itself
      writes no secret into it. */
  lemma ResponseRevealsNoConfiguration(request: Request, c1: Config, c2: Config, transport: TransportOutcome)
    requires ConfigComplete(c1) == ConfigComplete(c2)
    ensures Handle(request, c1, transport).response == Handle(request, c2, transport).response
  {
  }
}
