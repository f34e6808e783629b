/**
  The handler's side effects on the response object: three `setHeader`
  calls, then `status(...)` followed by `json(...)` or `end()`.
 */
module Responder {

  import opened Wrappers
  import opened SendEmail

  /** The part of the platform's response object the handler writes to.
      Once the response is finished the platform refuses further writes, so
      every write requires an unfinished response. */
  class ServerResponse {
    var statusCode: int
    var headers: map<string, string>
    var payload: Payload
    var finished: bool

    constructor ()
      ensures statusCode == 200 && headers == map[] && payload == NoContent && !finished
    {
      statusCode, headers, payload, finished := 200, map[], NoContent, false;
    }

    method SetHeader(name: string, value: string)
      requires !finished
      modifies this
      ensures headers == old(headers)[name := value]
      ensures statusCode == old(statusCode) && payload == old(payload) && finished == old(finished)
    {
      headers := headers[name := value];
    }

    method Status(code: int)
      requires !finished
      modifies this
      ensures statusCode == code
      ensures headers == old(headers) && payload == old(payload) && finished == old(finished)
    {
      statusCode := code;
    }

    method Json(body: Payload)
      requires !finished
      modifies this
      ensures payload == body && finished
      ensures statusCode == old(statusCode) && headers == old(headers)
    {
      payload, finished := body, true;
    }

    method End()
      requires !finished
      modifies this
      ensures payload == NoContent && finished
      ensures statusCode == old(statusCode) && headers == old(headers)
    {
      payload, finished := NoContent, true;
    }
  }

  /** Writes the decision of `Handle` onto `res` in the handler's order and
      returns the mail handed to the transport. */
  method Serve(res: ServerResponse, request: Request, config: Config, transport: TransportOutcome)
    returns (dispatched: Option<Mail>)
    requires !res.finished
    modifies res
    ensures res.headers == old(res.headers) + CorsHeaders
    ensures res.statusCode == Handle(request, config, transport).response.status
    ensures res.payload == Handle(request, config, transport).response.payload
    ensures res.finished
    ensures dispatched == Handle(request, config, transport).dispatched
  {
    res.SetHeader("Access-Control-Allow-Origin", "*");
    res.SetHeader("Access-Control-Allow-Methods", "POST, OPTIONS");
    res.SetHeader("Access-Control-Allow-Headers", "Content-Type");
    var x := Handle(request, config, transport);
    res.Status(x.response.status);
    if x.response.payload == NoContent {
      res.End();
    } else {
      res.Json(x.response.payload);
    }
    dispatched := x.dispatched;
  }
}
