/**
 * The server set-up: the one route, the response filters, the fixed error
 * pages and the exception handlers, composed in the order the web framework
 * runs them for a request.
 */
module Server {
  import opened Wrappers
  import opened Exceptions
  import opened SpaceController

  // Status codes, with their sections of RFC 9110.
  const Ok: int := 200                   // section 15.3.1
  const CreatedStatus: int := 201        // section 15.3.2
  const BadRequest: int := 400           // section 15.5.1
  const NotFound: int := 404             // section 15.5.5
  const InternalServerError: int := 500  // section 15.6.1

  const JsonType := "application/json"
  const InternalErrorBody := "{\"error\":\"internal server error\"}"
  const NotFoundBody := "{\"error\":\"not found\"}"
  const ErrorPrefix := "{\"error\": \""
  const ErrorSuffix := "\"}"

  /** One header line; a response may carry several with the same name. */
  datatype Header = Header(name: string, value: string)

  datatype Body =
    | Unset                                    // no body has been set yet
    | Literal(text: string)                    // a body set as literal text
    | JsonFields(fields: map<string, string>)  // a JSON object returned by the route

  datatype Response = Response(status: int, contentType: Option<string>, headers: seq<Header>, body: Body)

  datatype HttpRequest = HttpRequest(verb: string, path: string, body: Request)

  /** The store after a request and the response sent for it. */
  datatype Exchange = Exchange(store: Store, response: Response)

  /** All values of the header `name`, in the order they were added. */
  function ValuesOf(headers: seq<Header>, name: string): (vs: seq<string>)
    ensures |vs| <= |headers|
    ensures forall v :: v in vs <==> exists i :: 0 <= i < |headers| && headers[i].name == name && headers[i].value == v
  {
    if headers == [] then []
    else
      var rest := ValuesOf(headers[1..], name);
      assert forall i :: 1 <= i < |headers| ==> headers[1..][i - 1] == headers[i];
      if headers[0].name == name then [headers[0].value] + rest else rest
  }

  lemma {:induction false} ValuesOfAppend(hs: seq<Header>, extra: seq<Header>, name: string)
    ensures ValuesOf(hs + extra, name) == ValuesOf(hs, name) + ValuesOf(extra, name)
    decreases |hs|
  {
    if hs == [] {
      assert hs + extra == extra;
    } else {
      assert (hs + extra)[0] == hs[0];
      assert (hs + extra)[1..] == hs[1..] + extra;
      ValuesOfAppend(hs[1..], extra, name);
    }
  }

  /** The body `badRequest` writes: the exception's message, unescaped, between fixed text. */
  function BadRequestBody(message: string): string {
    ErrorPrefix + message + ErrorSuffix
  }

  /** Recovers the message from a body shaped like `BadRequestBody`. */
  function ErrorMessageOf(body: string): Option<string> {
    if |body| >= |ErrorPrefix| + |ErrorSuffix|
       && body[..|ErrorPrefix|] == ErrorPrefix
       && body[|body| - |ErrorSuffix|..] == ErrorSuffix
    then Some(body[|ErrorPrefix|..|body| - |ErrorSuffix|])
    else None
  }

  /** The message is carried verbatim: reading it back out of the body gives it exactly. */
  lemma BadRequestBodyRoundTrip(message: string)
    ensures ErrorMessageOf(BadRequestBody(message)) == Some(message)
  {
  }

  /**
   * The registered exception handlers applied to the response as it stood
   * when `e` was thrown. The 404 handler sets only the status; an exception
   * without a handler becomes the registered internal-server-error page.
   */
  function OnException(e: Exception, r: Response): (out: Response)
    ensures out.headers == r.headers && out.contentType == r.contentType
    ensures (e.IllegalArgument? || e.Json?)
            ==> out.status == BadRequest && out.body.Literal? && ErrorMessageOf(out.body.text) == Some(e.message)
    ensures e.EmptyResult? ==> out.status == NotFound && out.body == r.body
    ensures e.Unhandled? ==> out.status == InternalServerError && out.body == Literal(InternalErrorBody)
  {
    match e
    case IllegalArgument(msg) =>
      BadRequestBodyRoundTrip(msg);
      r.(status := BadRequest, body := Literal(BadRequestBody(msg)))
    case Json(msg) =>
      BadRequestBodyRoundTrip(msg);
      r.(status := BadRequest, body := Literal(BadRequestBody(msg)))
    case EmptyResult => r.(status := NotFound)
    case Unhandled(_) => r.(status := InternalServerError, body := Literal(InternalErrorBody))
  }

  /** Both 400 handlers produce the same response for the same message: the
      exception's class never shows, and neither does an internal message. */
  lemma ErrorResponsesHideExceptionDetails(m1: string, m2: string, r: Response)
    ensures OnException(IllegalArgument(m1), r) == OnException(Json(m1), r)
    ensures OnException(Unhandled(m1), r) == OnException(Unhandled(m2), r)
  {
  }

  /** The `after` filter: runs once a route has completed normally. */
  function AfterRoute(r: Response): (out: Response)
    ensures out.contentType == Some(JsonType)
    ensures out.(contentType := r.contentType) == r
  {
    r.(contentType := Some(JsonType))
  }

  /** The two `afterAfter` filters, in registration order: an empty `Server`
      header, then `X-XSS-Protection: 0`. Headers are added, never replaced. */
  function Harden(r: Response): (out: Response)
    ensures out.status == r.status && out.contentType == r.contentType && out.body == r.body
    ensures |out.headers| == |r.headers| + 2 && out.headers[..|r.headers|] == r.headers
    ensures ValuesOf(out.headers, "Server") == ValuesOf(r.headers, "Server") + [""]
    ensures ValuesOf(out.headers, "X-XSS-Protection") == ValuesOf(r.headers, "X-XSS-Protection") + ["0"]
    ensures forall n :: n != "Server" && n != "X-XSS-Protection" ==> ValuesOf(out.headers, n) == ValuesOf(r.headers, n)
  {
    var added := [Header("Server", ""), Header("X-XSS-Protection", "0")];
    forall n
      ensures ValuesOf(r.headers + added, n) == ValuesOf(r.headers, n) + ValuesOf(added, n)
      ensures n != "Server" && n != "X-XSS-Protection" ==> ValuesOf(r.headers + added, n) == ValuesOf(r.headers, n)
    {
      ValuesOfAppend(r.headers, added, n);
      assert added[1..][1..] == [];
      assert ValuesOf(added, n) == (if n == "Server" then [""] else [])
                                   + (if n == "X-XSS-Protection" then ["0"] else []);
      assert ValuesOf(r.headers, n) + [] == ValuesOf(r.headers, n);
    }
    r.(headers := r.headers + added)
  }

  /** A response nobody gave a body becomes the registered not-found page. */
  function FillUnsetBody(r: Response): (out: Response)
    ensures out.body != Unset
    ensures out.headers == r.headers && out.contentType == r.contentType
    ensures r.body != Unset ==> out == r
    ensures r.body == Unset ==> out.status == NotFound && out.body == Literal(NotFoundBody)
  {
    if r.body == Unset then r.(status := NotFound, body := Literal(NotFoundBody)) else r
  }

  predicate IsCreateSpaceRoute(verb: string, path: string) {
    verb == "POST" && path == "/spaces"
  }

  /**
   * One request through the server: route (or none), the `after` filter when
   * the route completes normally, the exception handlers when it throws, the
   * not-found page for an unset body, and finally the `afterAfter` filters.
   */
  function Handle(st: Store, req: HttpRequest): (x: Exchange)
    requires st.Valid()
    ensures x.store.Valid()
    ensures ValuesOf(x.response.headers, "Server") == [""]
    ensures ValuesOf(x.response.headers, "X-XSS-Protection") == ["0"]
    ensures x.response.status in {CreatedStatus, BadRequest, NotFound}
    ensures x.response.status == CreatedStatus
            <==> IsCreateSpaceRoute(req.verb, req.path) && Acceptable(req.body)
    ensures x.response.status != CreatedStatus ==> x.store == st && ValuesOf(x.response.headers, "Location") == []
    ensures x.response.status == BadRequest ==> x.response.contentType == None
    ensures IsCreateSpaceRoute(req.verb, req.path) && !Acceptable(req.body)
            ==> x.response.status == BadRequest
                && x.response.body == Literal(BadRequestBody(CreateSpace(st, req.body).outcome.error.message))
    ensures !IsCreateSpaceRoute(req.verb, req.path)
            ==> x.response.status == NotFound && x.response.body == Literal(NotFoundBody)
    ensures x.response.status == CreatedStatus ==>
              && x.response.contentType == Some(JsonType)
              && x.response.body.JsonFields?
              && x.response.body.fields.Keys == {"name", "uri"}
              && ValuesOf(x.response.headers, "Location") == [x.response.body.fields["uri"]]
              && x.response.body.fields["name"] == req.body.name.value
              && var id := SpaceIdOf(x.response.body.fields["uri"]);
                 id.Some? && id.value == st.nextId && id.value !in st.spaces
                 && x.response.body.fields["uri"] == SpaceUri(id.value)
                 && x.store.spaces == st.spaces[id.value := Space(req.body.name.value, req.body.owner.value)]
  {
    var initial := Response(Ok, None, [], Unset);
    if !IsCreateSpaceRoute(req.verb, req.path) then
      Exchange(st, Harden(FillUnsetBody(AfterRoute(initial))))
    else
      var step := CreateSpace(st, req.body);
      match step.outcome
      case Success(c) =>
        var routed := Response(CreatedStatus, None, [Header("Location", c.location)], JsonFields(c.body));
        Exchange(step.store, Harden(FillUnsetBody(AfterRoute(routed))))
      case Failure(e) =>
        Exchange(step.store, Harden(FillUnsetBody(OnException(e, initial))))
  }

  /** Every response, success or error, carries the same hardening headers. */
  lemma HardeningIsUniform(st1: Store, req1: HttpRequest, st2: Store, req2: HttpRequest)
    requires st1.Valid() && st2.Valid()
    ensures var h1 := Handle(st1, req1).response.headers;
            var h2 := Handle(st2, req2).response.headers;
            && ValuesOf(h1, "Server") == ValuesOf(h2, "Server")
            && ValuesOf(h1, "X-XSS-Protection") == ValuesOf(h2, "X-XSS-Protection")
  {
  }
}
