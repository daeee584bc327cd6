/** The CORS proxy in front of the aviation weather data service: which
    browser origins may use it, which requests it answers itself and with
    which status, what it forwards, and the headers it adds to the answer.
    Header names are compared without regard to case, so they are kept in
    lower case throughout, as a `Headers` object reports them. */
module Worker {
  import opened Wrappers
  import opened Text

  const UpstreamOrigin: string := "https://aviationweather.gov"
  const ApiPrefix: string := "/api/data/"

  /** The browser origins the proxy serves. */
  predicate AllowedOrigin(o: string) {
    o == "https://hydrospheric0.github.io" || o == "http://localhost:5173" || o == "http://127.0.0.1:5173"
  }

  type Headers = map<string, string>

  /** `headers.get(name)` for a lower-case name; `None` is `null`. */
  function Get(h: Headers, name: string): Option<string> {
    if name in h then Some(h[name]) else None
  }

  /** An incoming request: its normalised method (`verb`), the path and query of its
      URL (the query with its `?`, or empty), and its headers. */
  datatype Request = Request(verb: string, pathname: string, search: string, headers: Headers)

  datatype Body = Text(text: string) | NoBody | Passed(upstream: string)

  datatype Response = Response(status: int, body: Body, headers: Headers)

  /** The request sent upstream. */
  datatype UpstreamRequest = UpstreamRequest(url: string, verb: string, headers: Headers)

  /** `getAllowedOrigin(request)`: the request's origin when it is on the
      allowlist, else `None`. */
  function GetAllowedOrigin(req: Request): (r: Option<string>)
    ensures r.Some? <==> Get(req.headers, "origin").Some? && AllowedOrigin(Get(req.headers, "origin").value)
    ensures r.Some? ==> r == Get(req.headers, "origin")
  {
    match Get(req.headers, "origin")
    case None => None
    case Some(o) => if o == "" then None else if AllowedOrigin(o) then Some(o) else None
  }

  /** `corsHeaders(request)` */
  function CorsHeaders(req: Request): Headers {
    map["access-control-allow-origin" := GetAllowedOrigin(req).GetOr("null"),
        "access-control-allow-methods" := "GET,HEAD,OPTIONS",
        "access-control-allow-headers" := Get(req.headers, "access-control-request-headers").GetOr("Content-Type"),
        "access-control-max-age" := "86400",
        "vary" := "Origin"]
  }

  /** The five names differ from each other and from `cache-control`. */
  lemma CorsNamesDistinct()
    ensures "access-control-allow-methods" != "access-control-allow-headers"
    ensures "access-control-allow-origin" != "access-control-allow-methods"
    ensures "access-control-allow-origin" != "access-control-allow-headers"
    ensures "access-control-max-age" != "access-control-allow-origin"
    ensures "access-control-max-age" != "access-control-allow-methods"
    ensures "access-control-max-age" != "access-control-allow-headers"
    ensures "vary" != "access-control-allow-origin" && "vary" != "access-control-allow-methods"
    ensures "vary" != "access-control-allow-headers" && "vary" != "access-control-max-age"
    ensures "cache-control"[0] != "access-control-allow-origin"[0] && "cache-control" != "vary"
  {
    assert "access-control-allow-methods"[21] == 'm' && "access-control-allow-headers"[21] == 'h';
    assert |"access-control-allow-origin"| == 27 && |"access-control-allow-methods"| == 28;
    assert |"access-control-allow-headers"| == 28 && |"access-control-max-age"| == 22;
  }

  /** The CORS headers state the origin when it is allowed and "null"
      otherwise, allow exactly the three methods, echo the requested headers
      or default to Content-Type, and always vary by origin. */
  lemma CorsHeadersMeaning(req: Request)
    ensures var h := CorsHeaders(req);
            && h.Keys == {"access-control-allow-origin", "access-control-allow-methods",
                          "access-control-allow-headers", "access-control-max-age", "vary"}
            && h["access-control-allow-origin"]
               == (if GetAllowedOrigin(req).Some? then Get(req.headers, "origin").value else "null")
            && h["access-control-allow-methods"] == "GET,HEAD,OPTIONS"
            && h["access-control-allow-headers"]
               == Get(req.headers, "access-control-request-headers").GetOr("Content-Type")
            && h["access-control-max-age"] == "86400"
            && h["vary"] == "Origin"
            && "cache-control" !in h
  {
    CorsNamesDistinct();
  }

  /** `Object.entries(corsHeaders(request))`, in the order the object lists
      them. */
  function CorsEntries(req: Request): seq<(string, string)> {
    [ ("access-control-allow-origin", GetAllowedOrigin(req).GetOr("null")),
      ("access-control-allow-methods", "GET,HEAD,OPTIONS"),
      ("access-control-allow-headers", Get(req.headers, "access-control-request-headers").GetOr("Content-Type")),
      ("access-control-max-age", "86400"),
      ("vary", "Origin") ]
  }

  /** The headers `entries` set one after the other on top of `h`. */
  function SetAll(h: Headers, entries: seq<(string, string)>): Headers
    decreases |entries|
  {
    if entries == [] then h
    else SetAll(h, entries[..|entries| - 1])[entries[|entries| - 1].0 := entries[|entries| - 1].1]
  }

  lemma SetAllSnoc(h: Headers, entries: seq<(string, string)>, i: nat)
    requires i < |entries|
    ensures SetAll(h, entries[..i + 1]) == SetAll(h, entries[..i])[entries[i].0 := entries[i].1]
  {
    assert entries[..i + 1][..i] == entries[..i];
  }

  /** Setting the entries one by one overrides `h` with what they set. */
  lemma {:induction false} SetAllOver(h: Headers, entries: seq<(string, string)>)
    ensures SetAll(h, entries) == h + SetAll(map[], entries)
    decreases |entries|
  {
    if entries != [] {
      var n := |entries| - 1;
      SetAllOver(h, entries[..n]);
    }
  }

  /** Setting the CORS entries one by one gives the CORS headers. */
  lemma CorsEntriesSet(req: Request)
    ensures SetAll(map[], CorsEntries(req)) == CorsHeaders(req)
  {
    var e := CorsEntries(req);
    var m: Headers := map[];
    assert e[..0] == [];
    SetAllSnoc(m, e, 0);
    SetAllSnoc(m, e, 1);
    SetAllSnoc(m, e, 2);
    SetAllSnoc(m, e, 3);
    SetAllSnoc(m, e, 4);
    assert e[..5] == e;
    assert SetAll(m, e) == m[e[0].0 := e[0].1][e[1].0 := e[1].1][e[2].0 := e[2].1][e[3].0 := e[3].1][e[4].0 := e[4].1];
  }

  /** `withCors(request, response)`: the upstream answer with its status and
      body, its headers overridden by the CORS headers and by
      `Cache-Control: no-store`. */
  function Cors(req: Request, response: Response): Response {
    response.(headers := (response.headers + CorsHeaders(req))["cache-control" := "no-store"])
  }

  /** The loop of `withCors`. */
  method WithCors(req: Request, response: Response) returns (r: Response)
    ensures r == Cors(req, response)
  {
    var headers := response.headers;
    var cors := CorsEntries(req);
    for i := 0 to |cors|
      invariant headers == SetAll(response.headers, cors[..i])
    {
      SetAllSnoc(response.headers, cors, i);
      headers := headers[cors[i].0 := cors[i].1];
    }
    assert cors[..|cors|] == cors;
    SetAllOver(response.headers, cors);
    CorsEntriesSet(req);
    headers := headers["cache-control" := "no-store"];
    r := Response(response.status, response.body, headers);
  }

  /** The answer keeps the upstream status, body and other headers, with the
      CORS headers and no-store caching forced. */
  lemma CorsKeepsUpstream(req: Request, response: Response, k: string)
    ensures var r := Cors(req, response);
            && r.status == response.status && r.body == response.body
            && r.headers["cache-control"] == "no-store"
            && (k in CorsHeaders(req) ==> r.headers[k] == CorsHeaders(req)[k])
            && (k !in CorsHeaders(req) && k != "cache-control" && k in response.headers
                ==> r.headers[k] == response.headers[k])
  {
    CorsHeadersMeaning(req);
  }

  // ---------------------------------------------------------------------
  // Routing

  /** The branch of `fetch` a request takes. */
  datatype Route = Forbidden | Preflight | MethodNotAllowed | NotFound | Forward

  function RouteOf(req: Request): Route {
    var origin := Get(req.headers, "origin");
    if origin.Some? && origin.value != "" && GetAllowedOrigin(req).None? then Forbidden
    else if req.verb == "OPTIONS" then Preflight
    else if req.verb != "GET" && req.verb != "HEAD" then MethodNotAllowed
    else if !StartsWith(req.pathname, ApiPrefix) then NotFound
    else Forward
  }

  /** The request `fetch` sends upstream: the same path and query on the
      upstream origin, the same method, and minimal headers. */
  function UpstreamRequestOf(req: Request): UpstreamRequest {
    UpstreamRequest(UpstreamOrigin + req.pathname + req.search, req.verb,
                    map["accept" := Get(req.headers, "accept").GetOr("*/*"),
                        "user-agent" := "cbc-weather-cors-proxy"])
  }

  /** The `Content-Type` the Fetch standard gives a response whose body is a string. */
  const TextPlain := "text/plain;charset=UTF-8"

  /** `new Response(text, { status, headers })`: a string body adds
      `Content-Type: text/plain;charset=UTF-8` unless the headers name one. */
  function TextResponse(status: int, text: string, headers: Headers): (r: Response)
    ensures r.status == status && r.body == Text(text)
    ensures "content-type" in r.headers
    ensures "content-type" !in headers ==> r.headers == headers["content-type" := TextPlain]
    ensures "content-type" in headers ==> r.headers == headers
  {
    if "content-type" in headers then Response(status, Text(text), headers)
    else Response(status, Text(text), headers["content-type" := TextPlain])
  }

  /** `fetch(request)`, given the upstream service as a function. */
  function Handle(req: Request, upstream: UpstreamRequest -> Response): Response {
    match RouteOf(req)
    case Forbidden => TextResponse(403, "Forbidden origin", map[])
    case Preflight => Response(204, NoBody, CorsHeaders(req))
    case MethodNotAllowed => TextResponse(405, "Method not allowed", CorsHeaders(req))
    case NotFound => TextResponse(404, "Not found", CorsHeaders(req))
    case Forward => Cors(req, upstream(UpstreamRequestOf(req)))
  }

  /** The three refusals answer in plain text: the refused origin gets only
      `Content-Type`, the other two get it beside the CORS headers. */
  lemma RefusalsArePlainText(req: Request, upstream: UpstreamRequest -> Response)
    requires RouteOf(req) in {Forbidden, MethodNotAllowed, NotFound}
    ensures var r := Handle(req, upstream);
            && r.body.Text?
            && r.headers == (if RouteOf(req) == Forbidden then map[] else CorsHeaders(req))
                            ["content-type" := TextPlain]
  {
    CorsHeadersMeaning(req);
  }

  /** The decision table: an origin off the allowlist is refused before
      anything else; then a preflight is answered whatever the path; then
      methods other than GET and HEAD are refused; then paths outside the
      data API; everything else is forwarded with its upstream status. */
  lemma HandleStatus(req: Request, upstream: UpstreamRequest -> Response)
    ensures var o := Get(req.headers, "origin");
            var s := Handle(req, upstream).status;
            && (o.Some? && o.value != "" && !AllowedOrigin(o.value) ==> s == 403)
            && (!(o.Some? && o.value != "" && !AllowedOrigin(o.value)) ==>
                  && (req.verb == "OPTIONS" ==> s == 204)
                  && (req.verb != "OPTIONS" && req.verb != "GET" && req.verb != "HEAD" ==> s == 405)
                  && ((req.verb == "GET" || req.verb == "HEAD") && !StartsWith(req.pathname, ApiPrefix)
                      ==> s == 404)
                  && ((req.verb == "GET" || req.verb == "HEAD") && StartsWith(req.pathname, ApiPrefix)
                      ==> s == upstream(UpstreamRequestOf(req)).status))
  {
  }

  /** Only the data API of the upstream service is reached: a forwarded
      request names the upstream origin, then exactly the request's path and
      query, with the request's method, which is GET or HEAD. */
  lemma ForwardStaysInApi(req: Request)
    requires RouteOf(req) == Forward
    ensures var u := UpstreamRequestOf(req);
            && StartsWith(u.url, UpstreamOrigin + ApiPrefix)
            && u.url[|UpstreamOrigin|..] == req.pathname + req.search
            && (u.verb == "GET" || u.verb == "HEAD")
  {
    var u := UpstreamRequestOf(req).url;
    assert u == UpstreamOrigin + (req.pathname + req.search);
    assert req.pathname[..|ApiPrefix|] == ApiPrefix;
    assert u[..|UpstreamOrigin + ApiPrefix|] == UpstreamOrigin + ApiPrefix;
  }

  /** Every answer but the refusal of an origin carries `Vary: Origin` and
      names the allowed origin or "null". */
  lemma AnswersVaryByOrigin(req: Request, upstream: UpstreamRequest -> Response)
    requires RouteOf(req) != Forbidden
    ensures var h := Handle(req, upstream).headers;
            && "vary" in h && h["vary"] == "Origin"
            && "access-control-allow-origin" in h
            && h["access-control-allow-origin"] == GetAllowedOrigin(req).GetOr("null")
  {
    CorsHeadersMeaning(req);
    if RouteOf(req) == Forward {
      CorsKeepsUpstream(req, upstream(UpstreamRequestOf(req)), "vary");
      CorsKeepsUpstream(req, upstream(UpstreamRequestOf(req)), "access-control-allow-origin");
    }
  }
}
