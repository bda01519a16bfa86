/** The response classification chain: a chain of responsibility over the
    status code.  Each handler accepts exactly one status (200, 404, 502 or
    503, whose meanings are those of sections 15.3.1, 15.5.5, 15.6.3 and
    15.6.4 of RFC 9110); the first handler in link order that accepts a
    response annotates it in place, and a response nobody accepts passes
    through untouched. */
module Handlers {
  import opened Wrappers
  import opened Strings
  import opened Http

  datatype HandlerKind = Success | NotFound | BadGateway | ServiceUnavailable

  /** `canHandle` of each concrete handler: an exact status comparison. */
  predicate CanHandle(kind: HandlerKind, status: int) {
    match kind
    case Success => status == 200
    case NotFound => status == 404
    case BadGateway => status == 502
    case ServiceUnavailable => status == 503
  }

  /** The status a handler accepts, and the marker its canonical page carries. */
  function Code(kind: HandlerKind): (code: string)
    ensures |code| == 3
  {
    match kind
    case Success => "200"
    case NotFound => "404"
    case BadGateway => "502"
    case ServiceUnavailable => "503"
  }

  /** The value the handler writes into `X-Handled-By`. */
  function HandlerName(kind: HandlerKind): string {
    match kind
    case Success => "SuccessHandler"
    case NotFound => "NotFoundHandler"
    case BadGateway => "BadGatewayHandler"
    case ServiceUnavailable => "ServiceUnavailableHandler"
  }

  /** No two handlers accept the same status. */
  lemma CanHandleUnique(k1: HandlerKind, k2: HandlerKind, status: int)
    requires CanHandle(k1, status) && CanHandle(k2, status)
    ensures k1 == k2
  {
  }

  // The canonical error pages, line by line as the Java text blocks produce them.

  const PAGE_START: string := "<!DOCTYPE html>\n" + "<html>\n" + "<head>\n"

  /** A title line: the status code, then the rest of the title. */
  function TitleLine(code: string, rest: string): string {
    "    <title>" + code + rest
  }

  const NOT_FOUND_TITLE: string := TitleLine("404", " - Not Found</title>\n")

  const NOT_FOUND_REST: string :=
    "    <style>\n"
    + "        body { font-family: Arial; text-align: center; padding: 50px; }\n"
    + "        h1 { color: #e74c3c; }\n"
    + "    </style>\n" + "</head>\n" + "<body>\n"
    + "    <h1>404 - Page Not Found</h1>\n"
    + "    <p>The page you are looking for does not exist.</p>\n"
    + "</body>\n" + "</html>\n"

  const NOT_FOUND_PAGE: string := PAGE_START + NOT_FOUND_TITLE + NOT_FOUND_REST

  const BAD_GATEWAY_TITLE: string := TitleLine("502", " - Bad Gateway</title>\n")

  const BAD_GATEWAY_REST: string :=
    "    <style>\n"
    + "        body { font-family: Arial; text-align: center; padding: 50px; }\n"
    + "        h1 { color: #f39c12; }\n"
    + "    </style>\n" + "</head>\n" + "<body>\n"
    + "    <h1>502 - Bad Gateway</h1>\n"
    + "    <p>The server received an invalid response. Please try again later.</p>\n"
    + "</body>\n" + "</html>\n"

  const BAD_GATEWAY_PAGE: string := PAGE_START + BAD_GATEWAY_TITLE + BAD_GATEWAY_REST

  const UNAVAILABLE_TITLE: string := TitleLine("503", " - Service Unavailable</title>\n")

  const UNAVAILABLE_REST: string :=
    "    <style>\n"
    + "        body { font-family: Arial; text-align: center; padding: 50px; }\n"
    + "        h1 { color: #e67e22; }\n"
    + "    </style>\n" + "</head>\n" + "<body>\n"
    + "    <h1>503 - Service Unavailable</h1>\n"
    + "    <p>The server is temporarily unavailable.</p>\n"

  /** The 503 page up to its retry sentence. */
  const UNAVAILABLE_HEAD: string := PAGE_START + UNAVAILABLE_TITLE + UNAVAILABLE_REST

  const UNAVAILABLE_TAIL: string := "</body>\n" + "</html>\n"

  /** The retry sentence of the 503 page: the `Retry-After` value is always
      read as a number of seconds, never as an HTTP date. */
  function RetrySentence(retryAfter: Option<string>): string {
    match retryAfter
    case Some(v) => "Please try again in " + v + " seconds."
    case None => "Please try again in a few moments."
  }

  function ServiceUnavailablePage(retryAfter: Option<string>): string {
    UNAVAILABLE_HEAD + ("<p>" + RetrySentence(retryAfter) + "</p>") + UNAVAILABLE_TAIL
  }

  /** A page whose title line carries a code contains that code. */
  lemma TitledPageHasCode(start: string, code: string, title: string, rest: string)
    ensures Contains(start + TitleLine(code, title) + rest, code)
  {
    ContainsInfix("    <title>", code, title);
    ContainsWiden(start, TitleLine(code, title), rest, code);
  }

  lemma NotFoundPageHasCode()
    ensures Contains(NOT_FOUND_PAGE, "404")
  {
    TitledPageHasCode(PAGE_START, "404", " - Not Found</title>\n", NOT_FOUND_REST);
  }

  lemma BadGatewayPageHasCode()
    ensures Contains(BAD_GATEWAY_PAGE, "502")
  {
    TitledPageHasCode(PAGE_START, "502", " - Bad Gateway</title>\n", BAD_GATEWAY_REST);
  }

  lemma ServiceUnavailablePageHasCode(retryAfter: Option<string>)
    ensures Contains(ServiceUnavailablePage(retryAfter), "503")
  {
    TitledPageHasCode(PAGE_START, "503", " - Service Unavailable</title>\n", UNAVAILABLE_REST);
    var message := "<p>" + RetrySentence(retryAfter) + "</p>";
    ContainsAppend(UNAVAILABLE_HEAD, message, "503");
    ContainsAppend(UNAVAILABLE_HEAD + message, UNAVAILABLE_TAIL, "503");
  }

  /** The retry sentence names the `Retry-After` value, or asks for a few moments. */
  lemma ServiceUnavailablePageRetry(retryAfter: Option<string>)
    ensures retryAfter.Some? ==>
      Contains(ServiceUnavailablePage(retryAfter), "Please try again in " + retryAfter.value + " seconds.")
    ensures retryAfter.None? ==>
      Contains(ServiceUnavailablePage(retryAfter), "Please try again in a few moments.")
  {
    var sentence := RetrySentence(retryAfter);
    ContainsInfix("<p>", sentence, "</p>");
    ContainsWiden(UNAVAILABLE_HEAD, "<p>" + sentence + "</p>", UNAVAILABLE_TAIL, sentence);
  }

  /** The canonical page a handler would put in place of the body. */
  function CanonicalPage(kind: HandlerKind, retryAfter: Option<string>): string {
    match kind
    case Success => ""
    case NotFound => NOT_FOUND_PAGE
    case BadGateway => BAD_GATEWAY_PAGE
    case ServiceUnavailable => ServiceUnavailablePage(retryAfter)
  }

  lemma CanonicalPageHasCode(kind: HandlerKind, retryAfter: Option<string>)
    requires kind != Success
    ensures Contains(CanonicalPage(kind, retryAfter), Code(kind))
  {
    match kind
    case NotFound => NotFoundPageHasCode();
    case BadGateway => BadGatewayPageHasCode();
    case ServiceUnavailable => ServiceUnavailablePageHasCode(retryAfter);
  }

  /** `processResponse` of each handler, on the response's value. */
  function Process(kind: HandlerKind, r: Resp): Resp {
    match kind
    case Success =>
      r.(headers := r.headers["X-Handled-By" := "SuccessHandler"])
    case NotFound =>
      var body := if Contains(r.body, "404") then r.body else NOT_FOUND_PAGE;
      r.(body := body,
         headers := r.headers["X-Handled-By" := "NotFoundHandler"]["X-Error-Type" := "Client Error"])
    case BadGateway =>
      var body := if Contains(r.body, "502") then r.body else BAD_GATEWAY_PAGE;
      r.(body := body,
         headers := r.headers["X-Handled-By" := "BadGatewayHandler"]["X-Error-Type" := "Server Error"]
                             ["X-Retry-Recommended" := "true"])
    case ServiceUnavailable =>
      var retryAfter := Lookup(r.headers, "Retry-After");
      var body := if Contains(r.body, "503") then r.body else ServiceUnavailablePage(retryAfter);
      r.(body := body,
         headers := r.headers["X-Handled-By" := "ServiceUnavailableHandler"]["X-Error-Type" := "Server Error"]
                             ["X-Retry-Recommended" := "true"])
  }

  /** The diagnostic headers a handler writes, and their values. */
  function Annotations(kind: HandlerKind): map<string, string> {
    match kind
    case Success => map["X-Handled-By" := "SuccessHandler"]
    case NotFound => map["X-Handled-By" := "NotFoundHandler", "X-Error-Type" := "Client Error"]
    case BadGateway =>
      map["X-Handled-By" := "BadGatewayHandler", "X-Error-Type" := "Server Error", "X-Retry-Recommended" := "true"]
    case ServiceUnavailable =>
      map["X-Handled-By" := "ServiceUnavailableHandler", "X-Error-Type" := "Server Error",
          "X-Retry-Recommended" := "true"]
  }

  /** The handler's annotations are written over the headers. */
  lemma ProcessHeaders(kind: HandlerKind, r: Resp)
    ensures Process(kind, r).headers == r.headers + Annotations(kind)
  {
    match kind
    case Success =>
      WriteOne(r.headers, "X-Handled-By", "SuccessHandler");
    case NotFound =>
      WriteTwo(r.headers, "X-Handled-By", "NotFoundHandler", "X-Error-Type", "Client Error");
    case BadGateway =>
      WriteThree(r.headers, "X-Handled-By", "BadGatewayHandler", "X-Error-Type", "Server Error",
                 "X-Retry-Recommended", "true");
    case ServiceUnavailable =>
      WriteThree(r.headers, "X-Handled-By", "ServiceUnavailableHandler", "X-Error-Type", "Server Error",
                 "X-Retry-Recommended", "true");
  }

  lemma WriteOne(m: map<string, string>, a: string, x: string)
    ensures m[a := x] == m + map[a := x]
  {
  }

  lemma WriteTwo(m: map<string, string>, a: string, x: string, b: string, y: string)
    requires a != b
    ensures m[a := x][b := y] == m + map[a := x, b := y]
  {
  }

  lemma WriteThree(m: map<string, string>, a: string, x: string, b: string, y: string, c: string, z: string)
    requires a != b && a != c && b != c
    ensures m[a := x][b := y][c := z] == m + map[a := x, b := y, c := z]
  {
  }

  /** What processing does to a response: the status never changes; the body is
      replaced by the canonical page exactly when it lacks the handler's code
      (the success handler never touches it); the handler's annotations are
      written and every other header keeps its value. */
  lemma ProcessEffect(kind: HandlerKind, r: Resp)
    ensures Process(kind, r).status == r.status
    ensures kind == Success ==> Process(kind, r).body == r.body
    ensures kind != Success ==>
      Process(kind, r).body ==
        (if Contains(r.body, Code(kind)) then r.body
         else CanonicalPage(kind, Lookup(r.headers, "Retry-After")))
    ensures Process(kind, r).headers.Keys == r.headers.Keys + Annotations(kind).Keys
    ensures forall key :: key in Annotations(kind) ==> Process(kind, r).headers[key] == Annotations(kind)[key]
    ensures forall key :: key in r.headers && key !in Annotations(kind) ==>
      Process(kind, r).headers[key] == r.headers[key]
  {
    ProcessHeaders(kind, r);
  }

  /** The not-found handler never recommends a retry. */
  lemma NotFoundNoRetryHeader(r: Resp)
    requires "X-Retry-Recommended" !in r.headers
    ensures "X-Retry-Recommended" !in Process(NotFound, r).headers
  {
  }

  /** The 503 handler keeps a `Retry-After` header as it was. */
  lemma UnavailableKeepsRetryAfter(r: Resp)
    ensures Lookup(Process(ServiceUnavailable, r).headers, "Retry-After") == Lookup(r.headers, "Retry-After")
  {
  }

  /** After processing, the body always carries the handler's code. */
  lemma ProcessedBodyHasCode(kind: HandlerKind, r: Resp)
    requires kind != Success
    ensures Contains(Process(kind, r).body, Code(kind))
  {
    ProcessEffect(kind, r);
    if !Contains(r.body, Code(kind)) {
      CanonicalPageHasCode(kind, Lookup(r.headers, "Retry-After"));
    }
  }

  /** Writing the annotations a second time changes no header. */
  lemma ProcessHeadersStable(kind: HandlerKind, r: Resp)
    ensures Process(kind, Process(kind, r)).headers == Process(kind, r).headers
  {
    ProcessEffect(kind, r);
    ProcessEffect(kind, Process(kind, r));
  }

  /** Since the processed body carries the code, a second processing keeps
      it; processing twice is processing once. */
  lemma ProcessIdempotent(kind: HandlerKind, r: Resp)
    ensures Process(kind, Process(kind, r)) == Process(kind, r)
  {
    var once := Process(kind, r);
    if kind != Success {
      ProcessedBodyHasCode(kind, r);
    }
    ProcessHeadersStable(kind, r);
    ProcessEffect(kind, once);
  }

  /** The position of the first handler in `kinds` that accepts `status`. */
  function FirstMatch(kinds: seq<HandlerKind>, status: int): (m: Option<nat>)
    ensures m.None? <==> forall i :: 0 <= i < |kinds| ==> !CanHandle(kinds[i], status)
    ensures m.Some? ==> m.value < |kinds| && CanHandle(kinds[m.value], status)
    ensures m.Some? ==> forall i :: 0 <= i < m.value ==> !CanHandle(kinds[i], status)
  {
    if |kinds| == 0 then None
    else if CanHandle(kinds[0], status) then Some(0)
    else match FirstMatch(kinds[1..], status)
      case None => None
      case Some(i) => Some(i + 1)
  }

  /** `handle` along a chain whose handlers, in link order, are `kinds`:
      whether some handler accepted, and the response afterwards. */
  function HandleChain(kinds: seq<HandlerKind>, r: Resp): (bool, Resp) {
    if |kinds| == 0 then (false, r)
    else if CanHandle(kinds[0], r.status) then (true, Process(kinds[0], r))
    else HandleChain(kinds[1..], r)
  }

  /** `handle` reports true exactly when some handler of the chain accepts the
      status, and then only the first such handler has processed the
      response; otherwise the response is unchanged. */
  lemma {:induction false} HandleChainFirstWins(kinds: seq<HandlerKind>, r: Resp)
    ensures HandleChain(kinds, r) ==
      match FirstMatch(kinds, r.status)
      case None => (false, r)
      case Some(i) => (true, Process(kinds[i], r))
  {
    if |kinds| > 0 && !CanHandle(kinds[0], r.status) {
      HandleChainFirstWins(kinds[1..], r);
    }
  }

  /** The order `buildDefaultChain` links the handlers in. */
  const DEFAULT_ORDER: seq<HandlerKind> := [Success, NotFound, BadGateway, ServiceUnavailable]

  /** `HTTPHandlerChain.process` on a response's value. */
  function Classify(r: Resp): (bool, Resp) {
    HandleChain(DEFAULT_ORDER, r)
  }

  predicate IsClassified(status: int) {
    status == 200 || status == 404 || status == 502 || status == 503
  }

  /** The handler of the default chain that owns a classified status. */
  function KindFor(status: int): (kind: HandlerKind)
    requires IsClassified(status)
    ensures CanHandle(kind, status)
  {
    if status == 200 then Success
    else if status == 404 then NotFound
    else if status == 502 then BadGateway
    else ServiceUnavailable
  }

  /** The default chain handles exactly the statuses 200, 404, 502 and 503;
      exactly one handler, the one owning the status, processes such a
      response; any other response passes through unchanged. */
  lemma ClassifyOutcome(r: Resp)
    ensures Classify(r).0 <==> IsClassified(r.status)
    ensures IsClassified(r.status) ==> Classify(r).1 == Process(KindFor(r.status), r)
    ensures !IsClassified(r.status) ==> Classify(r).1 == r
  {
    HandleChainFirstWins(DEFAULT_ORDER, r);
    match FirstMatch(DEFAULT_ORDER, r.status)
    case None =>
      assert !CanHandle(DEFAULT_ORDER[0], r.status) && !CanHandle(DEFAULT_ORDER[1], r.status);
      assert !CanHandle(DEFAULT_ORDER[2], r.status) && !CanHandle(DEFAULT_ORDER[3], r.status);
    case Some(i) =>
      CanHandleUnique(DEFAULT_ORDER[i], KindFor(r.status), r.status);
  }

  /** Classifying an already classified response changes nothing and reports the same outcome. */
  lemma ClassifyIdempotent(r: Resp)
    ensures Classify(Classify(r).1) == Classify(r)
  {
    ClassifyOutcome(r);
    var once := Classify(r).1;
    if IsClassified(r.status) {
      ProcessEffect(KindFor(r.status), r);
      ClassifyOutcome(once);
      ProcessIdempotent(KindFor(r.status), r);
    } else {
      ClassifyOutcome(once);
    }
  }

  /** A concrete handler object with its successor link. */
  class Handler {
    const kind: HandlerKind
    var next: Handler?

    constructor (kind: HandlerKind)
      ensures this.kind == kind && next == null
    {
      this.kind := kind;
      next := null;
    }

    /** `setNext`: the link is replaced; only the latest successor is followed. */
    method SetNext(n: Handler?)
      modifies this
      ensures next == n
    {
      next := n;
    }

    /** `processResponse`, updating the response in place. */
    method ProcessResponse(response: HttpResponse)
      modifies response
      ensures response.Value() == Process(kind, old(response.Value()))
    {
      match kind
      case Success =>
        response.PutHeader("X-Handled-By", "SuccessHandler");
      case NotFound =>
        if !Contains(response.body, "404") {
          response.SetBody(NOT_FOUND_PAGE);
        }
        response.PutHeader("X-Handled-By", "NotFoundHandler");
        response.PutHeader("X-Error-Type", "Client Error");
      case BadGateway =>
        if !Contains(response.body, "502") {
          response.SetBody(BAD_GATEWAY_PAGE);
        }
        response.PutHeader("X-Handled-By", "BadGatewayHandler");
        response.PutHeader("X-Error-Type", "Server Error");
        response.PutHeader("X-Retry-Recommended", "true");
      case ServiceUnavailable =>
        var retryAfter := response.GetHeader("Retry-After");
        if !Contains(response.body, "503") {
          response.SetBody(ServiceUnavailablePage(retryAfter));
        }
        response.PutHeader("X-Handled-By", "ServiceUnavailableHandler");
        response.PutHeader("X-Error-Type", "Server Error");
        response.PutHeader("X-Retry-Recommended", "true");
    }

    /** `handle`: process the response here if this handler accepts it, else
        delegate to the successor; `path` is this handler followed by every
        handler reachable through the links. */
    method Handle(response: HttpResponse, ghost path: seq<Handler>) returns (handled: bool)
      requires IsPath(path) && path[0] == this
      modifies response
      ensures (handled, response.Value()) == HandleChain(Kinds(path), old(response.Value()))
      decreases |path|
    {
      if CanHandle(kind, response.statusCode) {
        ProcessResponse(response);
        handled := true;
      } else if next != null {
        assert Kinds(path)[1..] == Kinds(path[1..]);
        handled := next.Handle(response, path[1..]);
      } else {
        handled := false;
      }
    }
  }

  /** The handler kinds along a path, in link order. */
  function Kinds(path: seq<Handler>): (ks: seq<HandlerKind>)
    ensures |ks| == |path|
    ensures forall i :: 0 <= i < |path| ==> ks[i] == path[i].kind
  {
    seq(|path|, i requires 0 <= i < |path| => path[i].kind)
  }

  /** `path` lists a chain in link order: each handler's successor is the next
      one, and the last has none (so the links cannot form a cycle). */
  ghost predicate IsPath(path: seq<Handler>)
    reads path
  {
    && |path| > 0
    && (forall i :: 0 <= i < |path| - 1 ==> path[i].next == path[i + 1])
    && path[|path| - 1].next == null
  }

  /** `HTTPHandlerChain`: the default chain, built once and reused. */
  class HandlerChain {
    var firstHandler: Handler?
    ghost var chain: seq<Handler>

    ghost predicate Valid()
      reads this, chain
    {
      && IsPath(chain)
      && firstHandler == chain[0]
      && Kinds(chain) == DEFAULT_ORDER
    }

    /** `buildDefaultChain`: Success, then NotFound, BadGateway and
        ServiceUnavailable, the last one without a successor. */
    constructor ()
      ensures Valid() && fresh(set h | h in chain)
    {
      var notFound := new Handler(NotFound);
      var badGateway := new Handler(BadGateway);
      var unavailable := new Handler(ServiceUnavailable);
      var success := new Handler(Success);
      success.SetNext(notFound);
      notFound.SetNext(badGateway);
      badGateway.SetNext(unavailable);
      firstHandler := success;
      chain := [success, notFound, badGateway, unavailable];
    }

    /** `process`: run the response through the chain.  The links are not
        touched, so the same chain classifies every later response alike. */
    method Process(response: HttpResponse) returns (handled: bool)
      requires Valid()
      modifies response
      ensures Valid()
      ensures (handled, response.Value()) == Classify(old(response.Value()))
    {
      if firstHandler == null {
        return false;
      }
      handled := firstHandler.Handle(response, chain);
    }
  }
}
