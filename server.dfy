/** `handle_client` (Main.py:45-181): one connection, read once, parse,
    route, respond, log, close. The socket, the file system and the clock
    are parameters; what the handler does to the world is returned as an
    ordered trace of effects. */
module Server {
  import opened Bytes
  import Mime
  import RequestLine
  import opened Http

  const WebRoot := "static"
  const IndexPath := "/index.html"
  const NotFoundPath := "/404.html"

  /** The inline HTML/JavaScript clock page served at /datetime; its text
      is left abstract. */
  const DatetimePage: seq<byte>

  const NotFoundText := "<h1>404 Not Found</h1>"
  const ErrorText := "<h1>500 Internal Server Error</h1>"
  const NotFoundInline: seq<byte> := AsciiBytes(NotFoundText)
  const ErrorInline: seq<byte> := AsciiBytes(ErrorText)
  /** The header literal of the `except` branch (Main.py:176). */
  const ErrorHeader := "HTTP/1.1 500 Internal Server Error" + "\nContent-Type: text/html\n\n"

  /** What reading a regular file yields: its bytes, or an I/O error. */
  datatype FileContent = Contents(data: seq<byte>) | Unreadable

  /** The regular files under the working directory, by path; `isfile` is key
      membership. */
  type Store = map<string, FileContent>

  /** The fields of `datetime.now()` that the handler formats. */
  datatype Clock = Clock(year: int, month: int, day: int, hour: int, minute: int, second: int) {
    predicate Valid() {
      && 1 <= year <= 9999 && 1 <= month <= 12 && 1 <= day <= 31
      && 0 <= hour < 24 && 0 <= minute < 60 && 0 <= second < 60
    }
  }

  /** The result of `recv(1024).decode('utf-8')`. */
  datatype Received = Text(text: string) | DecodeFailed

  datatype LogRecord = LogRecord(verb: string, path: string, status: string)

  /** Effects on the outside world, in the order they happen. */
  datatype Effect = Send(bytes: seq<byte>) | Log(record: LogRecord) | Close

  // ---------------------------------------------------------------------
  // The dispatcher, stated as a route table evaluated in priority order.

  /** Only the exact path "/" is rewritten. */
  function Normalize(path: string): string {
    if path == "/" then IndexPath else path
  }

  datatype Route = StaticFile(filepath: string, content: FileContent) | Datetime | ApiTime | NotFound

  /** The route a normalized path takes: an existing file at `static + path`
      first, then the two dynamic endpoints, then not-found. */
  function Resolve(path: string, store: Store): (r: Route)
    ensures r.StaticFile? <==> WebRoot + path in store
    ensures r.StaticFile? ==> r.filepath == WebRoot + path && r.content == store[WebRoot + path]
    ensures r.Datetime? <==> WebRoot + path !in store && path == "/datetime"
    ensures r.ApiTime? <==> WebRoot + path !in store && path == "/api/time"
  {
    var filepath := WebRoot + path;
    if filepath in store then StaticFile(filepath, store[filepath])
    else if path == "/datetime" then Datetime
    else if path == "/api/time" then ApiTime
    else NotFound
  }

  function ContentTypeHeader(t: string): Header {
    Header("Content-Type", t)
  }

  function ContentLengthHeader(body: seq<byte>): Header {
    Header("Content-Length", ShowNat(|body|))
  }

  /** `now.strftime('%Y-%m-%d')` */
  function DateText(c: Clock): string
    requires c.Valid()
  {
    ZeroPad(c.year, 4) + "-" + ZeroPad(c.month, 2) + "-" + ZeroPad(c.day, 2)
  }

  /** `now.strftime('%H:%M:%S')` */
  function TimeText(c: Clock): string
    requires c.Valid()
  {
    ZeroPad(c.hour, 2) + ":" + ZeroPad(c.minute, 2) + ":" + ZeroPad(c.second, 2)
  }

  /** `json.dumps({"date": ..., "time": ...})` with the default separators. */
  function ApiTimeJson(c: Clock): string
    requires c.Valid()
  {
    "{\"date\": \"" + DateText(c) + "\", \"time\": \"" + TimeText(c) + "\"}"
  }

  /** The 200 response for a static file (Main.py:66-73). */
  function FileResponse(filepath: string, body: seq<byte>): (r: Response)
    ensures WellFormed(r)
  {
    Mime.ContentTypeRange(filepath);
    StatusSafe();
    WithLengthWellFormed("200 OK", Mime.ContentType(filepath), body);
    Response("200 OK", [ContentTypeHeader(Mime.ContentType(filepath)), ContentLengthHeader(body)], body)
  }

  /** The /datetime response (Main.py:77-134): a fixed page, no Content-Length. */
  function DatetimeResponse(): (r: Response)
    ensures WellFormed(r)
  {
    StatusSafe();
    HeaderTextSafe();
    TypeOnlyWellFormed("200 OK", "text/html", DatetimePage);
    Response("200 OK", [ContentTypeHeader("text/html")], DatetimePage)
  }

  /** The /api/time response (Main.py:141-148). */
  function ApiTimeResponse(clock: Clock): (r: Response)
    requires clock.Valid()
    ensures WellFormed(r)
  {
    ApiTimeJsonLayout(clock);
    var body := AsciiBytes(ApiTimeJson(clock));
    StatusSafe();
    HeaderTextSafe();
    WithLengthWellFormed("200 OK", "application/json", body);
    Response("200 OK", [ContentTypeHeader("application/json"), ContentLengthHeader(body)], body)
  }

  /** The 404 response around a body (Main.py:164-166). */
  function NotFoundResponse(body: seq<byte>): (r: Response)
    ensures WellFormed(r)
  {
    StatusSafe();
    HeaderTextSafe();
    WithLengthWellFormed("404 Not Found", "text/html", body);
    Response("404 Not Found", [ContentTypeHeader("text/html"), ContentLengthHeader(body)], body)
  }

  /** The response a route produces; `None` when producing it raises (a file
      that exists but cannot be read). */
  function Generate(route: Route, store: Store, clock: Clock): (r: Option<Response>)
    requires clock.Valid()
    ensures r.Some? ==> WellFormed(r.value)
  {
    match route
    case StaticFile(filepath, content) =>
      (match content
       case Unreadable => None
       case Contents(body) => Some(FileResponse(filepath, body)))
    case Datetime => Some(DatetimeResponse())
    case ApiTime => Some(ApiTimeResponse(clock))
    case NotFound =>
      var filepath := WebRoot + NotFoundPath;
      if filepath !in store then Some(NotFoundResponse(NotFoundInline))
      else match store[filepath]
        case Unreadable => None
        case Contents(body) => Some(NotFoundResponse(body))
  }

  const ErrorResponse: Response :=
    Response("500 Internal Server Error", [ContentTypeHeader("text/html")], ErrorInline)

  lemma ErrorResponseWellFormed()
    ensures WellFormed(ErrorResponse)
  {
    ErrorStatusSafe();
    HeaderTextSafe();
    TypeOnlyWellFormed("500 Internal Server Error", "text/html", ErrorInline);
  }

  const ErrorRecord := LogRecord("ERROR", "N/A", "500 Internal Server Error")

  /** How one connection ends: nothing received, a failure turned into the
      500 response, or a response and its log record. */
  datatype Outcome = NoRequest | Failed | Served(response: Response, record: LogRecord)

  /** Every response the handler can send is well formed. */
  predicate Sendable(o: Outcome) {
    o.Served? ==> WellFormed(o.response)
  }

  function DispatchRequest(req: RequestLine.Request, store: Store, clock: Clock): (o: Outcome)
    requires clock.Valid()
    ensures Sendable(o) && !o.NoRequest?
  {
    var path := Normalize(req.path);
    match Generate(Resolve(path, store), store, clock)
    case None => Failed
    case Some(resp) => Served(resp, LogRecord(req.verb, path, resp.status))
  }

  function Dispatch(received: Received, store: Store, clock: Clock): (o: Outcome)
    requires clock.Valid()
    ensures Sendable(o)
    ensures o.NoRequest? <==> received == Text("")
  {
    match received
    case DecodeFailed => Failed
    case Text(text) =>
      if text == "" then NoRequest
      else match RequestLine.ParseRequestLine(text)
        case None => Failed
        case Some(req) => DispatchRequest(req, store, clock)
  }

  /** The effects of an outcome: send, log, and close unconditionally. */
  function Effects(o: Outcome): seq<Effect>
    requires Sendable(o)
  {
    ErrorResponseWellFormed();
    match o
    case NoRequest => [Close]
    case Failed => [Send(Render(ErrorResponse)), Log(ErrorRecord), Close]
    case Served(resp, rec) => [Send(Render(resp)), Log(rec), Close]
  }

  /** What the `try` body has done by the time it finishes or raises:
      nothing, or the reply sent and then logged. */
  function ServedEffects(o: Outcome): seq<Effect>
    requires Sendable(o)
  {
    if o.Served? then [Send(Render(o.response)), Log(o.record)] else []
  }

  function ExpectedTrace(received: Received, store: Store, clock: Clock): seq<Effect>
    requires clock.Valid()
  {
    Effects(Dispatch(received, store, clock))
  }

  // ---------------------------------------------------------------------
  // The handler as written: try / except / finally.

  /** `handle_client`: run the `try` body; on a raised exception send the
      500 response and log it; in every case close the connection. */
  method HandleClient(received: Received, store: Store, clock: Clock) returns (trace: seq<Effect>)
    requires clock.Valid()
    ensures trace == ExpectedTrace(received, store, clock)
  {
    var raised;
    trace, raised := TryServe(received, store, clock);
    if raised {
      var responseBody := ErrorInline;
      var responseHeader := ErrorHeader;
      ErrorResponseWellFormed();
      ErrorReplyParts();
      var reply := SendAndLog(responseHeader, responseBody, "ERROR", "N/A", "500 Internal Server Error", ErrorResponse);
      trace := trace + reply;
    }
    trace := trace + [Close];
  }

  /** The `try` body (Main.py:46-170). `raised` reports an exception, which
      in every case happens before anything is sent. */
  method TryServe(received: Received, store: Store, clock: Clock) returns (trace: seq<Effect>, raised: bool)
    requires clock.Valid()
    ensures raised <==> Dispatch(received, store, clock) == Failed
    ensures trace == ServedEffects(Dispatch(received, store, clock))
  {
    trace, raised := [], false;
    if received.DecodeFailed? {
      raised := true;
      return;
    }
    var request := received.text;
    if request == "" {
      return;
    }
    var requestLine := RequestLine.Tokens(RequestLine.FirstLine(request));
    if |requestLine| < 2 {
      raised := true;
      return;
    }
    var verb, path := requestLine[0], requestLine[1];
    assert RequestLine.ParseRequestLine(request) == Some(RequestLine.Request(verb, path));
    trace, raised := Respond(verb, path, store, clock);
  }

  /** Lines 56-170 of the `try` body: normalize the path, take the first
      route that applies, send the response and log it. */
  method Respond(verb: string, requestPath: string, store: Store, clock: Clock) returns (trace: seq<Effect>, raised: bool)
    requires clock.Valid()
    ensures raised <==> DispatchRequest(RequestLine.Request(verb, requestPath), store, clock) == Failed
    ensures trace == ServedEffects(DispatchRequest(RequestLine.Request(verb, requestPath), store, clock))
  {
    ghost var req := RequestLine.Request(verb, requestPath);
    ghost var outcome := DispatchRequest(req, store, clock);
    trace, raised := [], false;
    var path := requestPath;
    if path == "/" {
      path := "/index.html";
    }
    assert path == Normalize(requestPath);
    var filepath := WebRoot + path;
    var status: string;
    var responseBody: seq<byte>;
    var responseHeader: string;
    ghost var sent: Response;
    if filepath in store {
      if store[filepath].Unreadable? {
        RouteStaticFails(req, store, clock);
        raised := true;
        return;
      }
      responseBody := store[filepath].data;
      status, responseHeader := StaticHeader(filepath, responseBody);
      sent := FileResponse(filepath, responseBody);
      RouteStatic(req, store, clock);
    } else if path == "/datetime" {
      status, responseHeader, responseBody := DatetimeReply();
      sent := DatetimeResponse();
      RouteDatetime(req, store, clock);
      trace := SendAndLog(responseHeader, responseBody, verb, path, status, sent);
      return;
    } else if path == "/api/time" {
      status, responseHeader, responseBody := ApiTimeReply(clock);
      sent := ApiTimeResponse(clock);
      RouteApiTime(req, store, clock);
      trace := SendAndLog(responseHeader, responseBody, verb, path, status, sent);
      return;
    } else {
      RouteNotFound(req, store, clock);
      filepath := WebRoot + "/404.html";
      if filepath in store {
        if store[filepath].Unreadable? {
          raised := true;
          return;
        }
        responseBody := store[filepath].data;
      } else {
        responseBody := NotFoundInline;
      }
      status, responseHeader := NotFoundHeader(responseBody);
      sent := NotFoundResponse(responseBody);
    }
    trace := SendAndLog(responseHeader, responseBody, verb, path, status, sent);
  }

  /** `client_socket.sendall(response_header.encode('utf-8') + response_body)`
      followed by `log_request(client_addr, method, path, status)`. */
  method SendAndLog(responseHeader: string, responseBody: seq<byte>, verb: string, path: string, status: string,
                    ghost sent: Response) returns (trace: seq<Effect>)
    requires WellFormed(sent) && IsAscii(responseHeader)
    requires AsciiBytes(responseHeader) + responseBody == Render(sent)
    ensures trace == ServedEffects(Served(sent, LogRecord(verb, path, status)))
  {
    trace := [Send(AsciiBytes(responseHeader) + responseBody)];
    trace := trace + [Log(LogRecord(verb, path, status))];
  }

  /** Status and header block of a static file (Main.py:66-73). */
  method StaticHeader(filepath: string, responseBody: seq<byte>) returns (status: string, responseHeader: string)
    ensures status == FileResponse(filepath, responseBody).status
    ensures IsAscii(responseHeader)
    ensures AsciiBytes(responseHeader) + responseBody == Render(FileResponse(filepath, responseBody))
  {
    status := "200 OK";
    var contentType := Mime.ContentType(filepath);
    var contentLength := |responseBody|;
    responseHeader := "HTTP/1.1 " + status + "\nContent-Type: " + contentType
                      + "\nContent-Length: " + ShowNat(contentLength) + "\n\n";
    StaticHead(status, contentType, ShowNat(contentLength), responseBody);
    HeadShape(FileResponse(filepath, responseBody));
  }

  /** The /datetime reply (Main.py:77-134). */
  method DatetimeReply() returns (status: string, responseHeader: string, responseBody: seq<byte>)
    ensures status == DatetimeResponse().status
    ensures IsAscii(responseHeader)
    ensures AsciiBytes(responseHeader) + responseBody == Render(DatetimeResponse())
  {
    responseBody := DatetimePage;
    status := "200 OK";
    responseHeader := "HTTP/1.1 " + status + "\nContent-Type: text/html\n\n";
    TypeOnlyHead(status, responseBody);
    HeadShape(DatetimeResponse());
  }

  /** The /api/time reply (Main.py:141-148). */
  method ApiTimeReply(clock: Clock) returns (status: string, responseHeader: string, responseBody: seq<byte>)
    requires clock.Valid()
    ensures status == ApiTimeResponse(clock).status
    ensures IsAscii(responseHeader)
    ensures AsciiBytes(responseHeader) + responseBody == Render(ApiTimeResponse(clock))
  {
    ApiTimeJsonLayout(clock);
    responseBody := AsciiBytes(ApiTimeJson(clock));
    status := "200 OK";
    var contentLength := |responseBody|;
    responseHeader := "HTTP/1.1 " + status + "\nContent-Type: application/json\nContent-Length: "
                      + ShowNat(contentLength) + "\n\n";
    ApiTimeHead(status, ShowNat(contentLength), responseBody);
    HeadShape(ApiTimeResponse(clock));
  }

  /** Status and header block of the 404 reply (Main.py:163-166). */
  method NotFoundHeader(responseBody: seq<byte>) returns (status: string, responseHeader: string)
    ensures status == NotFoundResponse(responseBody).status
    ensures IsAscii(responseHeader)
    ensures AsciiBytes(responseHeader) + responseBody == Render(NotFoundResponse(responseBody))
  {
    status := "404 Not Found";
    var contentLength := |responseBody|;
    responseHeader := "HTTP/1.1 404 Not Found\nContent-Type: text/html\nContent-Length: "
                      + ShowNat(contentLength) + "\n\n";
    NotFoundHead(ShowNat(contentLength), responseBody);
    HeadShape(NotFoundResponse(responseBody));
  }

  // ---------------------------------------------------------------------
  // The outcome of each route

  lemma RouteStatic(req: RequestLine.Request, store: Store, clock: Clock)
    requires clock.Valid()
    requires WebRoot + Normalize(req.path) in store && store[WebRoot + Normalize(req.path)].Contents?
    ensures var fp := WebRoot + Normalize(req.path);
            DispatchRequest(req, store, clock)
            == Served(FileResponse(fp, store[fp].data), LogRecord(req.verb, Normalize(req.path), "200 OK"))
  {
  }

  lemma RouteStaticFails(req: RequestLine.Request, store: Store, clock: Clock)
    requires clock.Valid()
    requires WebRoot + Normalize(req.path) in store && store[WebRoot + Normalize(req.path)].Unreadable?
    ensures DispatchRequest(req, store, clock) == Failed
  {
  }

  lemma RouteDatetime(req: RequestLine.Request, store: Store, clock: Clock)
    requires clock.Valid()
    requires WebRoot + Normalize(req.path) !in store && Normalize(req.path) == "/datetime"
    ensures DispatchRequest(req, store, clock) == Served(DatetimeResponse(), LogRecord(req.verb, "/datetime", "200 OK"))
  {
  }

  lemma RouteApiTime(req: RequestLine.Request, store: Store, clock: Clock)
    requires clock.Valid()
    requires WebRoot + Normalize(req.path) !in store && Normalize(req.path) == "/api/time"
    ensures DispatchRequest(req, store, clock) == Served(ApiTimeResponse(clock), LogRecord(req.verb, "/api/time", "200 OK"))
  {
  }

  lemma RouteNotFound(req: RequestLine.Request, store: Store, clock: Clock)
    requires clock.Valid()
    requires var p := Normalize(req.path);
             WebRoot + p !in store && p != "/datetime" && p != "/api/time"
    ensures var nf, rec := WebRoot + NotFoundPath, LogRecord(req.verb, Normalize(req.path), "404 Not Found");
            && (nf !in store ==> DispatchRequest(req, store, clock) == Served(NotFoundResponse(NotFoundInline), rec))
            && (nf in store && store[nf].Contents? ==>
                  DispatchRequest(req, store, clock) == Served(NotFoundResponse(store[nf].data), rec))
            && (nf in store && store[nf].Unreadable? ==> DispatchRequest(req, store, clock) == Failed)
  {
    assert Resolve(Normalize(req.path), store) == NotFound;
  }

  // The f-string headers of the handler are the generic header block.

  lemma StaticHead(status: string, ct: string, cl: string, b: seq<byte>)
    ensures Head(Response(status, [ContentTypeHeader(ct), Header("Content-Length", cl)], b))
         == "HTTP/1.1 " + status + "\nContent-Type: " + ct + "\nContent-Length: " + cl + "\n\n"
  {
    HeaderLinesTwo(ContentTypeHeader(ct), Header("Content-Length", cl));
    RegroupTwo("HTTP/1.1 " + status, "Content-Type", ct, "Content-Length", cl);
    ContentTypePrefix();
    ContentLengthPrefix();
  }

  lemma ApiTimeHead(status: string, cl: string, b: seq<byte>)
    ensures Head(Response(status, [ContentTypeHeader("application/json"), Header("Content-Length", cl)], b))
         == "HTTP/1.1 " + status + "\nContent-Type: application/json\nContent-Length: " + cl + "\n\n"
  {
    StaticHead(status, "application/json", cl, b);
    JsonTypeLine();
    Regroup3("HTTP/1.1 " + status + "\nContent-Type: ", "application/json", "\nContent-Length: ");
    Regroup3("HTTP/1.1 " + status, "\nContent-Type: ", "application/json" + "\nContent-Length: ");
    Regroup3("HTTP/1.1 " + status, "\nContent-Type: " + "application/json", "\nContent-Length: ");
  }

  lemma JsonTypeLine()
    ensures "\nContent-Type: " + "application/json" + "\nContent-Length: "
         == "\nContent-Type: application/json\nContent-Length: "
  {
    assert "\nContent-Type: " + "application/json" == "\nContent-Type: application/json";
  }

  lemma NotFoundHead(cl: string, b: seq<byte>)
    ensures Head(Response("404 Not Found", [ContentTypeHeader("text/html"), Header("Content-Length", cl)], b))
         == "HTTP/1.1 404 Not Found\nContent-Type: text/html\nContent-Length: " + cl + "\n\n"
  {
    StaticHead("404 Not Found", "text/html", cl, b);
    NotFoundPrefix();
  }

  lemma NotFoundPrefix()
    ensures "HTTP/1.1 " + "404 Not Found" + "\nContent-Type: " + "text/html" + "\nContent-Length: "
         == "HTTP/1.1 404 Not Found\nContent-Type: text/html\nContent-Length: "
  {
    NotFoundStatusLine();
    NotFoundTypeName();
    NotFoundTypeValue();
    NotFoundLengthName();
  }

  lemma NotFoundStatusLine()
    ensures "HTTP/1.1 " + "404 Not Found" == "HTTP/1.1 404 Not Found"
  {
  }

  lemma NotFoundTypeName()
    ensures "HTTP/1.1 404 Not Found" + "\nContent-Type: " == "HTTP/1.1 404 Not Found\nContent-Type: "
  {
  }

  lemma NotFoundTypeValue()
    ensures "HTTP/1.1 404 Not Found\nContent-Type: " + "text/html"
         == "HTTP/1.1 404 Not Found\nContent-Type: text/html"
  {
  }

  lemma NotFoundLengthName()
    ensures "HTTP/1.1 404 Not Found\nContent-Type: text/html" + "\nContent-Length: "
         == "HTTP/1.1 404 Not Found\nContent-Type: text/html\nContent-Length: "
  {
  }

  lemma Regroup3(a: string, b: string, c: string)
    ensures a + b + c == a + (b + c)
  {
  }

  /** The header block of a reply whose one header is `Content-Type: text/html`
      (the /datetime page and the 500 reply). */
  lemma TypeOnlyHead(status: string, b: seq<byte>)
    ensures Head(Response(status, [ContentTypeHeader("text/html")], b))
         == "HTTP/1.1 " + status + "\nContent-Type: text/html\n\n"
  {
    assert HeaderLines([ContentTypeHeader("text/html")]) == "Content-Type" + ": " + "text/html" + "\n" + "";
    RegroupOne("HTTP/1.1 " + status, "Content-Type", "text/html");
    ContentTypePrefix();
    assert "\nContent-Type: " + "text/html" + ("\n" + "\n") == "\nContent-Type: text/html\n\n";
  }

  /** The header literal of the `except` branch and the inline body render
      the 500 reply. */
  lemma ErrorReplyParts()
    ensures IsAscii(ErrorHeader)
    ensures WellFormed(ErrorResponse)
    ensures AsciiBytes(ErrorHeader) + ErrorInline
         == Render(ErrorResponse)
  {
    ErrorResponseWellFormed();
    ErrorHeadText();
    HeadShape(ErrorResponse);
  }

  lemma ErrorHeadText()
    ensures Head(ErrorResponse) == ErrorHeader
  {
    TypeOnlyHead("500 Internal Server Error", ErrorInline);
    ErrorStatusLine();
  }

  lemma ErrorStatusLine()
    ensures "HTTP/1.1 " + "500 Internal Server Error" == "HTTP/1.1 500 Internal Server Error"
  {
  }

  // Regrouping of the generic header block into the handler's f-string form.

  lemma HeaderLinesTwo(h1: Header, h2: Header)
    ensures HeaderLines([h1, h2]) == h1.name + ": " + h1.value + "\n" + (h2.name + ": " + h2.value + "\n" + "")
  {
    assert [h1, h2][1..] == [h2];
    assert HeaderLines([h2]) == h2.name + ": " + h2.value + "\n" + HeaderLines([]);
  }

  lemma RegroupTwo(p: string, a: string, x: string, b: string, y: string)
    ensures p + "\n" + (a + ": " + x + "\n" + (b + ": " + y + "\n" + "")) + "\n"
         == p + ("\n" + a + ": ") + x + ("\n" + b + ": ") + y + "\n\n"
  {
  }

  lemma RegroupOne(p: string, a: string, x: string)
    ensures p + "\n" + (a + ": " + x + "\n" + "") + "\n" == p + ("\n" + a + ": ") + x + ("\n" + "\n")
  {
  }

  lemma ContentTypePrefix()
    ensures "\n" + "Content-Type" + ": " == "\nContent-Type: "
  {
  }

  lemma ContentLengthPrefix()
    ensures "\n" + "Content-Length" + ": " == "\nContent-Length: "
  {
  }

  // ---------------------------------------------------------------------
  // Well-formedness of what the handler sends

  lemma WithLengthWellFormed(status: string, ct: string, body: seq<byte>)
    requires IsAscii(status) && NoLF(status) && IsAscii(ct) && NoLF(ct)
    ensures WellFormed(Response(status, [ContentTypeHeader(ct), ContentLengthHeader(body)], body))
  {
    DigitsAscii(ShowNat(|body|));
    HeaderTextSafe();
  }

  lemma TypeOnlyWellFormed(status: string, ct: string, body: seq<byte>)
    requires IsAscii(status) && NoLF(status) && IsAscii(ct) && NoLF(ct)
    ensures WellFormed(Response(status, [ContentTypeHeader(ct)], body))
  {
    HeaderTextSafe();
  }

  // The literal statuses and header texts are ASCII without line feeds.

  lemma HeaderTextSafe()
    ensures IsAscii("Content-Type") && NoLF("Content-Type")
    ensures IsAscii("Content-Length") && NoLF("Content-Length")
    ensures IsAscii("text/html") && NoLF("text/html")
    ensures IsAscii("application/json") && NoLF("application/json")
  {
  }

  lemma StatusSafe()
    ensures IsAscii("200 OK") && NoLF("200 OK")
    ensures IsAscii("404 Not Found") && NoLF("404 Not Found")
  {
  }

  lemma ErrorStatusSafe()
    ensures IsAscii("500 Internal Server Error") && NoLF("500 Internal Server Error")
  {
  }

  // ---------------------------------------------------------------------
  // The /api/time body

  lemma DateTextLayout(c: Clock)
    requires c.Valid()
    ensures var d := DateText(c);
            && |d| == 10 && d[..4] == ZeroPad(c.year, 4) && d[4] == '-'
            && d[5..7] == ZeroPad(c.month, 2) && d[7] == '-' && d[8..] == ZeroPad(c.day, 2)
            && IsAscii(d)
  {
    var y, m, dd := ZeroPad(c.year, 4), ZeroPad(c.month, 2), ZeroPad(c.day, 2);
    FiveSlices(y, "-", m, "-", dd);
    DigitsAscii(y); DigitsAscii(m); DigitsAscii(dd);
    FiveAscii(y, "-", m, "-", dd);
  }

  lemma TimeTextLayout(c: Clock)
    requires c.Valid()
    ensures var t := TimeText(c);
            && |t| == 8 && t[..2] == ZeroPad(c.hour, 2) && t[2] == ':'
            && t[3..5] == ZeroPad(c.minute, 2) && t[5] == ':' && t[6..] == ZeroPad(c.second, 2)
            && IsAscii(t)
  {
    var h, m, sec := ZeroPad(c.hour, 2), ZeroPad(c.minute, 2), ZeroPad(c.second, 2);
    FiveSlices(h, ":", m, ":", sec);
    DigitsAscii(h); DigitsAscii(m); DigitsAscii(sec);
    FiveAscii(h, ":", m, ":", sec);
  }

  lemma FiveAscii(a: string, b: string, c: string, d: string, e: string)
    requires IsAscii(a) && IsAscii(b) && IsAscii(c) && IsAscii(d) && IsAscii(e)
    ensures IsAscii(a + b + c + d + e)
  {
    AsciiAppend(a, b); AsciiAppend(a + b, c); AsciiAppend(a + b + c, d); AsciiAppend(a + b + c + d, e);
  }

  /** Reads the six clock fields back from fixed positions of an /api/time
      body: `{"date": "YYYY-MM-DD", "time": "HH:MM:SS"}`. */
  function ReadApiTime(j: string): Option<seq<nat>> {
    if && |j| == 42
       && j[..10] == "{\"date\": \"" && j[14] == '-' && j[17] == '-'
       && j[20..32] == "\", \"time\": \"" && j[34] == ':' && j[37] == ':' && j[40..] == "\"}"
       && AllDigits(j[10..14]) && AllDigits(j[15..17]) && AllDigits(j[18..20])
       && AllDigits(j[32..34]) && AllDigits(j[35..37]) && AllDigits(j[38..40])
    then Some([DigitsValue(j[10..14]), DigitsValue(j[15..17]), DigitsValue(j[18..20]),
               DigitsValue(j[32..34]), DigitsValue(j[35..37]), DigitsValue(j[38..40])])
    else None
  }

  /** The /api/time body is 42 ASCII characters in the fixed layout, and its
      fields read back as the clock's year, month, day, hour, minute and
      second. */
  lemma ApiTimeJsonLayout(c: Clock)
    requires c.Valid()
    ensures IsAscii(ApiTimeJson(c)) && |ApiTimeJson(c)| == 42
    ensures ReadApiTime(ApiTimeJson(c)) == Some([c.year, c.month, c.day, c.hour, c.minute, c.second])
  {
    var d, t := DateText(c), TimeText(c);
    DateTextLayout(c);
    TimeTextLayout(c);
    var open, mid, close := "{\"date\": \"", "\", \"time\": \"", "\"}";
    var j := open + d + mid + t + close;
    assert j == ApiTimeJson(c);
    JsonFields(d, t);
    DateWithin(j, d);
    TimeWithin(j, t);
  }

  /** Where the date and the time sit in the JSON text. */
  lemma JsonFields(d: string, t: string)
    requires |d| == 10 && |t| == 8 && IsAscii(d) && IsAscii(t)
    ensures var open, mid, close := "{\"date\": \"", "\", \"time\": \"", "\"}";
            var j := open + d + mid + t + close;
            && |j| == 42 && IsAscii(j)
            && j[..10] == open && j[10..20] == d && j[20..32] == mid && j[32..40] == t && j[40..] == close
  {
    var open, mid, close := "{\"date\": \"", "\", \"time\": \"", "\"}";
    JsonPunctuation();
    FiveSlices(open, d, mid, t, close);
    FiveAscii(open, d, mid, t, close);
  }

  lemma DateWithin(j: string, d: string)
    requires |j| >= 20 && |d| == 10 && j[10..20] == d
    ensures j[10..14] == d[..4] && j[14] == d[4] && j[15..17] == d[5..7] && j[17] == d[7] && j[18..20] == d[8..]
  {
    assert forall i :: 0 <= i < 10 ==> j[10 + i] == d[i];
  }

  lemma TimeWithin(j: string, t: string)
    requires |j| >= 40 && |t| == 8 && j[32..40] == t
    ensures j[32..34] == t[..2] && j[34] == t[2] && j[35..37] == t[3..5] && j[37] == t[5] && j[38..40] == t[6..]
  {
    assert forall i :: 0 <= i < 8 ==> j[32 + i] == t[i];
  }

  lemma JsonPunctuation()
    ensures |"{\"date\": \""| == 10 && IsAscii("{\"date\": \"")
    ensures |"\", \"time\": \""| == 12 && IsAscii("\", \"time\": \"")
    ensures |"\"}"| == 2 && IsAscii("\"}")
  {
  }

  /** Where the five parts of a concatenation sit in it. */
  lemma FiveSlices(a: string, b: string, c: string, d: string, e: string)
    ensures var s := a + b + c + d + e;
            var i, j, k, l := |a|, |a| + |b|, |a| + |b| + |c|, |a| + |b| + |c| + |d|;
            && s[..i] == a && s[i..j] == b && s[j..k] == c && s[k..l] == d && s[l..] == e
  {
  }
}
