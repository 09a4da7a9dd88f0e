/** What the handler promises, stated over the dispatcher that `HandleClient`
    is proved to follow: the shape of every trace, the 500 conversion, the
    routing priority, the 404 fallback and the framing of each response. */
module Properties {
  import opened Bytes
  import Mime
  import RequestLine
  import opened Http
  import opened Server

  // ---------------------------------------------------------------------
  // The trace

  /** Every connection is closed exactly once, as the last effect; before
      that the handler either does nothing (empty request) or sends once and
      then logs once. */
  lemma TraceShape(received: Received, store: Store, clock: Clock)
    requires clock.Valid()
    ensures var t := ExpectedTrace(received, store, clock);
            && |t| >= 1 && t[|t| - 1] == Close
            && (forall i :: 0 <= i < |t| - 1 ==> !t[i].Close?)
            && (|t| == 1 <==> received == Text(""))
            && (|t| != 1 ==> |t| == 3 && t[0].Send? && t[1].Log?)
  {
    EffectsShape(Dispatch(received, store, clock));
  }

  lemma EffectsShape(o: Outcome)
    requires Sendable(o)
    ensures var t := Effects(o);
            && |t| >= 1 && t[|t| - 1] == Close
            && (forall i :: 0 <= i < |t| - 1 ==> !t[i].Close?)
            && (|t| == 1 <==> o.NoRequest?)
            && (|t| != 1 ==> |t| == 3 && t[0].Send? && t[1].Log?)
  {
    ErrorResponseWellFormed();
  }

  /** An empty read sends nothing and logs nothing, but still closes. */
  lemma EmptyRequestOnlyCloses(store: Store, clock: Clock)
    requires clock.Valid()
    ensures ExpectedTrace(Text(""), store, clock) == [Close]
  {
  }

  /** A failure anywhere in the `try` body becomes exactly the fixed 500
      reply and the fixed error record, then the close. */
  lemma FailureIs500(received: Received, store: Store, clock: Clock)
    requires clock.Valid()
    requires Dispatch(received, store, clock) == Failed
    ensures IsAscii(ErrorHeader)
    ensures ExpectedTrace(received, store, clock)
         == [Send(AsciiBytes(ErrorHeader) + ErrorInline), Log(LogRecord("ERROR", "N/A", "500 Internal Server Error")), Close]
  {
    ErrorReplyParts();
  }

  /** The file the route for `path` would read and find unreadable. */
  predicate ChosenFileUnreadable(path: string, store: Store) {
    var p := Normalize(path);
    var nf := WebRoot + NotFoundPath;
    if WebRoot + p in store then store[WebRoot + p].Unreadable?
    else p != "/datetime" && p != "/api/time" && nf in store && store[nf].Unreadable?
  }

  /** The handler fails exactly when decoding fails, when the first line has
      fewer than two tokens, or when the file it settles on cannot be read. */
  lemma FailedIff(received: Received, store: Store, clock: Clock)
    requires clock.Valid()
    ensures Dispatch(received, store, clock) == Failed
        <==> || received.DecodeFailed?
             || (received.Text? && received.text != ""
                 && |RequestLine.Tokens(RequestLine.FirstLine(received.text))| < 2)
             || (received.Text? && received.text != ""
                 && |RequestLine.Tokens(RequestLine.FirstLine(received.text))| >= 2
                 && ChosenFileUnreadable(RequestLine.Tokens(RequestLine.FirstLine(received.text))[1], store))
  {
    if received.Text? && received.text != "" {
      var ts := RequestLine.Tokens(RequestLine.FirstLine(received.text));
      if |ts| >= 2 {
        var req := RequestLine.Request(ts[0], ts[1]);
        assert RequestLine.ParseRequestLine(received.text) == Some(req);
        DispatchFailedIff(req, store, clock);
      }
    }
  }

  lemma DispatchFailedIff(req: RequestLine.Request, store: Store, clock: Clock)
    requires clock.Valid()
    ensures DispatchRequest(req, store, clock) == Failed <==> ChosenFileUnreadable(req.path, store)
  {
    var p := Normalize(req.path);
    var nf := WebRoot + NotFoundPath;
    if WebRoot + p !in store && p != "/datetime" && p != "/api/time" {
      assert Resolve(p, store) == NotFound;
    }
  }

  /** A request with a single token on its first line is answered with 500. */
  lemma OneTokenRequestIs500(word: string, rest: string, store: Store, clock: Clock)
    requires clock.Valid()
    requires word != [] && RequestLine.NoSpace(word)
    requires rest == [] || RequestLine.IsLineBoundary(rest[0])
    ensures Dispatch(Text(word + rest), store, clock) == Failed
  {
    RequestLine.ParseOneTokenFails(word, rest);
  }

  // ---------------------------------------------------------------------
  // Routing

  /** Only the exact path "/" is rewritten, and a request for "/" is served
      and logged exactly as one for "/index.html". */
  lemma RootAlias(verb: string, store: Store, clock: Clock)
    requires clock.Valid()
    ensures DispatchRequest(RequestLine.Request(verb, "/"), store, clock)
         == DispatchRequest(RequestLine.Request(verb, "/index.html"), store, clock)
    ensures DispatchRequest(RequestLine.Request(verb, "/"), store, clock).Served? ==>
              DispatchRequest(RequestLine.Request(verb, "/"), store, clock).record.path == "/index.html"
  {
  }

  lemma NormalizeOnlyRoot(path: string)
    ensures Normalize(path) != path <==> path == "/"
    ensures Normalize(Normalize(path)) == Normalize(path)
  {
  }

  /** The outcome depends on the store only through the exact keys
      `static + path` and `static/404.html`: no other normalisation, no
      containment check. */
  lemma DispatchReadsOnly(req: RequestLine.Request, s1: Store, s2: Store, clock: Clock)
    requires clock.Valid()
    requires var k := WebRoot + Normalize(req.path);
             (k in s1 <==> k in s2) && (k in s1 ==> s1[k] == s2[k])
    requires var nf := WebRoot + NotFoundPath;
             (nf in s1 <==> nf in s2) && (nf in s1 ==> s1[nf] == s2[nf])
    ensures DispatchRequest(req, s1, clock) == DispatchRequest(req, s2, clock)
  {
    var p := Normalize(req.path);
    if WebRoot + p !in s1 && p != "/datetime" && p != "/api/time" {
      assert Resolve(p, s1) == NotFound && Resolve(p, s2) == NotFound;
    }
  }

  /** An existing readable file at `static + path` is served with 200 — even
      when the path is /datetime or /api/time, and even when it climbs out of
      the web root with "..". */
  lemma StaticFileWins(req: RequestLine.Request, store: Store, clock: Clock)
    requires clock.Valid()
    requires WebRoot + Normalize(req.path) in store
    requires store[WebRoot + Normalize(req.path)].Contents?
    ensures var fp := WebRoot + Normalize(req.path);
            var body := store[fp].data;
            DispatchRequest(req, store, clock)
            == Served(Response("200 OK", [Header("Content-Type", Mime.ContentType(fp)),
                                          Header("Content-Length", ShowNat(|body|))], body),
                      LogRecord(req.verb, Normalize(req.path), "200 OK"))
  {
    RouteStatic(req, store, clock);
  }

  /** A file named "static/datetime" shadows the clock page; with no
      extension it is sent as binary. */
  lemma DatetimeShadowed(verb: string, page: seq<byte>, clock: Clock)
    requires clock.Valid()
    ensures var store := map["static/datetime" := Contents(page)];
            var o := DispatchRequest(RequestLine.Request(verb, "/datetime"), store, clock);
            && o.Served? && o.response.body == page
            && HeaderValue(o.response.headers, "Content-Type") == Some(Mime.DefaultType)
  {
    var store := map["static/datetime" := Contents(page)];
    var req := RequestLine.Request(verb, "/datetime");
    assert WebRoot + Normalize(req.path) == "static/datetime";
    assert forall j :: 0 <= j < |"static/datetime"| ==> "static/datetime"[j] != '.';
    Mime.ContentTypeWithoutDot("static/datetime");
    RouteStatic(req, store, clock);
    var o := DispatchRequest(req, store, clock);
    assert o.response == FileResponse("static/datetime", page);
    assert o.response.headers[0] == Header("Content-Type", Mime.DefaultType);
  }

  /** The looked-up path is plain concatenation: "/../secret.txt" reads
      "static/../secret.txt". */
  lemma TraversalServed(verb: string, secret: seq<byte>, clock: Clock)
    requires clock.Valid()
    ensures var store := map["static/../secret.txt" := Contents(secret)];
            var o := DispatchRequest(RequestLine.Request(verb, "/../secret.txt"), store, clock);
            o.Served? && o.response.status == "200 OK" && o.response.body == secret
  {
    var store := map["static/../secret.txt" := Contents(secret)];
    assert WebRoot + "/../secret.txt" == "static/../secret.txt";
    RouteStatic(RequestLine.Request(verb, "/../secret.txt"), store, clock);
  }

  /** With no file in the way, /datetime serves the fixed page with a
      Content-Type and no Content-Length. */
  lemma DatetimeServed(verb: string, store: Store, clock: Clock)
    requires clock.Valid()
    requires WebRoot + "/datetime" !in store
    ensures var o := DispatchRequest(RequestLine.Request(verb, "/datetime"), store, clock);
            && o == Served(Response("200 OK", [Header("Content-Type", "text/html")], DatetimePage),
                           LogRecord(verb, "/datetime", "200 OK"))
            && HeaderValue(o.response.headers, "Content-Length") == None
  {
  }

  /** With no file in the way, /api/time serves 42 bytes of JSON whose fields
      are the clock's, with Content-Length "42". */
  lemma ApiTimeServed(verb: string, store: Store, clock: Clock)
    requires clock.Valid()
    requires WebRoot + "/api/time" !in store
    ensures var o := DispatchRequest(RequestLine.Request(verb, "/api/time"), store, clock);
            && o.Served? && o.record == LogRecord(verb, "/api/time", "200 OK")
            && o.response.status == "200 OK"
            && HeaderValue(o.response.headers, "Content-Type") == Some("application/json")
            && HeaderValue(o.response.headers, "Content-Length") == Some("42")
            && IsAscii(ApiTimeJson(clock)) && o.response.body == AsciiBytes(ApiTimeJson(clock))
            && ReadApiTime(ApiTimeJson(clock))
               == Some([clock.year, clock.month, clock.day, clock.hour, clock.minute, clock.second])
  {
    ApiTimeJsonLayout(clock);
    var o := DispatchRequest(RequestLine.Request(verb, "/api/time"), store, clock);
    assert o.response == ApiTimeResponse(clock);
    assert ShowNat(42) == "42";
  }

  /** Any other path gets 404 with Content-Type text/html: the body of
      static/404.html when it exists, otherwise the inline message. */
  lemma NotFoundServed(req: RequestLine.Request, store: Store, clock: Clock)
    requires clock.Valid()
    requires var p := Normalize(req.path);
             WebRoot + p !in store && p != "/datetime" && p != "/api/time"
    requires WebRoot + NotFoundPath !in store || store[WebRoot + NotFoundPath].Contents?
    ensures var o := DispatchRequest(req, store, clock);
            var body := if WebRoot + NotFoundPath in store then store[WebRoot + NotFoundPath].data
                        else NotFoundInline;
            o == Served(Response("404 Not Found", [Header("Content-Type", "text/html"),
                                                   Header("Content-Length", ShowNat(|body|))], body),
                        LogRecord(req.verb, Normalize(req.path), "404 Not Found"))
  {
    assert Resolve(Normalize(req.path), store) == NotFound;
  }

  /** The inline 404 message is the 22 bytes of `<h1>404 Not Found</h1>`. */
  lemma NotFoundInlineLength()
    ensures |NotFoundInline| == 22 && ShowNat(|NotFoundInline|) == "22"
  {
  }

  // ---------------------------------------------------------------------
  // Framing

  /** Every response sent carries a Content-Type; a Content-Length, when
      present, is the decimal length of the body; only the /datetime page
      omits it; and a reader splitting at the first blank line gets the body
      back. */
  lemma ServedFraming(received: Received, store: Store, clock: Clock)
    requires clock.Valid()
    requires Dispatch(received, store, clock).Served?
    ensures var r := Dispatch(received, store, clock).response;
            && WellFormed(r) && BodyOf(Render(r)) == Some(r.body)
            && HeaderValue(r.headers, "Content-Type").Some?
            && (HeaderValue(r.headers, "Content-Length").Some? ==>
                  ParseNat(HeaderValue(r.headers, "Content-Length").value) == Some(|r.body|))
            && (HeaderValue(r.headers, "Content-Length").None? ==> r == DatetimeResponse())
  {
    var r := Dispatch(received, store, clock).response;
    var req := RequestLine.ParseRequestLine(received.text).value;
    assert Dispatch(received, store, clock) == DispatchRequest(req, store, clock);
    var route := Resolve(Normalize(req.path), store);
    assert r == Generate(route, store, clock).value;
    GenerateFraming(route, store, clock);
    RenderBodyRecoverable(r);
    HeaderValues(r);
  }

  /** Header lookups on a reply with Content-Type first and, unless it is
      the clock page, Content-Length second. */
  lemma HeaderValues(r: Response)
    requires |r.headers| >= 1 && r.headers[0].name == "Content-Type"
    requires |r.headers| != 1 ==> |r.headers| == 2 && r.headers[1] == ContentLengthHeader(r.body)
    ensures HeaderValue(r.headers, "Content-Type").Some?
    ensures HeaderValue(r.headers, "Content-Length").Some? ==>
              ParseNat(HeaderValue(r.headers, "Content-Length").value) == Some(|r.body|)
    ensures HeaderValue(r.headers, "Content-Length").None? ==> |r.headers| == 1
  {
    ParseShowNat(|r.body|);
    assert "Content-Type" != "Content-Length";
    if |r.headers| == 2 {
      assert r.headers[1..][0] == ContentLengthHeader(r.body);
    }
  }

  lemma GenerateFraming(route: Route, store: Store, clock: Clock)
    requires clock.Valid()
    requires Generate(route, store, clock).Some?
    ensures var r := Generate(route, store, clock).value;
            && |r.headers| >= 1 && r.headers[0].name == "Content-Type"
            && (|r.headers| == 1 ==> r == DatetimeResponse())
            && (|r.headers| != 1 ==> |r.headers| == 2 && r.headers[1] == ContentLengthHeader(r.body))
  {
  }

  /** The exact bytes of a static 200 reply. */
  lemma StaticReplyBytes(filepath: string, body: seq<byte>)
    ensures var ct := Mime.ContentType(filepath);
            var head := "HTTP/1.1 200 OK\nContent-Type: " + ct + "\nContent-Length: " + ShowNat(|body|) + "\n\n";
            && WellFormed(FileResponse(filepath, body)) && IsAscii(head)
            && Render(FileResponse(filepath, body)) == AsciiBytes(head) + body
  {
    var r := FileResponse(filepath, body);
    Head200(Mime.ContentType(filepath), ShowNat(|body|), body);
    HeadShape(r);
  }

  lemma Head200(ct: string, cl: string, b: seq<byte>)
    ensures Head(Response("200 OK", [Header("Content-Type", ct), Header("Content-Length", cl)], b))
         == "HTTP/1.1 200 OK\nContent-Type: " + ct + "\nContent-Length: " + cl + "\n\n"
  {
    StaticHead("200 OK", ct, cl, b);
    assert "HTTP/1.1 " + "200 OK" == "HTTP/1.1 200 OK";
    assert "HTTP/1.1 200 OK" + "\nContent-Type: " == "HTTP/1.1 200 OK\nContent-Type: ";
  }

  // ---------------------------------------------------------------------
  // End to end

  /** A browser's request for "/" with index.html present: the file's bytes
      as text/html with their length, the log shows /index.html, and the
      connection is closed. */
  lemma IndexRequest(page: seq<byte>, clock: Clock)
    requires clock.Valid()
    ensures var store := map["static/index.html" := Contents(page)];
            var head := "HTTP/1.1 200 OK\nContent-Type: text/html\nContent-Length: " + ShowNat(|page|) + "\n\n";
            && IsAscii(head)
            && ExpectedTrace(Text("GET / HTTP/1.1" + "\r\nHost: localhost\r\n\r\n"), store, clock)
               == [Send(AsciiBytes(head) + page), Log(LogRecord("GET", "/index.html", "200 OK")), Close]
  {
    IndexRequestLine();
    RootRequest("GET / HTTP/1.1" + "\r\nHost: localhost\r\n\r\n", page, clock);
  }

  /** Any request whose line reads `GET /`, with index.html present. */
  lemma RootRequest(text: string, page: seq<byte>, clock: Clock)
    requires clock.Valid()
    requires text != ""
    requires RequestLine.ParseRequestLine(text) == Some(RequestLine.Request("GET", "/"))
    ensures var store := map["static/index.html" := Contents(page)];
            var head := "HTTP/1.1 200 OK\nContent-Type: text/html\nContent-Length: " + ShowNat(|page|) + "\n\n";
            && IsAscii(head)
            && ExpectedTrace(Text(text), store, clock)
               == [Send(AsciiBytes(head) + page), Log(LogRecord("GET", "/index.html", "200 OK")), Close]
  {
    RootServed(text, page, clock);
    IndexReplyBytes(page);
  }

  lemma IndexReplyBytes(page: seq<byte>)
    ensures var head := "HTTP/1.1 200 OK\nContent-Type: text/html\nContent-Length: " + ShowNat(|page|) + "\n\n";
            && IsAscii(head) && WellFormed(FileResponse("static/index.html", page))
            && Render(FileResponse("static/index.html", page)) == AsciiBytes(head) + page
  {
    StaticReplyBytes("static/index.html", page);
    IndexContentType();
    IndexHead(ShowNat(|page|));
  }

  lemma IndexContentType()
    ensures Mime.ContentType("static/index.html") == "text/html"
  {
    Mime.ContentTypeHtml("index");
    assert "static/" + "index" + ".html" == "static/index.html";
  }

  lemma RootServed(text: string, page: seq<byte>, clock: Clock)
    requires clock.Valid()
    requires text != ""
    requires RequestLine.ParseRequestLine(text) == Some(RequestLine.Request("GET", "/"))
    ensures Dispatch(Text(text), map["static/index.html" := Contents(page)], clock)
         == Served(FileResponse("static/index.html", page), LogRecord("GET", "/index.html", "200 OK"))
  {
    assert WebRoot + "/index.html" == "static/index.html";
  }

  lemma IndexRequestLine()
    ensures RequestLine.ParseRequestLine("GET / HTTP/1.1" + "\r\nHost: localhost\r\n\r\n")
         == Some(RequestLine.Request("GET", "/"))
  {
    assert RequestLine.NoSpace("GET");
    assert RequestLine.NoSpace("/");
    assert RequestLine.NoSpace("HTTP/1.1");
    IndexLine();
    RequestLine.ParseWellFormedRequestLine("GET", "/", "HTTP/1.1", "\r\nHost: localhost\r\n\r\n");
  }

  lemma IndexLine()
    ensures "GET" + " " + "/" + " " + "HTTP/1.1" == "GET / HTTP/1.1"
  {
    assert "GET" + " " == "GET ";
    assert "GET " + "/" == "GET /";
    assert "GET /" + " " == "GET / ";
  }

  lemma IndexHead(cl: string)
    ensures "HTTP/1.1 200 OK\nContent-Type: " + "text/html" + "\nContent-Length: " + cl + "\n\n"
         == "HTTP/1.1 200 OK\nContent-Type: text/html\nContent-Length: " + cl + "\n\n"
  {
    assert "HTTP/1.1 200 OK\nContent-Type: " + "text/html" == "HTTP/1.1 200 OK\nContent-Type: text/html";
    assert "HTTP/1.1 200 OK\nContent-Type: text/html" + "\nContent-Length: "
        == "HTTP/1.1 200 OK\nContent-Type: text/html\nContent-Length: ";
  }
}
