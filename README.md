# Request handling of the multi-threaded web server

This project models what `handle_client` in `Main.py` does with one
connection. It reads the request once and decodes it. It takes the method and
path from the first line and rewrites `/` to `/index.html`. It then picks the
first route that applies:

1. a file at `"static" + path`;
2. the `/datetime` clock page;
3. the `/api/time` JSON clock;
4. a 404 reply, whose body is `static/404.html` or an inline message.

It sends the reply, logs `(method, path, status)`, and closes the connection.
Any exception in between becomes the fixed 500 reply and the fixed error
record. The model also covers the MIME table and `get_content_type` with the
`os.path.splitext` rules.

The world is made of parameters:

- **The socket read** is a `Received` value: the decoded text, or `DecodeFailed`. `DecodeFailed` stands for any exception raised at Main.py:47, whether by `recv` itself (a reset connection, say) or by `decode`; both run the same `except` branch and give the same 500 trace.
- **The file system** is a `Store`, a map from path to `Contents(bytes)` or `Unreadable`. `os.path.isfile` is key membership, and `Unreadable` is a file whose `open`/`read` raises.
- **The clock** is a `Clock` with six integer fields.
- **What the handler does to the world** is an ordered trace of `Send(bytes)`, `Log(record)` and `Close` effects.

Modules:

- `Bytes`: the byte type; the bytes of ASCII text; `str(n)` and its decimal parse; `strftime`'s zero-padded fields.
- `Mime`: `MIME_TYPES`, `os.path.splitext`'s extension and `get_content_type`. It also gives an independent description of a valid extension split, proved equivalent.
- `RequestLine`: `splitlines()[0]` and `split()` with Python's character classes, the token round-trip, and parsing of the request line.
- `Http`: a response as a status, headers and a body. It covers the header block the handler's f-strings produce, and the recovery of the body by a reader that splits at the first blank line.
- `Server`: the dispatcher as a route table (`Resolve` → `Generate` → `DispatchRequest` → `Dispatch` → `ExpectedTrace`). It also holds the handler as written, imperatively: `HandleClient` (try/except/finally), `TryServe` and `Respond` (the `if/elif` chain, with its reassigned `path`, `response_body`, `status`, `response_header` and its early returns). `HandleClient` is proved to produce `ExpectedTrace` exactly.
- `Properties`: what the handler promises, stated over `ExpectedTrace`.

Behaviour of the code worth knowing:

- The code sends no `Content-Length` for `/datetime` and for the 500 reply.
- The code never emits the defined `HTTP_HEADERS`, so no `Server` header is sent.
- Header lines end in a bare `"\n"`, not the CRLF of section 2.1 of RFC 9112.
- If `sendall` raises inside the `try`, the code runs the `except` branch and so sends a second time.

## Model

| member | source | states |
|---|---|---|
| Bytes.AsciiBytes | Main.py:169 | the bytes of ASCII text: same length, each byte the character's code (`encode('utf-8')` of ASCII) |
| Bytes.AsciiBytesAppend | Main.py:169 | encoding a concatenation is concatenating the encodings |
| Bytes.ShowNat | Main.py:72-73 | `str(n)` is a non-empty digit string with no leading zero unless n is 0 |
| Bytes.ParseShowNat | Main.py:72-73 | parsing `str(n)` as a decimal gives n back |
| Bytes.ShowNatDigitsValue | Main.py:72-73 | the digit value of `str(n)` is n |
| Bytes.ZeroPad | Main.py:143-144 | the `%Y`/`%m`/`%d`/`%H`/`%M`/`%S` field is exactly w digits whose value is n |
| Bytes.DigitsValueLeadingZeros | Main.py:143-144 | leading zeros added by padding do not change the value |
| Mime.Extension | Main.py:42 | `os.path.splitext(p)[1]`; ExtensionSound and ExtensionComplete prove it is exactly the valid split |
| Mime.ContentType | Main.py:40-43 | `get_content_type`; ContentTypeOfSplit and ContentTypeRange state its table lookup and range |
| Mime.LastIndex | Main.py:42 | the index of the last occurrence of a character, or -1 when there is none |
| Mime.ExtensionSound | Main.py:42 | a non-empty extension is a dot with no dot or slash after it, ending the path, and the basename before it is not all dots |
| Mime.ExtensionComplete | Main.py:42 | every such split of the path is the extension computed |
| Mime.NoExtensionWithoutSplit | Main.py:40-43 | with no valid split the extension is empty and the type is `application/octet-stream` |
| Mime.ContentTypeOfSplit | Main.py:22-31 | the type is the table entry for the extension, and the default for an extension the table lacks |
| Mime.ContentTypeRange | Main.py:22-31 | every type returned is a table value or the default, and is header-safe ASCII |
| Mime.ContentTypeWithoutDot | Main.py:40-43 | a path with no dot has no extension and is `application/octet-stream` |
| Mime.StaticSplit | Main.py:42 | `static/` + a file name that does not start with a dot + a dot-led extension is a valid split |
| Mime.ContentTypeHtml | Main.py:40-43 | any `static/<name>.html` (name not starting with a dot) is `text/html` |
| Mime.ContentTypeLastDot | Main.py:42-43 | only the last dot counts: `static/<stem>.<mid>.js` is JavaScript whatever `mid` is |
| Mime.ContentTypeLeadingDot | Main.py:42-43 | `static/.html` has no extension |
| Mime.ContentTypeCaseSensitive | Main.py:43 | `static/<name>.HTML` gets the default type: the table is case-sensitive |
| Mime.ContentTypeDotInDirectory | Main.py:42-43 | a dot in a directory name is no extension |
| RequestLine.FirstLine | Main.py:52 | `splitlines()[0]` is the prefix before the first line boundary, and holds none |
| RequestLine.TokenLength | Main.py:53 | the leading run of non-whitespace, ending at whitespace or the end |
| RequestLine.Tokens | Main.py:53 | `str.split()`; TokensWellFormed, TokensCons and TokensJoinSpaced state what it returns |
| RequestLine.TokensWellFormed | Main.py:53 | every token of `split()` is non-empty and whitespace-free |
| RequestLine.TokensSkipSpace | Main.py:53 | leading whitespace does not change `split()` |
| RequestLine.TokensCons | Main.py:53 | a whitespace-free word followed by whitespace is the first token |
| RequestLine.TokensJoinSpaced | Main.py:53 | `split()` undoes joining whitespace-free words with single spaces |
| RequestLine.ParseRequestLine | Main.py:52-54 | method and path are tokens 0 and 1 of the first line, and parsing fails (the `IndexError`) exactly when there are fewer than two |
| RequestLine.ParseWellFormedRequestLine | Main.py:52-54 | `verb SP path SP version` followed by a line break and anything parses to (verb, path) |
| RequestLine.RequestLineTokens | Main.py:53 | the first two tokens of `verb SP path SP version` are the verb and the path |
| RequestLine.RequestLineNoBoundary | Main.py:52 | a request line built from boundary-free parts holds no line boundary |
| RequestLine.FirstLineOfLine | Main.py:52 | the first line of a boundary-free line followed by a boundary is that line |
| RequestLine.ParseExample | Main.py:52-54 | a typical browser request parses to `GET /index.html` |
| RequestLine.ParseOneTokenFails | Main.py:53-54 | a one-token first line fails to parse |
| RequestLine.ParseEmptyFirstLineFails | Main.py:52-54 | a text starting with a line break fails to parse |
| Http.Head | Main.py:73 | the header block an f-string header writes; HeadShape states its shape, and StaticHead, TypeOnlyHead, ApiTimeHead, NotFoundHead and ErrorHeadText tie each literal to it |
| Http.Render | Main.py:169 | `response_header.encode('utf-8') + response_body`; RenderBodyRecoverable states the body is recovered at the first blank line |
| Http.HeaderValue | Main.py:73 | a header lookup finds a value exactly when some header has that name, and the value found is that of the first such header |
| Http.FindBlankLine | Main.py:73 | the first `"\n\n"` at or after a position, or none |
| Http.HeaderLinesShape | Main.py:73 | header lines are ASCII, have no blank line and end in a line feed |
| Http.HeadShape | Main.py:73 | a header block is ASCII, ends in `"\n\n"` and has no earlier blank line |
| Http.RenderBodyRecoverable | Main.py:169 | splitting the sent bytes at the first blank line yields exactly the body |
| Server.Normalize | Main.py:57-58 | the `/` to `/index.html` rewrite; NormalizeOnlyRoot and RootAlias state it |
| Server.Resolve | Main.py:61-64 | the route is the file at `"static" + path` if it exists, else `/datetime`, else `/api/time`, else not-found, each condition both ways |
| Server.FileResponse | Main.py:66-73 | the static reply is well formed |
| Server.DatetimeResponse | Main.py:133-134 | the clock page reply is well formed |
| Server.ApiTimeResponse | Main.py:141-148 | the JSON reply is well formed |
| Server.NotFoundResponse | Main.py:164-166 | the 404 reply is well formed |
| Server.Generate | Main.py:64-166 | every reply a route produces is well formed |
| Server.DispatchRequest | Main.py:56-170 | a parsed request either fails or is served, and never counts as an empty request |
| Server.Dispatch | Main.py:46-54 | the outcome is an empty request exactly when the text read is empty |
| Server.ErrorResponseWellFormed | Main.py:175-176 | the 500 reply is well formed |
| Server.Effects | Main.py:46-181 | the effects of an outcome: send, log and close, or only the close; EffectsShape states their shape |
| Server.ExpectedTrace | Main.py:45-181 | the trace the route table prescribes for one connection; HandleClient is proved to produce it, and TraceShape, FailedIff and FailureIs500 state its properties |
| Server.HandleClient | Main.py:45-181 | the handler's trace is exactly the one the route table prescribes, with the 500 reply and error record on failure and the close last |
| Server.TryServe | Main.py:46-170 | the `try` body raises exactly when the dispatcher fails, and otherwise sends then logs, or does nothing for an empty read |
| Server.Respond | Main.py:56-170 | the `if/elif` chain raises exactly when the chosen file is unreadable, and otherwise sends the route's reply and logs the rewritten path |
| Server.SendAndLog | Main.py:135-136 | sending the header bytes plus the body and logging the record is the served part of the trace for that reply |
| Server.StaticHeader | Main.py:70-73 | the f-string header plus the file bytes is the rendered static reply |
| Server.DatetimeReply | Main.py:133-135 | the f-string header plus the page is the rendered clock page reply |
| Server.ApiTimeReply | Main.py:141-149 | the f-string header plus the JSON bytes is the rendered JSON reply |
| Server.NotFoundHeader | Main.py:164-169 | the f-string header plus the body is the rendered 404 reply |
| Server.RouteStatic | Main.py:64-73 | a readable file at `"static" + path` is served 200 with its own bytes and logged with the rewritten path |
| Server.RouteStaticFails | Main.py:66-68 | an unreadable file at `"static" + path` makes the request fail |
| Server.RouteDatetime | Main.py:75-136 | with no such file, `/datetime` is served as the clock page |
| Server.RouteApiTime | Main.py:139-150 | with no such file, `/api/time` is served as the clock's JSON |
| Server.RouteNotFound | Main.py:153-170 | any other path is a 404 whose body is the inline message without `static/404.html`, that file's bytes when readable, and a failure when unreadable |
| Server.ErrorReplyParts | Main.py:175-177 | the 500 header literal (`ErrorHeader`, declared once) is ASCII, and it plus the inline body is the rendered, well-formed error reply |
| Server.StaticHead | Main.py:73 | the 200 f-string header is the generic header block of its two headers |
| Server.TypeOnlyHead | Main.py:134 | the header literal with only `Content-Type: text/html` (the `/datetime` page, and reused for the 500 reply) is the generic header block of that one header |
| Server.ApiTimeHead | Main.py:148 | the `/api/time` f-string header is the generic header block |
| Server.NotFoundHead | Main.py:166 | the 404 f-string header is the generic header block |
| Server.ErrorHeadText | Main.py:176 | the 500 header literal is the generic header block of the error reply |
| Server.WithLengthWellFormed | Main.py:72-73 | a reply with Content-Type and Content-Length is well formed |
| Server.DateText | Main.py:143 | `now.strftime('%Y-%m-%d')`; DateTextLayout states its layout |
| Server.TimeText | Main.py:144 | `now.strftime('%H:%M:%S')`; TimeTextLayout states its layout |
| Server.ApiTimeJson | Main.py:142-145 | the `json.dumps` body; ApiTimeJsonLayout states its length and that its fields read back as the clock's |
| Server.DateTextLayout | Main.py:143 | `%Y-%m-%d` is 10 ASCII characters with the fields at fixed positions |
| Server.TimeTextLayout | Main.py:144 | `%H:%M:%S` is 8 ASCII characters with the fields at fixed positions |
| Server.ApiTimeJsonLayout | Main.py:142-145 | the JSON body is 42 ASCII characters and its six fields read back as the clock's |
| Properties.EffectsShape | Main.py:46-181 | the effects of any outcome end in their only Close, are `[Close]` only for an empty read, and are otherwise send, log, close |
| Properties.TraceShape | Main.py:45-181 | every trace ends in its only Close; it is `[Close]` exactly for an empty read, otherwise send, log, close |
| Properties.EmptyRequestOnlyCloses | Main.py:48-49 | an empty read sends and logs nothing, but closes |
| Properties.FailureIs500 | Main.py:172-181 | on failure the trace sends the encoded 500 header literal followed by the inline body, then logs the `("ERROR", "N/A", "500 Internal Server Error")` record and closes |
| Properties.FailedIff | Main.py:47-54 | the handler fails exactly on a decode failure, a first line of fewer than two tokens, or an unreadable chosen file |
| Properties.DispatchFailedIff | Main.py:64-160 | a parsed request fails exactly when the file its route reads is unreadable |
| Properties.OneTokenRequestIs500 | Main.py:53-54 | a one-word request line is answered with 500 |
| Properties.RootAlias | Main.py:57-58 | `/` is served and logged exactly as `/index.html` |
| Properties.NormalizeOnlyRoot | Main.py:57-58 | only the exact path `/` is rewritten, and rewriting is idempotent |
| Properties.DispatchReadsOnly | Main.py:61-64 | the outcome depends on the store only through the keys `"static" + path` and `static/404.html` |
| Properties.StaticFileWins | Main.py:64-73 | a readable file at `"static" + path` is served 200 with its bytes unchanged, its content type and its length, whatever the path |
| Properties.DatetimeShadowed | Main.py:64-75 | a file `static/datetime` shadows the clock page and is sent as `application/octet-stream` |
| Properties.TraversalServed | Main.py:61-67 | `/../secret.txt` reads `static/../secret.txt`: there is no containment check |
| Properties.DatetimeServed | Main.py:75-136 | without a shadowing file, `/datetime` serves the fixed page as `text/html` with no Content-Length |
| Properties.ApiTimeServed | Main.py:139-150 | without a shadowing file, `/api/time` serves the clock's JSON as `application/json` with Content-Length `42` |
| Properties.NotFoundServed | Main.py:153-170 | any other path gets 404, `text/html`, the body of `static/404.html` or the inline message, and its length |
| Properties.NotFoundInlineLength | Main.py:162 | the inline 404 body is 22 bytes |
| Properties.ServedFraming | Main.py:66-169 | every reply sent has a Content-Type, a Content-Length that parses to the body length, or none only for `/datetime`, and a body recoverable at the first blank line |
| Properties.GenerateFraming | Main.py:73-166 | for every route, the reply lists Content-Type first, then Content-Length of the body unless it is the clock page |
| Properties.HeaderValues | Main.py:73 | in such a header list Content-Type is found, and a Content-Length found parses to the body length |
| Properties.StaticReplyBytes | Main.py:70-73 | the exact bytes of a static reply: the literal header around the content type and length, then the body |
| Properties.Head200 | Main.py:73 | the 200 header block written out with the status filled in |
| Properties.IndexRequest | Main.py:45-181 | a browser's `GET /` with `static/index.html` present yields the page as `text/html`, a `/index.html` log record, and the close |
| Properties.RootRequest | Main.py:45-181 | any request whose line is `GET /`, with `static/index.html` present, yields the page's exact bytes, a `/index.html` record, and the close |
| Properties.IndexReplyBytes | Main.py:70-73 | the reply for `static/index.html` renders as the literal 200 header with `text/html` and the page length, then the page |
| Properties.IndexContentType | Main.py:40-43 | `static/index.html` is `text/html` |
| Properties.RootServed | Main.py:57-73 | a request line for `/` is served from `static/index.html` and logged as `/index.html` |
| Properties.IndexRequestLine | Main.py:52-54 | `GET / HTTP/1.1` followed by headers parses to `GET /` |

## Left out

- The socket (`recv(1024)`, `sendall`, `close`) is a parameter and an effect trace. The model does not cover the 1024-byte read limit or a request longer than one read.
- UTF-8 decoding is not modelled; the read is either decoded text or `DecodeFailed`.
- `MultiThreadedWebServer` (the thread pool, `accept` loop and `listen`) is about concurrency, which the sequential trace cannot state.
- `log_request` is reduced to a `(method, path, status)` record. Its timestamp, client address, `print` and append to `server.log` are I/O.
- The `print` of the error in the `except` branch is console output and is not modelled.
- A `sendall` or `log_request` that raises inside the `try` is not modelled. It would run the `except` branch and send a second time.
- The `/datetime` HTML/JavaScript page is an abstract constant byte string.
- `datetime.now()` is the `Clock` parameter. `%Y` is modelled as four zero-padded digits. Python's output for years below 1000 depends on the platform's `strftime`.
- `os.path.isfile` is key membership in the store, so operating-system path resolution is not modelled. This covers `..`, symbolic links, directories, and paths with NUL characters (which `isfile` reports as absent).
- `Bytes.AsciiBytes`: the model encodes only ASCII text, because every header the handler writes is ASCII (status literals, MIME table values, digits), and so is the JSON body.
- `HTTP_HEADERS` is defined but never used, so no `Server` header is modelled.
- The import-time creation of `static/index.html`, the `KeyboardInterrupt` shutdown and `ConCurrentTester.py` are outside the request-handling core.
- `Server.DispatchRequest`, `Server.Generate`: their own contracts state only well-formedness and the kind of outcome. What they compute is stated route by route in the `Properties` lemmas.
