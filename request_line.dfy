/** Request-line parsing of `handle_client` (Main.py:52-54): the first line
    of the received text (`str.splitlines()[0]`) split on runs of whitespace
    (`str.split()`); the first two tokens are the method and the path. */
module RequestLine {
  import opened Bytes

  /** Characters at which Python's `str.splitlines` ends a line. */
  predicate IsLineBoundary(c: char) {
    c in {'\n', '\r', '\U{B}', '\U{C}', '\U{1C}', '\U{1D}', '\U{1E}',
          '\U{85}', '\U{2028}', '\U{2029}'}
  }

  /** Characters for which Python's `str.isspace` holds; `str.split()` with
      no argument separates on runs of these. */
  predicate IsSpace(c: char) {
    || IsLineBoundary(c)
    || c in {' ', '\t', '\U{1F}', '\U{A0}', '\U{1680}', '\U{202F}', '\U{205F}', '\U{3000}'}
    || ('\U{2000}' <= c <= '\U{200A}')
  }

  predicate NoSpace(s: string) {
    forall i :: 0 <= i < |s| ==> !IsSpace(s[i])
  }

  /** `s.splitlines()[0]` for a non-empty `s`: everything before the first
      line boundary (a "\r\n" pair ends the line at its '\r'). */
  function FirstLine(s: string): (line: string)
    ensures |line| <= |s| && line == s[..|line|]
    ensures forall i :: 0 <= i < |line| ==> !IsLineBoundary(line[i])
    ensures |line| < |s| ==> IsLineBoundary(s[|line|])
  {
    if s == [] || IsLineBoundary(s[0]) then [] else [s[0]] + FirstLine(s[1..])
  }

  /** Length of the leading run of non-whitespace characters. */
  function TokenLength(s: string): (n: nat)
    ensures n <= |s| && NoSpace(s[..n])
    ensures n < |s| ==> IsSpace(s[n])
  {
    if s == [] || IsSpace(s[0]) then 0 else 1 + TokenLength(s[1..])
  }

  /** `s.split()`: the maximal runs of non-whitespace characters, in order. */
  function Tokens(s: string): (ts: seq<string>)
    decreases |s|
  {
    if s == [] then []
    else if IsSpace(s[0]) then Tokens(s[1..])
    else
      var n := TokenLength(s);
      [s[..n]] + Tokens(s[n..])
  }

  datatype Request = Request(verb: string, path: string)

  /** `request_line = headers[0].split()` followed by the two indexings;
      `None` stands for the `IndexError` raised on fewer than two tokens. */
  function ParseRequestLine(text: string): (r: Option<Request>)
    ensures r.Some? <==> |Tokens(FirstLine(text))| >= 2
    ensures r.Some? ==> (r.value.verb == Tokens(FirstLine(text))[0]
                      && r.value.path == Tokens(FirstLine(text))[1])
  {
    var tokens := Tokens(FirstLine(text));
    if |tokens| < 2 then None else Some(Request(tokens[0], tokens[1]))
  }

  // ---------------------------------------------------------------------
  // What `split` promises

  /** Every token is non-empty and free of whitespace. */
  lemma {:induction false} TokensWellFormed(s: string)
    ensures forall k :: 0 <= k < |Tokens(s)| ==> Tokens(s)[k] != [] && NoSpace(Tokens(s)[k])
    decreases |s|
  {
    if s != [] {
      if IsSpace(s[0]) {
        TokensWellFormed(s[1..]);
      } else {
        TokensWellFormed(s[TokenLength(s)..]);
      }
    }
  }

  /** Leading whitespace is skipped. */
  lemma {:induction false} TokensSkipSpace(w: string, s: string)
    requires forall i :: 0 <= i < |w| ==> IsSpace(w[i])
    ensures Tokens(w + s) == Tokens(s)
    decreases |w|
  {
    if w != [] {
      assert (w + s)[1..] == w[1..] + s;
      TokensSkipSpace(w[1..], s);
    } else {
      assert w + s == s;
    }
  }

  /** A whitespace-free word followed by whitespace (or by nothing) is the
      first token. */
  lemma TokensCons(t: string, s: string)
    requires t != [] && NoSpace(t)
    requires s == [] || IsSpace(s[0])
    ensures Tokens(t + s) == [t] + Tokens(s)
  {
    TokenLengthPrefix(t, s);
    assert (t + s)[..|t|] == t;
    assert (t + s)[|t|..] == s;
  }

  lemma {:induction false} TokenLengthPrefix(t: string, s: string)
    requires NoSpace(t)
    requires s == [] || IsSpace(s[0])
    ensures TokenLength(t + s) == |t|
    decreases |t|
  {
    if t == [] {
      assert t + s == s;
    } else {
      assert (t + s)[1..] == t[1..] + s;
      TokenLengthPrefix(t[1..], s);
    }
  }

  /** Words joined by single spaces. */
  function JoinSpaced(ws: seq<string>): string {
    if ws == [] then "" else if |ws| == 1 then ws[0] else ws[0] + " " + JoinSpaced(ws[1..])
  }

  /** `split` undoes a join by single spaces of whitespace-free words. */
  lemma {:induction false} TokensJoinSpaced(ws: seq<string>)
    requires forall k :: 0 <= k < |ws| ==> ws[k] != [] && NoSpace(ws[k])
    ensures Tokens(JoinSpaced(ws)) == ws
  {
    if |ws| == 1 {
      TokensCons(ws[0], "");
      assert ws[0] + "" == ws[0];
    } else if |ws| > 1 {
      var rest := JoinSpaced(ws[1..]);
      assert ws[0] + " " + rest == ws[0] + (" " + rest);
      TokensCons(ws[0], " " + rest);
      TokensSkipSpace(" ", rest);
      TokensJoinSpaced(ws[1..]);
    }
  }

  /** A request whose first line is `verb SP path [SP version]`, followed by
      a line boundary and anything else, parses to that method and path. */
  lemma ParseWellFormedRequestLine(verb: string, path: string, version: string, rest: string)
    requires verb != [] && NoSpace(verb)
    requires path != [] && NoSpace(path)
    requires NoSpace(version)
    requires rest == [] || IsLineBoundary(rest[0])
    ensures ParseRequestLine(verb + " " + path + " " + version + rest)
         == Some(Request(verb, path))
  {
    var line := verb + " " + path + " " + version;
    RequestLineNoBoundary(verb, path, version);
    FirstLineOfLine(line, rest);
    RequestLineTokens(verb, path, version);
  }

  lemma RequestLineNoBoundary(verb: string, path: string, version: string)
    requires NoSpace(verb) && NoSpace(path) && NoSpace(version)
    ensures NoBoundary(verb + " " + path + " " + version)
  {
    var afterPath := " " + version;
    var fromPath := path + afterPath;
    var afterVerb := " " + fromPath;
    SpacedRegroup(verb, path, version);
    NoSpaceAppend(" ", version);
    NoSpaceAppend(path, afterPath);
    NoSpaceAppend(" ", fromPath);
    NoSpaceAppend(verb, afterVerb);
  }

  lemma RequestLineTokens(verb: string, path: string, version: string)
    requires verb != [] && NoSpace(verb)
    requires path != [] && NoSpace(path)
    requires NoSpace(version)
    ensures var ts := Tokens(verb + " " + path + " " + version);
            |ts| >= 2 && ts[0] == verb && ts[1] == path
  {
    var afterPath := " " + version;
    var fromPath := path + afterPath;
    var afterVerb := " " + fromPath;
    SpacedRegroup(verb, path, version);
    assert IsSpace(afterVerb[0]) && IsSpace(afterPath[0]);
    TokensCons(verb, afterVerb);
    TokensSkipSpace(" ", fromPath);
    TokensCons(path, afterPath);
    var ts := [verb] + ([path] + Tokens(afterPath));
    assert Tokens(verb + afterVerb) == ts;
    assert ts[0] == verb && ts[1] == path;
  }

  lemma SpacedRegroup(verb: string, path: string, version: string)
    ensures verb + " " + path + " " + version == verb + (" " + (path + (" " + version)))
  {
  }

  /** Strings with no line boundary. */
  predicate NoBoundary(s: string) {
    forall i :: 0 <= i < |s| ==> !IsLineBoundary(s[i])
  }

  lemma NoSpaceAppend(a: string, b: string)
    requires a == " " || NoSpace(a)
    requires NoSpace(b) || NoBoundary(b)
    ensures NoBoundary(a + b)
  {
    assert forall i :: 0 <= i < |a| ==> (a + b)[i] == a[i];
    assert forall i :: |a| <= i < |a + b| ==> (a + b)[i] == b[i - |a|];
  }

  /** The first line of `line + rest` is `line` when `line` has no boundary
      and `rest` starts with one. */
  lemma {:induction false} FirstLineOfLine(line: string, rest: string)
    requires NoBoundary(line)
    requires rest == [] || IsLineBoundary(rest[0])
    ensures FirstLine(line + rest) == line
    decreases |line|
  {
    if line == [] {
      assert line + rest == rest;
    } else {
      assert (line + rest)[1..] == line[1..] + rest;
      FirstLineOfLine(line[1..], rest);
    }
  }

  /** The usual browser request line parses to its method and path. */
  lemma ParseExample()
    ensures ParseRequestLine("GET /index.html HTTP/1.1" + "\r\nHost: localhost\r\n\r\n")
         == Some(Request("GET", "/index.html"))
  {
    assert NoSpace("GET");
    assert NoSpace("/index.html");
    assert NoSpace("HTTP/1.1");
    ExampleLine();
    ParseWellFormedRequestLine("GET", "/index.html", "HTTP/1.1", "\r\nHost: localhost\r\n\r\n");
  }

  lemma ExampleLine()
    ensures "GET" + " " + "/index.html" + " " + "HTTP/1.1" == "GET /index.html HTTP/1.1"
  {
    assert "GET" + " " == "GET ";
    assert "GET " + "/index.html" == "GET /index.html";
    assert "GET /index.html" + " " == "GET /index.html ";
  }

  /** A first line with a single token is rejected. */
  lemma ParseOneTokenFails(word: string, rest: string)
    requires word != [] && NoSpace(word)
    requires rest == [] || IsLineBoundary(rest[0])
    ensures ParseRequestLine(word + rest) == None
  {
    assert NoBoundary(word);
    FirstLineOfLine(word, rest);
    TokensCons(word, "");
    assert word + "" == word;
  }

  /** A text starting with a line boundary has an empty first line and is
      rejected. */
  lemma ParseEmptyFirstLineFails(text: string)
    requires text != [] && IsLineBoundary(text[0])
    ensures ParseRequestLine(text) == None
  {
  }
}
