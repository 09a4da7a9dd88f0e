/** Response rendering as `handle_client` writes it (Main.py:73, 134, 148,
    166, 176): `HTTP/1.1 <status>`, one `Name: value` line per header, a
    blank line, then the body. Lines end in a bare "\n", not the CRLF of
    section 2.1 of RFC 9112. */
module Http {
  import opened Bytes

  datatype Header = Header(name: string, value: string)

  datatype Response = Response(status: string, headers: seq<Header>, body: seq<byte>)

  function HeaderLines(hs: seq<Header>): string {
    if hs == [] then "" else hs[0].name + ": " + hs[0].value + "\n" + HeaderLines(hs[1..])
  }

  /** The header block: status line, header lines, blank line. */
  function Head(r: Response): string {
    "HTTP/1.1 " + r.status + "\n" + HeaderLines(r.headers) + "\n"
  }

  /** `response_header.encode('utf-8') + response_body` */
  function Render(r: Response): seq<byte>
    requires WellFormed(r)
  {
    HeadShape(r);
    AsciiBytes(Head(r)) + r.body
  }

  /** The value of the first header called `name`, if any. */
  function HeaderValue(hs: seq<Header>, name: string): (v: Option<string>)
    ensures v.Some? <==> exists k :: 0 <= k < |hs| && hs[k].name == name
    ensures v.Some? ==> exists k :: && 0 <= k < |hs| && hs[k].name == name && hs[k].value == v.value
                                    && forall j :: 0 <= j < k ==> hs[j].name != name
  {
    if hs == [] then None
    else if hs[0].name == name then Some(hs[0].value)
    else HeaderValue(hs[1..], name)
  }

  // ---------------------------------------------------------------------
  // How a reader recovers the body: the first blank line ends the header
  // block.

  /** Index of the first "\n\n" in `bs`, searching from `from`. */
  function FindBlankLine(bs: seq<byte>, from: nat): (r: Option<nat>)
    ensures r.Some? ==> from <= r.value && r.value + 1 < |bs|
                        && bs[r.value] == LF && bs[r.value + 1] == LF
    ensures r.Some? ==> forall j :: from <= j < r.value ==> !(bs[j] == LF && bs[j + 1] == LF)
    ensures r.None? ==> forall j :: from <= j && j + 1 < |bs| ==> !(bs[j] == LF && bs[j + 1] == LF)
    decreases |bs| - from
  {
    if from + 1 >= |bs| then None
    else if bs[from] == LF && bs[from + 1] == LF then Some(from)
    else FindBlankLine(bs, from + 1)
  }

  /** The reader's split of a received byte string into header block and
      body: everything after the first blank line is the body. */
  function BodyOf(bs: seq<byte>): Option<seq<byte>> {
    match FindBlankLine(bs, 0)
    case None => None
    case Some(k) => Some(bs[k + 2..])
  }

  /** A response whose status and header fields are ASCII and hold no line
      feed; every response the server builds is one. */
  predicate WellFormed(r: Response) {
    && IsAscii(r.status) && NoLF(r.status)
    && forall k :: 0 <= k < |r.headers| ==>
         IsAscii(r.headers[k].name) && NoLF(r.headers[k].name)
         && IsAscii(r.headers[k].value) && NoLF(r.headers[k].value)
  }

  /** No two adjacent line feeds. */
  predicate NoDoubleLF(s: string) {
    forall i :: 0 <= i < |s| - 1 ==> !(s[i] == '\n' && s[i + 1] == '\n')
  }

  predicate StartsNonLF(s: string) {
    s == [] || s[0] != '\n'
  }

  lemma NoDoubleLFAppend(a: string, b: string)
    requires NoDoubleLF(a) && NoDoubleLF(b)
    requires a == [] || b == [] || a[|a| - 1] != '\n' || b[0] != '\n'
    ensures NoDoubleLF(a + b)
  {
    forall i | 0 <= i < |a + b| - 1
      ensures !((a + b)[i] == '\n' && (a + b)[i + 1] == '\n')
    {
      if i + 1 < |a| {
        assert (a + b)[i] == a[i] && (a + b)[i + 1] == a[i + 1];
      } else if i >= |a| {
        assert (a + b)[i] == b[i - |a|] && (a + b)[i + 1] == b[i + 1 - |a|];
      }
    }
  }

  /** A line `x + "\n"` with `x` non-empty and free of line feeds. */
  lemma LineShape(x: string)
    requires x != [] && NoLF(x)
    ensures NoDoubleLF(x + "\n") && StartsNonLF(x + "\n")
    ensures IsAscii(x) ==> IsAscii(x + "\n")
  {
    NoDoubleLFAppend(x, "\n");
  }

  lemma {:induction false} HeaderLinesShape(hs: seq<Header>)
    requires forall k :: 0 <= k < |hs| ==>
               IsAscii(hs[k].name) && NoLF(hs[k].name) && IsAscii(hs[k].value) && NoLF(hs[k].value)
    ensures NoDoubleLF(HeaderLines(hs)) && StartsNonLF(HeaderLines(hs)) && IsAscii(HeaderLines(hs))
    ensures HeaderLines(hs) == [] || HeaderLines(hs)[|HeaderLines(hs)| - 1] == '\n'
  {
    if hs != [] {
      var x := hs[0].name + ": " + hs[0].value;
      assert x[|hs[0].name|] == ':';
      assert forall i :: 0 <= i < |hs[0].name| ==> x[i] == hs[0].name[i];
      assert forall i :: |hs[0].name| + 2 <= i < |x| ==> x[i] == hs[0].value[i - |hs[0].name| - 2];
      LineShape(x);
      HeaderLinesShape(hs[1..]);
      var rest := HeaderLines(hs[1..]);
      assert HeaderLines(hs) == x + "\n" + rest;
      NoDoubleLFAppend(x + "\n", rest);
      AsciiAppend(x + "\n", rest);
    }
  }

  /** The header block of a well-formed response is ASCII, ends in "\n\n",
      and has no earlier blank line. */
  lemma HeadShape(r: Response)
    requires WellFormed(r)
    ensures IsAscii(Head(r)) && |Head(r)| >= 2
    ensures Head(r)[|Head(r)| - 2] == '\n' && Head(r)[|Head(r)| - 1] == '\n'
    ensures NoDoubleLF(Head(r)[..|Head(r)| - 1])
  {
    var status := "HTTP/1.1 " + r.status;
    assert status[0] == 'H';
    assert forall i :: 9 <= i < |status| ==> status[i] == r.status[i - 9];
    LineShape(status);
    HeaderLinesShape(r.headers);
    var lines := HeaderLines(r.headers);
    NoDoubleLFAppend(status + "\n", lines);
    AsciiAppend(status, "\n");
    AsciiAppend(status + "\n", lines);
    AsciiAppend(status + "\n" + lines, "\n");
    assert Head(r) == status + "\n" + lines + "\n";
    assert Head(r)[..|Head(r)| - 1] == status + "\n" + lines;
    assert (status + "\n" + lines)[|status + "\n" + lines| - 1] == '\n';
  }

  /** A reader that takes everything after the first blank line as the body
      gets exactly the body the server meant to send. */
  lemma RenderBodyRecoverable(r: Response)
    requires WellFormed(r)
    ensures BodyOf(Render(r)) == Some(r.body)
  {
    HeadShape(r);
    var h := Head(r);
    var bs := Render(r);
    var k := |h| - 2;
    assert bs[k] == LF && bs[k + 1] == LF;
    forall j | 0 <= j < k
      ensures !(bs[j] == LF && bs[j + 1] == LF)
    {
      assert h[..|h| - 1][j] == h[j] && h[..|h| - 1][j + 1] == h[j + 1];
    }
    FindBlankLineAt(bs, k);
    assert bs[k + 2..] == r.body;
  }

  lemma FindBlankLineAt(bs: seq<byte>, k: nat)
    requires k + 1 < |bs| && bs[k] == LF && bs[k + 1] == LF
    requires forall j :: 0 <= j < k ==> !(bs[j] == LF && bs[j + 1] == LF)
    ensures FindBlankLine(bs, 0) == Some(k)
  {
  }
}
