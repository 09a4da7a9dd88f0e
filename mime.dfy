/** Content-type inference: `MIME_TYPES` and `get_content_type`
    (Main.py:22-31, 40-43), with the extension taken as POSIX
    `os.path.splitext` does. */
module Mime {
  import opened Bytes

  const MimeTypes: map<string, string> := map[
    ".html" := "text/html",
    ".css" := "text/css",
    ".js" := "application/javascript",
    ".jpg" := "image/jpeg",
    ".jpeg" := "image/jpeg",
    ".png" := "image/png",
    ".gif" := "image/gif",
    ".txt" := "text/plain"
  ]

  const DefaultType := "application/octet-stream"

  /** Index of the last occurrence of `c` in `s`, or -1 (Python `str.rfind`). */
  function LastIndex(s: string, c: char): (r: int)
    ensures -1 <= r < |s|
    ensures r >= 0 ==> s[r] == c
    ensures forall j :: r < j < |s| ==> s[j] != c
  {
    if s == [] then -1
    else if s[|s| - 1] == c then |s| - 1
    else LastIndex(s[..|s| - 1], c)
  }

  predicate HasNonDot(s: string) {
    exists k :: 0 <= k < |s| && s[k] != '.'
  }

  /** `os.path.splitext(p)[1]`: the text from the last '.', provided that dot
      lies in the final path component and that component has some
      character other than '.' before it; otherwise the empty string. */
  function Extension(p: string): string {
    var sep := LastIndex(p, '/');
    var dot := LastIndex(p, '.');
    if dot > sep && HasNonDot(p[sep + 1..dot]) then p[dot..] else ""
  }

  /** `get_content_type(filepath)` */
  function ContentType(p: string): string {
    var ext := Extension(p);
    if ext in MimeTypes then MimeTypes[ext] else DefaultType
  }

  // ---------------------------------------------------------------------
  // An independent description of the extension split.

  /** The final path component of `root` (after its last '/'). */
  function Basename(root: string): string {
    root[LastIndex(root, '/') + 1..]
  }

  /** `p` is `root + ext` where `ext` is one dot followed by no dot or
      slash, and the basename of `root` is not made of dots only. */
  predicate IsExtensionSplit(p: string, root: string, ext: string) {
    && p == root + ext
    && |ext| >= 1 && ext[0] == '.'
    && (forall i :: 1 <= i < |ext| ==> ext[i] != '.' && ext[i] != '/')
    && HasNonDot(Basename(root))
  }

  /** A non-empty extension is a genuine split of the path. */
  lemma ExtensionSound(p: string)
    requires Extension(p) != ""
    ensures IsExtensionSplit(p, p[..|p| - |Extension(p)|], Extension(p))
  {
    var sep := LastIndex(p, '/');
    var dot := LastIndex(p, '.');
    assert dot > sep && HasNonDot(p[sep + 1..dot]);
    assert Extension(p) == p[dot..];
    LastIndexPrefix(p, dot, '/');
    SplitAtLastDot(p, sep, dot);
  }

  lemma SplitAtLastDot(p: string, sep: int, dot: int)
    requires -1 <= sep < dot < |p| && p[dot] == '.'
    requires forall j :: dot < j < |p| ==> p[j] != '.'
    requires forall j :: sep < j < |p| ==> p[j] != '/'
    requires LastIndex(p[..dot], '/') == sep
    requires HasNonDot(p[sep + 1..dot])
    ensures IsExtensionSplit(p, p[..|p| - |p[dot..]|], p[dot..])
  {
    var ext := p[dot..];
    var root := p[..dot];
    assert p[..|p| - |ext|] == root;
    assert p == root + ext;
    forall i | 1 <= i < |ext|
      ensures ext[i] != '.' && ext[i] != '/'
    {
      assert ext[i] == p[dot + i];
    }
    assert Basename(root) == p[sep + 1..dot];
  }

  /** Every genuine split is the one `Extension` finds. */
  lemma ExtensionComplete(p: string, root: string, ext: string)
    requires IsExtensionSplit(p, root, ext)
    ensures Extension(p) == ext
  {
    assert forall j :: |root| < j < |p| ==> p[j] == ext[j - |root|];
    assert p[|root|] == '.';
    assert LastIndex(p, '.') == |root|;
    LastIndexPrefix(p, |root|, '/');
    assert p[..|root|] == root;
    assert p[LastIndex(p, '/') + 1..|root|] == Basename(root);
  }

  /** When `c` does not occur at or after `k`, the last `c` lies in p[..k]. */
  lemma LastIndexPrefix(p: string, k: nat, c: char)
    requires k <= |p|
    requires forall j :: k <= j < |p| ==> p[j] != c
    ensures LastIndex(p, c) == LastIndex(p[..k], c)
    ensures LastIndex(p, c) < k
  {
    var r := LastIndex(p, c);
    var q := LastIndex(p[..k], c);
    assert r < k;
    if r >= 0 { assert p[..k][r] == c; }
    if q >= 0 { assert p[q] == c; }
  }

  /** The last `c` is at `k` when `c` is at `k` and nowhere after it. */
  lemma LastIndexAt(s: string, c: char, k: nat)
    requires k < |s| && s[k] == c
    requires forall j :: k < j < |s| ==> s[j] != c
    ensures LastIndex(s, c) == k
  {
  }

  /** No extension when the final component holds no dot after a non-dot. */
  lemma NoExtensionWithoutSplit(p: string)
    requires forall root, ext :: !IsExtensionSplit(p, root, ext)
    ensures Extension(p) == ""
    ensures ContentType(p) == DefaultType
  {
    if Extension(p) != "" {
      ExtensionSound(p);
    }
  }

  /** A path without any dot has no extension and is sent as binary. */
  lemma ContentTypeWithoutDot(p: string)
    requires forall i :: 0 <= i < |p| ==> p[i] != '.'
    ensures Extension(p) == "" && ContentType(p) == DefaultType
  {
    assert LastIndex(p, '.') == -1;
  }

  /** `get_content_type` returns the table entry for the extension, and the
      generic binary type for any extension the table lacks. */
  lemma ContentTypeOfSplit(p: string, root: string, ext: string)
    requires IsExtensionSplit(p, root, ext)
    ensures ext in MimeTypes ==> ContentType(p) == MimeTypes[ext]
    ensures ext !in MimeTypes ==> ContentType(p) == DefaultType
  {
    ExtensionComplete(p, root, ext);
  }

  /** Every content type is one of the table's values or the default, and
      so is ASCII text without line breaks, fit for a header line. */
  lemma ContentTypeRange(p: string)
    ensures ContentType(p) in MimeTypes.Values + {DefaultType}
    ensures IsAscii(ContentType(p)) && NoLF(ContentType(p))
  {
    var t := ContentType(p);
    assert t in {"text/html", "text/css", "application/javascript", "image/jpeg",
                 "image/png", "image/gif", "text/plain", DefaultType};
  }

  /** A file directly under "static" whose name does not start with a dot
      splits at its extension. */
  lemma StaticSplit(name: string, ext: string)
    requires name != [] && name[0] != '.' && forall i :: 0 <= i < |name| ==> name[i] != '/'
    requires |ext| >= 1 && ext[0] == '.'
    requires forall i :: 1 <= i < |ext| ==> ext[i] != '.' && ext[i] != '/'
    ensures IsExtensionSplit("static/" + name + ext, "static/" + name, ext)
  {
    var root := "static/" + name;
    assert root[6] == '/';
    assert forall j :: 6 < j < |root| ==> root[j] == name[j - 7];
    LastIndexAt(root, '/', 6);
    assert Basename(root) == name;
  }

  // Worked cases of the split rules on file paths built from "static".

  /** An ".html" file directly under "static" is text/html. */
  lemma ContentTypeHtml(name: string)
    requires name != [] && name[0] != '.' && forall i :: 0 <= i < |name| ==> name[i] != '/'
    ensures ContentType("static/" + name + ".html") == "text/html"
  {
    StaticSplit(name, ".html");
    ContentTypeOfSplit("static/" + name + ".html", "static/" + name, ".html");
  }

  /** Only the last dot counts: "app.min.js" is JavaScript. */
  lemma ContentTypeLastDot(stem: string, mid: string)
    requires stem != [] && stem[0] != '.' && forall i :: 0 <= i < |stem| ==> stem[i] != '/'
    requires forall i :: 0 <= i < |mid| ==> mid[i] != '/'
    ensures ContentType("static/" + (stem + "." + mid) + ".js") == "application/javascript"
  {
    var name := stem + "." + mid;
    assert name[0] == stem[0];
    assert forall i :: 0 <= i < |stem| ==> name[i] == stem[i];
    assert forall i :: |stem| < i < |name| ==> name[i] == mid[i - |stem| - 1];
    StaticSplit(name, ".js");
    ContentTypeOfSplit("static/" + name + ".js", "static/" + name, ".js");
  }

  /** A dot that leads the basename starts no extension. */
  lemma ContentTypeLeadingDot()
    ensures ContentType("static/.html") == DefaultType
  {
    LastIndexAt("static/.html", '.', 7);
    LastIndexAt("static/.html", '/', 6);
  }

  /** The table is case-sensitive: an upper-case ".HTML" file is binary. */
  lemma ContentTypeCaseSensitive(name: string)
    requires name != [] && name[0] != '.' && forall i :: 0 <= i < |name| ==> name[i] != '/'
    ensures ContentType("static/" + name + ".HTML") == DefaultType
  {
    StaticSplit(name, ".HTML");
    assert ".HTML" !in MimeTypes;
    ContentTypeOfSplit("static/" + name + ".HTML", "static/" + name, ".HTML");
  }

  /** A dot in a directory name is not an extension. */
  lemma ContentTypeDotInDirectory()
    ensures ContentType("static/v1.2/README") == DefaultType
  {
    LastIndexAt("static/v1.2/README", '.', 9);
    LastIndexAt("static/v1.2/README", '/', 11);
  }
}
