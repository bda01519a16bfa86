/** The page archiver: fetches a page, downloads the resources it references
    into per-kind folders, rewrites the references to the local copies, adds a
    `<base>` tag and saves the result as `index.html`.

    The network and the output directory are oracles: `Network` says what a
    URL serves (with status 200, after redirects), `Disk` which files exist
    under the output directory.  The regular expressions that find references
    are replaced by a scanner that cuts the document into plain text and
    matches, each match carrying its whole text and the captured reference. */
module Fetcher {
  import opened Wrappers
  import opened Strings
  import opened JavaNet

  /** The content each URL serves with status 200; a missing URL fails. */
  type Network = map<string, string>

  /** The files under the output directory, by path relative to it. */
  type Disk = map<string, string>

  /** A stretch of the document: text between matches, or one match with
      its whole text and its captured reference (group 1). */
  datatype Segment = Text(text: string) | Match(whole: string, ref: string)

  /** The document a scan was taken from. */
  function Original(segs: seq<Segment>): string
    decreases |segs|
  {
    if |segs| == 0 then ""
    else
      var last := segs[|segs| - 1];
      Original(segs[..|segs| - 1]) + (if last.Text? then last.text else last.whole)
  }

  /** The seven rewrite passes, in the order `fetchAndSave` runs them. */
  datatype PassKind = CssLink | CssImport | Script | Image | Background | Icon | Font

  const PASSES: seq<PassKind> := [CssLink, CssImport, Script, Image, Background, Icon, Font]

  /** The folder each pass saves into. */
  function Folder(kind: PassKind): string {
    match kind
    case CssLink => "css"
    case CssImport => "css"
    case Script => "js"
    case Image => "images"
    case Background => "images"
    case Icon => "images"
    case Font => "fonts"
  }

  /** The matches of a pass's pattern in a document, as segments. */
  type Scanner = (string, PassKind) -> seq<Segment>

  /** The page being archived: its URL and the protocol and host `new URL`
      found in it ("https" and "" when it does not parse). */
  datatype Origin = Origin(baseUrl: string, protocol: string, host: string)

  function OriginOf(lib: Library, url: string): (o: Origin)
    ensures o.baseUrl == url
    ensures lib.parseUrl(url).None? ==> o.protocol == "https" && o.host == ""
  {
    match lib.parseUrl(url)
    case Some(parts) => Origin(url, parts.protocol, parts.host)
    case None => Origin(url, "https", "")
  }

  // ---------------------------------------------------------------- skipping

  /** References that are never downloaded and stay as they are. */
  predicate IsSkipped(ref: string) {
    || StartsWith(ref, "data:")
    || StartsWith(ref, "blob:")
    || IsBlank(ref)
    || StartsWith(ref, "file://")
    || StartsWith(ref, "#")
  }

  // -------------------------------------------------------------- resolution

  /** A reference that is neither absolute nor protocol-relative: the only
      kind `java.net.URI` is asked to resolve. */
  predicate IsRelative(t: string) {
    !StartsWith(t, "http://") && !StartsWith(t, "https://") && !StartsWith(t, "//")
  }

  /** A reference starting with "//" names no http(s) scheme. */
  lemma SlashesAreNotScheme(t: string)
    ensures StartsWith(t, "//") ==> !StartsWith(t, "http://") && !StartsWith(t, "https://")
  {
    if StartsWith(t, "//") {
      assert t[0] == '/';
    }
  }

  /** `resolveUrl`: a URL, or Rejected when `URI.resolve` throws the
      IllegalArgumentException that nothing in the archiver catches. */
  datatype Resolution = Resolved(url: string) | Rejected

  function ResolveUrl(lib: Library, o: Origin, ref: string): (r: Resolution)
    ensures var t := Trim(ref);
      (StartsWith(t, "http://") || StartsWith(t, "https://")) ==> r == Resolved(t)
    ensures r.Rejected? <==> IsRelative(Trim(ref)) && lib.resolveUri(o.baseUrl, Trim(ref)).BadReference?
    ensures StartsWith(Trim(ref), "//") ==> r == Resolved(o.protocol + ":" + Trim(ref))
    ensures IsRelative(Trim(ref)) && lib.resolveUri(o.baseUrl, Trim(ref)).Uri? ==>
      r == Resolved(lib.resolveUri(o.baseUrl, Trim(ref)).text)
    ensures IsRelative(Trim(ref)) && lib.resolveUri(o.baseUrl, Trim(ref)).BadBase? ==> r == Resolved(Trim(ref))
  {
    var t := Trim(ref);
    SlashesAreNotScheme(t);
    if StartsWith(t, "http://") || StartsWith(t, "https://") then Resolved(t)
    else if StartsWith(t, "//") then Resolved(o.protocol + ":" + t)
    else
      match lib.resolveUri(o.baseUrl, t)
      case Uri(u) => Resolved(u)
      case BadBase => Resolved(t)
      case BadReference => Rejected
  }

  /** Absolute and protocol-relative references never reach `java.net.URI`:
      their resolution does not depend on the library or on the base URL. */
  lemma ResolvePrefixesIgnoreBase(lib1: Library, lib2: Library, o1: Origin, o2: Origin, ref: string)
    requires o1.protocol == o2.protocol
    requires var t := Trim(ref); StartsWith(t, "http://") || StartsWith(t, "https://") || StartsWith(t, "//")
    ensures ResolveUrl(lib1, o1, ref) == ResolveUrl(lib2, o2, ref)
    ensures ResolveUrl(lib1, o1, ref).Resolved?
    ensures StartsWith(Trim(ref), "//") ==> ResolveUrl(lib1, o1, ref).url == o1.protocol + ":" + Trim(ref)
  {
    var t := Trim(ref);
    if StartsWith(t, "//") {
      assert !StartsWith(t, "http://") && !StartsWith(t, "https://") by {
        assert t[1] == '/';
      }
    }
  }

  // --------------------------------------------------------------- filenames

  predicate IsSafeChar(c: char) {
    ('a' <= c <= 'z') || ('A' <= c <= 'Z') || ('0' <= c <= '9') || c == '.' || c == '_' || c == '-'
  }

  predicate IsSafeName(s: string) {
    forall i :: 0 <= i < |s| ==> IsSafeChar(s[i])
  }

  /** `replaceAll("[^a-zA-Z0-9._-]", "_")`: every other character becomes '_'. */
  function Sanitize(s: string): (r: string)
    ensures |r| == |s| && IsSafeName(r)
    ensures forall i :: 0 <= i < |s| && IsSafeChar(s[i]) ==> r[i] == s[i]
  {
    seq(|s|, i requires 0 <= i < |s| => if IsSafeChar(s[i]) then s[i] else '_')
  }

  lemma SafeConcat(a: string, b: string)
    requires IsSafeName(a) && IsSafeName(b)
    ensures IsSafeName(a + b)
  {
    assert forall i :: |a| <= i < |a| + |b| ==> (a + b)[i] == b[i - |a|];
  }

  /** The extension guessed for a synthesised name: the first of these the
      URL contains anywhere, ".bin" when none. */
  function GuessExtension(url: string): (ext: string)
    ensures ext in [".css", ".js", ".png", ".jpg", ".gif", ".svg", ".woff2", ".woff", ".bin"]
    ensures 3 <= |ext| <= 6 && ext[0] == '.' && IsSafeName(ext)
  {
    if Contains(url, ".css") then ".css"
    else if Contains(url, ".js") then ".js"
    else if Contains(url, ".png") then ".png"
    else if Contains(url, ".jpg") || Contains(url, ".jpeg") then ".jpg"
    else if Contains(url, ".gif") then ".gif"
    else if Contains(url, ".svg") then ".svg"
    else if Contains(url, ".woff2") then ".woff2"
    else if Contains(url, ".woff") then ".woff"
    else ".bin"
  }

  /** `"resource_" + Math.abs(url.hashCode())` */
  function HashName(url: string): (r: string)
    ensures IsSafeName(r) && 10 <= |r| <= 20
  {
    var digits := IntToString(JavaAbs(JavaHashCode(url)));
    IntToStringShort(JavaAbs(JavaHashCode(url)));
    "resource_" + digits
  }

  /** The name given to a last segment that is empty or has no dot. */
  function SynthesisedName(url: string): (r: string)
    ensures IsSafeName(r) && '.' in r && |r| <= 26
  {
    var ext := GuessExtension(url);
    SafeConcat(HashName(url), ext);
    var r := HashName(url) + ext;
    assert r[|HashName(url)|] == '.';
    r
  }

  /** The name that answers when `getFilenameFromUrl` throws. */
  function FallbackName(url: string): (r: string)
    ensures IsSafeName(r) && '.' in r && 0 < |r| <= 24
  {
    var ext := ".bin";
    assert IsSafeName(ext) && ext[0] == '.';
    SafeConcat(HashName(url), ext);
    var r := HashName(url) + ext;
    assert r[|HashName(url)|] == '.';
    r
  }

  /** The last path segment of the URL with query and fragment cut off; None
      where one of the three splits yields an empty array and indexing it
      throws. */
  function LastSegment(url: string): Option<string> {
    match SplitFirst(url, '?')
    case None => None
    case Some(path) =>
      match SplitFirst(path, '#')
      case None => None
      case Some(path') => SplitLast(path', '/')
  }

  /** The 200-character cap: a long name keeps its last extension and loses
      characters before it; None where `substring` is handed a negative end
      because the extension alone is longer than 200. */
  function CapLength(clean: string): (r: Option<string>)
    requires IsSafeName(clean) && '.' in clean
    ensures |clean| <= 200 ==> r == Some(clean)
    ensures r.Some? ==> IsSafeName(r.value) && 0 < |r.value| <= 200 && '.' in r.value
  {
    if |clean| <= 200 then Some(clean)
    else
      var dot := LastIndexOfChar(clean, '.');
      if dot > 0 then
        var ext := clean[dot..];
        if |ext| > 200 then None
        else
          assert ext[0] == '.';
          var r := clean[..200 - |ext|] + ext;
          assert r[200 - |ext|] == '.';
          Some(r)
      else
        assert clean[0] == '.';
        Some(clean[..200])
  }

  /** `getFilenameFromUrl` */
  function FilenameFromUrl(url: string): (name: string)
    ensures IsSafeName(name)
    ensures 0 < |name| <= 200
    ensures '.' in name
  {
    match LastSegment(url)
    case None => FallbackName(url)
    case Some(segment) =>
      var named := if segment == "" || '.' !in segment then SynthesisedName(url) else segment;
      var clean := Sanitize(named);
      assert '.' in clean by {
        var k :| 0 <= k < |named| && named[k] == '.';
        assert clean[k] == '.';
      }
      match CapLength(clean)
      case Some(name) => name
      case None => FallbackName(url)
  }

  lemma SanitizeSafe(s: string)
    requires IsSafeName(s)
    ensures Sanitize(s) == s
  {
  }

  /** Without '?' or '#', the last segment is what follows the last '/'. */
  lemma LastSegmentOfPath(prefix: string, segment: string)
    requires '?' !in prefix && '#' !in prefix && '?' !in segment && '#' !in segment
    requires segment != "" && '/' !in segment
    ensures LastSegment(prefix + "/" + segment) == Some(segment)
  {
    var url := prefix + "/" + segment;
    assert '?' !in url && '#' !in url by {
      forall i | 0 <= i < |url|
        ensures url[i] != '?' && url[i] != '#'
      {
        if i < |prefix| {
          assert url[i] == prefix[i];
        } else if i > |prefix| {
          assert url[i] == segment[i - |prefix| - 1];
        }
      }
    }
    assert SplitFirst(url, '?') == Some(url);
    assert SplitFirst(url, '#') == Some(url);
    SplitLastIsSuffix(prefix, '/', segment);
  }

  /** A last segment that is already a safe, short name with a dot is kept. */
  lemma PlainNameKept(prefix: string, name: string)
    requires '?' !in prefix && '#' !in prefix
    requires name != "" && '.' in name && IsSafeName(name) && |name| <= 200 && '/' !in name
    ensures FilenameFromUrl(prefix + "/" + name) == name
  {
    assert '?' !in name && '#' !in name;
    LastSegmentOfPath(prefix, name);
    SanitizeSafe(name);
  }

  /** A dot-less last segment gets a synthesised name. */
  lemma DotlessSegmentSynthesised(prefix: string, segment: string)
    requires '?' !in prefix && '#' !in prefix
    requires segment != "" && '.' !in segment && '/' !in segment && '?' !in segment && '#' !in segment
    ensures FilenameFromUrl(prefix + "/" + segment) == SynthesisedName(prefix + "/" + segment)
  {
    var url := prefix + "/" + segment;
    LastSegmentOfPath(prefix, segment);
    SanitizeSafe(SynthesisedName(url));
  }

  /** A URL that is only a query separator splits into nothing, and the
      name falls back to the hash of the URL: "?".hashCode() is 63. */
  lemma QueryOnlyHasNoSegment()
    ensures LastSegment("?") == None
  {
    assert SplitPieces("?", '?') == ["", ""] by {
      assert "?"[1..] == "";
    }
  }

  lemma HashNameOfQuery()
    ensures HashName("?") == "resource_63"
  {
    assert JavaHashCode("?") == 63 by {
      assert Utf16Units("?") == [63] by {
        assert "?"[..0] == "";
      }
      assert HashUnits([63]) == WrapInt32(63) by {
        assert [63][..0] == [];
      }
    }
    assert JavaAbs(63) == 63;
    assert IntToString(63) == "63" by {
      assert NatToString(6) == "6";
    }
  }

  lemma QueryOnlyFallsBack()
    ensures FilenameFromUrl("?") == "resource_63.bin"
  {
    QueryOnlyHasNoSegment();
    NoSegmentFallsBack("?");
    HashNameOfQuery();
    assert "resource_63" + ".bin" == "resource_63.bin";
  }

  /** Without a last segment, the name is the hash name with ".bin". */
  lemma NoSegmentFallsBack(url: string)
    requires LastSegment(url) == None
    ensures FilenameFromUrl(url) == HashName(url) + ".bin"
  {
  }

  // ---------------------------------------------------------- collision loop

  /** The longest string in a finite set (0 for the empty set). */
  ghost function MaxLen(s: set<string>): (m: nat)
    ensures forall x :: x in s ==> |x| <= m
    decreases s
  {
    if s == {} then 0
    else
      var x :| x in s;
      var m := MaxLen(s - {x});
      if |x| > m then |x| else m
  }

  /** One retry of the collision loop: "_<counter>" goes before the last dot. */
  function Bump(name: string, counter: int): (r: string)
    requires '.' in name
    ensures '.' in r && |r| > |name|
  {
    var dot := LastIndexOfChar(name, '.');
    name[..dot] + "_" + IntToString(counter) + name[dot..]
  }

  /** `Files.exists` of `name` in the folder: the folder's own entries "."
      and ".." always exist, since the folder has just been created inside
      the output directory; any other name exists when its file does. */
  predicate Exists(files: set<string>, folder: string, name: string) {
    name == "." || name == ".." || folder + "/" + name in files
  }

  /** The name the collision loop settles on, retrying from `counter`. */
  function FreeName(files: set<string>, folder: string, name: string, counter: int): (r: string)
    requires '.' in name
    ensures '.' in r
    ensures !Exists(files, folder, r)
    decreases MaxLen(files) + |folder| + 3 - |folder + "/" + name|
  {
    if !Exists(files, folder, name) then name
    else FreeName(files, folder, Bump(name, counter), counter + 1)
  }

  /** The folder's own entry "." is never overwritten: the file is saved
      as "_1.", unless that is taken too. */
  lemma DotEntryRenamed(files: set<string>, folder: string)
    requires folder + "/" + "_1." !in files
    ensures FreeName(files, folder, ".", 1) == "_1."
  {
    OneDigit(1, '1');
    BumpBeforeExtension("", "", 1);
    assert "" + "." + "" == "." && "" + "_" + "1" + "." + "" == "_1.";
  }

  /** Nor is the parent entry "..": the file is saved as "._1.". */
  lemma ParentEntryRenamed(files: set<string>, folder: string)
    requires folder + "/" + "._1." !in files
    ensures FreeName(files, folder, "..", 1) == "._1."
  {
    OneDigit(1, '1');
    BumpBeforeExtension(".", "", 1);
    assert "." + "." + "" == ".." && "." + "_" + "1" + "." + "" == "._1.";
  }

  /** The suffix goes before the extension after the last dot. */
  lemma BumpBeforeExtension(stem: string, ext: string, counter: int)
    requires '.' !in ext
    ensures Bump(stem + "." + ext, counter) == stem + "_" + IntToString(counter) + "." + ext
  {
    var name := stem + "." + ext;
    assert name == stem + ['.'] + ext;
    LastIndexOfCharAt(stem, '.', ext);
    assert name[..|stem|] == stem;
    assert name[|stem|..] == "." + ext;
  }

  /** A counter below ten is written as one digit. */
  lemma OneDigit(counter: int, digit: char)
    requires 0 <= counter < 10 && digit == DigitChar(counter)
    ensures IntToString(counter) == [digit]
  {
  }

  lemma BumpFirst()
    ensures Bump("style.css", 1) == "style_1.css"
  {
    OneDigit(1, '1');
    BumpBeforeExtension("style", "css", 1);
    assert "style" + "." + "css" == "style.css";
  }

  lemma BumpSecond()
    ensures Bump("style_1.css", 2) == "style_1_2.css"
  {
    OneDigit(2, '2');
    BumpBeforeExtension("style_1", "css", 2);
    assert "style_1" + "." + "css" == "style_1.css";
  }

  /** Suffixes accumulate: with style.css and style_1.css taken, the loop
      tries style_1.css and then settles on style_1_2.css. */
  lemma CollisionSuffixesAccumulate()
    ensures FreeName({"css/style.css", "css/style_1.css"}, "css", "style.css", 1) == "style_1_2.css"
  {
    var files := {"css/style.css", "css/style_1.css"};
    FirstCollision(files);
    SecondCollision(files);
    NoThirdCollision(files);
  }

  lemma FirstCollision(files: set<string>)
    requires files == {"css/style.css", "css/style_1.css"}
    ensures FreeName(files, "css", "style.css", 1) == FreeName(files, "css", "style_1.css", 2)
  {
    assert "css" + "/" + "style.css" == "css/style.css";
    BumpFirst();
  }

  lemma SecondCollision(files: set<string>)
    requires files == {"css/style.css", "css/style_1.css"}
    ensures FreeName(files, "css", "style_1.css", 2) == FreeName(files, "css", "style_1_2.css", 3)
  {
    assert "css" + "/" + "style_1.css" == "css/style_1.css";
    BumpSecond();
  }

  lemma NoThirdCollision(files: set<string>)
    requires files == {"css/style.css", "css/style_1.css"}
    ensures FreeName(files, "css", "style_1_2.css", 3) == "style_1_2.css"
  {
    assert "css" + "/" + "style_1_2.css" == "css/style_1_2.css";
  }

  // ------------------------------------------------------------ the base tag

  function BaseTag(o: Origin): string {
    "<base" + " href=\"" + o.protocol + "://" + o.host + "/\">"
  }

  /** A match of `<head[^>]*>` that starts at `i` and ends with the '>' at `j`. */
  predicate HeadTagAt(html: string, i: int, j: int) {
    && 0 <= i
    && OccursAt(html, "<head", i)
    && i + 5 <= j
    && OccursAt(html, ">", j)
    && forall k :: i + 5 <= k < j ==> !OccursAt(html, ">", k)
  }

  /** `addBaseTag`: nothing if the page has "<base" anywhere; otherwise the
      tag goes after the first `<head…>` tag, if there is one. */
  function AddBaseTag(html: string, o: Origin): string {
    if Contains(html, "<base") then html
    else
      var i := IndexOf(html, "<head");
      if i < 0 then html
      else
        var j := IndexFrom(html, ">", i + 5);
        if j < 0 then html
        else html[..j + 1] + "\n" + BaseTag(o) + html[j + 1..]
  }

  /** The first `<head` and the first '>' after it form a `<head…>` tag. */
  lemma FirstHeadTag(html: string)
    requires IndexOf(html, "<head") >= 0
    requires IndexFrom(html, ">", IndexOf(html, "<head") + 5) >= 0
    ensures HeadTagAt(html, IndexOf(html, "<head"), IndexFrom(html, ">", IndexOf(html, "<head") + 5))
  {
  }

  /** If the first `<head` has no '>' after it, no `<head…>` tag exists. */
  lemma NoHeadTag(html: string)
    requires IndexOf(html, "<head") < 0 || IndexFrom(html, ">", IndexOf(html, "<head") + 5) < 0
    ensures forall i, j :: !HeadTagAt(html, i, j)
  {
  }

  /** The page is left alone exactly when it already has "<base" or no
      `<head…>` tag matches. */
  lemma AddBaseTagUnchanged(html: string, o: Origin)
    ensures AddBaseTag(html, o) == html <==>
      (Contains(html, "<base") || forall i, j :: !HeadTagAt(html, i, j))
  {
    if !Contains(html, "<base") {
      var i := IndexOf(html, "<head");
      if i >= 0 && IndexFrom(html, ">", i + 5) >= 0 {
        FirstHeadTag(html);
        assert |AddBaseTag(html, o)| > |html|;
      } else {
        NoHeadTag(html);
      }
    }
  }

  /** When it changes the page, the tag lands right after the leftmost
      `<head…>` tag, and nowhere else. */
  lemma AddBaseTagAfterFirstHead(html: string, o: Origin)
    requires AddBaseTag(html, o) != html
    ensures exists i, j :: && HeadTagAt(html, i, j)
                           && (forall i', j' :: HeadTagAt(html, i', j') ==> i <= i')
                           && AddBaseTag(html, o) == html[..j + 1] + "\n" + BaseTag(o) + html[j + 1..]
  {
    var i := IndexOf(html, "<head");
    var j := IndexFrom(html, ">", i + 5);
    FirstHeadTag(html);
    forall i', j' | HeadTagAt(html, i', j')
      ensures i <= i'
    {
    }
  }

  lemma BaseTagIsBase(o: Origin)
    ensures Contains(BaseTag(o), "<base")
  {
    var t := "<base";
    ContainsStart(t, " href=\"");
    ContainsAppend(t + " href=\"", o.protocol, t);
    ContainsAppend(t + " href=\"" + o.protocol, "://", t);
    ContainsAppend(t + " href=\"" + o.protocol + "://", o.host, t);
    ContainsAppend(t + " href=\"" + o.protocol + "://" + o.host, "/\">", t);
  }

  /** Adding the base tag twice is adding it once. */
  lemma AddBaseTagIdempotent(html: string, o: Origin)
    ensures AddBaseTag(AddBaseTag(html, o), o) == AddBaseTag(html, o)
  {
    var r := AddBaseTag(html, o);
    if r != html {
      var i := IndexOf(html, "<head");
      var j := IndexFrom(html, ">", i + 5);
      var tag := BaseTag(o);
      assert r == html[..j + 1] + "\n" + tag + html[j + 1..];
      BaseTagIsBase(o);
      ContainsWiden(html[..j + 1] + "\n", tag, html[j + 1..], "<base");
      MarkedPageKept(r, o);
    }
  }

  /** A page that already has "<base" is left alone. */
  lemma MarkedPageKept(html: string, o: Origin)
    requires Contains(html, "<base")
    ensures AddBaseTag(html, o) == html
  {
  }

  // ------------------------------------------------------- the rewrite state

  /** A request made to the network: the page itself or one resource. */
  datatype Request = PageRequest(url: string) | ResourceRequest(url: string)

  /** The archiver's state: `downloadedResources`, `urlToLocalPathMap`, the
      files under the output directory, and the log of requests made. */
  datatype Store = Store(downloaded: set<string>, paths: map<string, string>, disk: Disk, requests: seq<Request>)

  /** What the archiver keeps true between references:
      - a URL is downloaded exactly when it has a local path;
      - every local path names a file that exists;
      - no two URLs share a local file;
      - a resource that was requested and is served has been downloaded;
      - no resource is requested twice unless it failed. */
  ghost predicate Inv(st: Store, net: Network) {
    && st.downloaded == st.paths.Keys
    && (forall u :: u in st.paths ==> st.paths[u] in st.disk)
    && (forall u, v :: u in st.paths && v in st.paths && u != v ==> st.paths[u] != st.paths[v])
    && (forall k :: 0 <= k < |st.requests| && st.requests[k].ResourceRequest? && st.requests[k].url in net
           ==> st.requests[k].url in st.downloaded)
    && NoRefetch(st.requests, net)
  }

  /** A resource that is served is requested at most once. */
  ghost predicate NoRefetch(requests: seq<Request>, net: Network) {
    forall k, l :: 0 <= k < l < |requests| && requests[k] == requests[l] && requests[k].ResourceRequest?
      ==> requests[k].url !in net
  }

  /** Nothing recorded is ever forgotten: paths, files and the request log only grow. */
  ghost predicate Grows(st: Store, st': Store) {
    && st.downloaded <= st'.downloaded
    && (forall u :: u in st.paths ==> u in st'.paths && st'.paths[u] == st.paths[u])
    && st.disk.Keys <= st'.disk.Keys
    && st.requests <= st'.requests
  }

  /** What the environment of a rewrite pass fixes. */
  datatype Env = Env(net: Network, lib: Library, origin: Origin)

  /** What `(HttpURLConnection) new URL(url).openConnection()` comes to: a
      connection; the MalformedURLException of `new URL`, an IOException
      like any failed fetch; or the ClassCastException of a URL whose
      protocol `java.net` knows but which is not HTTP (ftp:, file:, jar:,
      mailto:), which no caller catches. */
  datatype Connection = HttpConnection | MalformedUrl | NotHttp

  function Connect(lib: Library, url: string): (c: Connection)
    ensures c == MalformedUrl <==> lib.parseUrl(url).None?
    ensures c == HttpConnection <==>
      lib.parseUrl(url).Some? && lib.parseUrl(url).value.protocol in {"http", "https"}
  {
    match lib.parseUrl(url)
    case None => MalformedUrl
    case Some(parts) => if parts.protocol == "http" || parts.protocol == "https" then HttpConnection else NotHttp
  }

  /** How `downloadResource` ends: the local path it saved to, an
      IOException, or the uncaught ClassCastException. */
  datatype Fetched = Saved(path: string) | FetchFailed | CastFailed

  /** `downloadResource` on values: its outcome and the new state.  Only an
      HTTP connection reaches the network, so only it is logged. */
  function Download(env: Env, url: string, folder: string, st: Store): (Fetched, Store) {
    match Connect(env.lib, url)
    case MalformedUrl => (FetchFailed, st)
    case NotHttp => (CastFailed, st)
    case HttpConnection =>
      var logged := st.(requests := st.requests + [ResourceRequest(url)]);
      if url !in env.net then (FetchFailed, logged)
      else
        var name := FreeName(st.disk.Keys, folder, FilenameFromUrl(url), 1);
        var path := folder + "/" + name;
        (Saved(path), logged.(disk := st.disk[path := env.net[url]], paths := st.paths[url := path]))
  }

  /** A download over an HTTP connection, written out. */
  lemma DownloadOverHttp(env: Env, url: string, folder: string, st: Store)
    requires Connect(env.lib, url) == HttpConnection
    ensures var logged := st.(requests := st.requests + [ResourceRequest(url)]);
      var path := folder + "/" + FreeName(st.disk.Keys, folder, FilenameFromUrl(url), 1);
      && (url !in env.net ==> Download(env, url, folder, st) == (FetchFailed, logged))
      && (url in env.net ==>
            Download(env, url, folder, st)
              == (Saved(path), Store(st.downloaded, st.paths[url := path], st.disk[path := env.net[url]], logged.requests)))
  {
  }

  /** Why `fetchAndSave` threw: the page could not be fetched, it was blank,
      `URI.resolve` threw IllegalArgumentException on a reference, or a
      page or resource URL opened a connection that is not HTTP. */
  datatype FetchError = NotFetched | EmptyPage | UnresolvableReference | NotHttpConnection

  /** The outcome of rewriting: text and state, or the state in which an
      uncaught exception left the archiver, and which one it was. */
  datatype Step = Step(text: string, store: Store) | Abort(store: Store, error: FetchError)

  /** One trip round the `while (matcher.find())` loop, plus the text before the match. */
  function Rewrite(env: Env, folder: string, seg: Segment, st: Store): Step {
    match seg
    case Text(t) => Step(t, st)
    case Match(whole, ref) =>
      if IsSkipped(ref) then Step(whole, st)
      else
        match ResolveUrl(env.lib, env.origin, ref)
        case Rejected => Abort(st, UnresolvableReference)
        case Resolved(url) =>
          if url in st.downloaded then
            match Lookup(st.paths, url)
            case Some(path) => Step(ReplaceAll(whole, ref, path), st)
            case None => Step(whole, st)
          else
            match Download(env, url, folder, st)
            case (Saved(path), st') => Step(ReplaceAll(whole, ref, path), st'.(downloaded := st'.downloaded + {url}))
            case (FetchFailed, st') => Step(whole, st')
            case (CastFailed, st') => Abort(st', NotHttpConnection)
  }

  /** `downloadAndReplaceResources` on values, segment by segment from the left. */
  function Pass(env: Env, folder: string, segs: seq<Segment>, st: Store): Step
    decreases |segs|
  {
    if |segs| == 0 then Step("", st)
    else
      match Pass(env, folder, segs[..|segs| - 1], st)
      case Abort(st', e) => Abort(st', e)
      case Step(text, st') =>
        match Rewrite(env, folder, segs[|segs| - 1], st')
        case Abort(st'', e) => Abort(st'', e)
        case Step(piece, st'') => Step(text + piece, st'')
  }

  /** The seven passes one after the other, each scanning the previous one's output. */
  function RunPasses(env: Env, scan: Scanner, kinds: seq<PassKind>, html: string, st: Store): Step
    decreases |kinds|
  {
    if |kinds| == 0 then Step(html, st)
    else
      match Pass(env, Folder(kinds[0]), scan(html, kinds[0]), st)
      case Abort(st', e) => Abort(st', e)
      case Step(html', st') => RunPasses(env, scan, kinds[1..], html', st')
  }

  /** `fetchAndSave` after a cache miss, on values: the saved document or
      the error, and the new state. */
  function Archive(env: Env, scan: Scanner, st: Store): (Result<string, FetchError>, Store) {
    var url := env.origin.baseUrl;
    var logged := st.(requests := st.requests + [PageRequest(url)]);
    match Connect(env.lib, url)
    case MalformedUrl => (Err(NotFetched), st)
    case NotHttp => (Err(NotHttpConnection), st)
    case HttpConnection =>
      if url !in env.net then (Err(NotFetched), logged)
      else if IsBlank(env.net[url]) then (Err(EmptyPage), logged)
      else
        match RunPasses(env, scan, PASSES, env.net[url], logged)
        case Abort(st', e) => (Err(e), st')
        case Step(html, st') =>
          var page := AddBaseTag(html, env.origin);
          (Ok(page), st'.(disk := st'.disk["index.html" := page]))
  }

  // ---------------------------------------------------------- the invariant

  /** A download of a URL not yet downloaded saves exactly when the URL opens
      an HTTP connection and is served, under a name not yet on disk; it
      throws the ClassCastException exactly for a non-HTTP connection.
      Either way the invariant holds, and anything but a save records at
      most the request. */
  lemma DownloadKeepsInv(env: Env, url: string, folder: string, st: Store)
    requires Inv(st, env.net) && url !in st.downloaded
    ensures var (res, st') := Download(env, url, folder, st);
      && Grows(st, st')
      && (res.Saved? <==> Connect(env.lib, url) == HttpConnection && url in env.net)
      && (res.CastFailed? <==> Connect(env.lib, url) == NotHttp)
      && (res.Saved? ==> Inv(st'.(downloaded := st'.downloaded + {url}), env.net) && res.path !in st.disk)
      && (!res.Saved? ==> Inv(st', env.net))
      && (!res.Saved? && Connect(env.lib, url) == HttpConnection ==>
            st' == st.(requests := st.requests + [ResourceRequest(url)]))
      && (Connect(env.lib, url) != HttpConnection ==> st' == st)
  {
    if Connect(env.lib, url) == HttpConnection {
      if url in env.net {
        ServedDownloadKeepsInv(env, url, folder, st);
      } else {
        MissingDownloadKeepsInv(env.net, url, st);
      }
    }
  }

  /** A URL that is served and was never requested before. */
  lemma NotYetRequested(net: Network, url: string, st: Store)
    requires Inv(st, net) && url !in st.downloaded && url in net
    ensures forall k :: 0 <= k < |st.requests| ==> st.requests[k] != ResourceRequest(url)
  {
    forall k | 0 <= k < |st.requests|
      ensures st.requests[k] != ResourceRequest(url)
    {
    }
  }

  lemma ServedDownloadKeepsInv(env: Env, url: string, folder: string, st: Store)
    requires Inv(st, env.net) && url !in st.downloaded && url in env.net
    requires Connect(env.lib, url) == HttpConnection
    ensures var (res, st') := Download(env, url, folder, st);
      && Grows(st, st') && res.Saved?
      && Inv(st'.(downloaded := st'.downloaded + {url}), env.net) && res.path !in st.disk
  {
    var path := folder + "/" + FreeName(st.disk.Keys, folder, FilenameFromUrl(url), 1);
    NotYetRequested(env.net, url, st);
    NoRefetchSnoc(st.requests, env.net, ResourceRequest(url));
    NewEntryKeepsInv(st, env.net, url, path, env.net[url]);
  }

  /** Logging a request that is not a repeat of a served resource keeps `NoRefetch`. */
  lemma NoRefetchSnoc(requests: seq<Request>, net: Network, r: Request)
    requires NoRefetch(requests, net)
    requires r.ResourceRequest? && r.url in net ==> forall k :: 0 <= k < |requests| ==> requests[k] != r
    ensures NoRefetch(requests + [r], net)
  {
    var rs := requests + [r];
    forall k, l | 0 <= k < l < |rs| && rs[k] == rs[l] && rs[k].ResourceRequest?
      ensures rs[k].url !in net
    {
      if l < |requests| {
        assert rs[k] == requests[k] && rs[l] == requests[l];
      } else {
        assert rs[k] == requests[k];
      }
    }
  }

  /** Recording a fresh download under a fresh file keeps the invariant. */
  lemma NewEntryKeepsInv(st: Store, net: Network, url: string, path: string, content: string)
    requires Inv(st, net) && url !in st.downloaded && path !in st.disk && url in net
    requires NoRefetch(st.requests + [ResourceRequest(url)], net)
    ensures Inv(Store(st.downloaded + {url}, st.paths[url := path], st.disk[path := content],
                      st.requests + [ResourceRequest(url)]), net)
  {
    var st2 := Store(st.downloaded + {url}, st.paths[url := path], st.disk[path := content],
                     st.requests + [ResourceRequest(url)]);
    forall u, v | u in st2.paths && v in st2.paths && u != v
      ensures st2.paths[u] != st2.paths[v]
    {
    }
    forall k | 0 <= k < |st2.requests| && st2.requests[k].ResourceRequest? && st2.requests[k].url in net
      ensures st2.requests[k].url in st2.downloaded
    {
      if k < |st.requests| {
        assert st2.requests[k] == st.requests[k];
      }
    }
  }

  lemma MissingDownloadKeepsInv(net: Network, url: string, st: Store)
    requires Inv(st, net) && url !in net
    ensures Inv(st.(requests := st.requests + [ResourceRequest(url)]), net)
  {
  }

  lemma RewriteKeepsInv(env: Env, folder: string, seg: Segment, st: Store)
    requires Inv(st, env.net)
    ensures Inv(Rewrite(env, folder, seg, st).store, env.net)
    ensures Grows(st, Rewrite(env, folder, seg, st).store)
  {
    if seg.Match? && !IsSkipped(seg.ref) {
      var res := ResolveUrl(env.lib, env.origin, seg.ref);
      if res.Resolved? && res.url !in st.downloaded {
        DownloadKeepsInv(env, res.url, folder, st);
      }
    }
  }

  lemma {:induction false} PassKeepsInv(env: Env, folder: string, segs: seq<Segment>, st: Store)
    requires Inv(st, env.net)
    ensures Inv(Pass(env, folder, segs, st).store, env.net)
    ensures Grows(st, Pass(env, folder, segs, st).store)
    decreases |segs|
  {
    if |segs| > 0 {
      var init := segs[..|segs| - 1];
      PassKeepsInv(env, folder, init, st);
      var prev := Pass(env, folder, init, st);
      if prev.Step? {
        RewriteKeepsInv(env, folder, segs[|segs| - 1], prev.store);
      }
    }
  }

  lemma {:induction false} RunPassesKeepsInv(env: Env, scan: Scanner, kinds: seq<PassKind>, html: string, st: Store)
    requires Inv(st, env.net)
    ensures Inv(RunPasses(env, scan, kinds, html, st).store, env.net)
    ensures Grows(st, RunPasses(env, scan, kinds, html, st).store)
    decreases |kinds|
  {
    if |kinds| > 0 {
      var segs := scan(html, kinds[0]);
      PassKeepsInv(env, Folder(kinds[0]), segs, st);
      var first := Pass(env, Folder(kinds[0]), segs, st);
      if first.Step? {
        RunPassesKeepsInv(env, scan, kinds[1..], first.text, first.store);
      }
    }
  }

  /** Requesting the page itself does not disturb the resource bookkeeping. */
  lemma PageRequestKeepsInv(st: Store, net: Network, url: string)
    requires Inv(st, net)
    ensures Inv(st.(requests := st.requests + [PageRequest(url)]), net)
  {
    var st' := st.(requests := st.requests + [PageRequest(url)]);
    assert forall k :: 0 <= k < |st.requests| ==> st'.requests[k] == st.requests[k];
  }

  /** Writing a file keeps every recorded path pointing at a file. */
  lemma WriteKeepsInv(st: Store, net: Network, name: string, content: string)
    requires Inv(st, net)
    ensures Inv(st.(disk := st.disk[name := content]), net)
    ensures Grows(st, st.(disk := st.disk[name := content]))
  {
  }

  /** Archiving keeps the invariant, and a successful archive leaves
      `index.html` holding the saved page, so the next call is a cache hit. */
  lemma ArchiveKeepsInv(env: Env, scan: Scanner, st: Store)
    requires Inv(st, env.net)
    ensures Inv(Archive(env, scan, st).1, env.net)
    ensures Grows(st, Archive(env, scan, st).1)
    ensures var (r, st') := Archive(env, scan, st); r.Ok? ==> "index.html" in st'.disk && st'.disk["index.html"] == r.value
  {
    var url := env.origin.baseUrl;
    var logged := st.(requests := st.requests + [PageRequest(url)]);
    if Connect(env.lib, url) != HttpConnection {
      assert Archive(env, scan, st).1 == st;
    } else {
      PageRequestKeepsInv(st, env.net, url);
      if url !in env.net || IsBlank(env.net[url]) {
        assert Archive(env, scan, st).1 == logged;
      } else {
        ServedArchiveKeepsInv(env, scan, PASSES, logged, env.net[url]);
      }
    }
  }

  /** The passes and the save after the page was fetched. */
  lemma ServedArchiveKeepsInv(env: Env, scan: Scanner, kinds: seq<PassKind>, logged: Store, html: string)
    requires Inv(logged, env.net)
    ensures var passes := RunPasses(env, scan, kinds, html, logged);
      && Inv(passes.store, env.net) && Grows(logged, passes.store)
      && (passes.Step? ==>
            var page := AddBaseTag(passes.text, env.origin);
            Inv(passes.store.(disk := passes.store.disk["index.html" := page]), env.net)
            && Grows(logged, passes.store.(disk := passes.store.disk["index.html" := page])))
  {
    var passes := RunPasses(env, scan, kinds, html, logged);
    RunPassesKeepsInv(env, scan, kinds, html, logged);
    if passes.Step? {
      WriteKeepsInv(passes.store, env.net, "index.html", AddBaseTag(passes.text, env.origin));
    }
  }

  // ------------------------------------------------------- rewrite behaviour

  /** A skipped reference keeps its match byte-identical and touches nothing. */
  lemma SkippedMatchUntouched(env: Env, folder: string, whole: string, ref: string, st: Store)
    requires IsSkipped(ref)
    ensures Rewrite(env, folder, Match(whole, ref), st) == Step(whole, st)
  {
  }

  /** A scan loses nothing: its segments put back together are the document
      scanned, as `appendReplacement` and `appendTail` guarantee. */
  ghost predicate ScansWhole(scan: Scanner) {
    forall h, k :: Original(scan(h, k)) == h
  }

  /** Every reference matched in the segments is one that is skipped. */
  predicate AllSkipped(segs: seq<Segment>) {
    forall k :: 0 <= k < |segs| && segs[k].Match? ==> IsSkipped(segs[k].ref)
  }

  /** Segments whose references are all skipped pass through as the text
      they were cut from. */
  lemma {:induction false} SkippedSegmentsKept(env: Env, folder: string, segs: seq<Segment>, st: Store)
    requires AllSkipped(segs)
    ensures Pass(env, folder, segs, st) == Step(Original(segs), st)
    decreases |segs|
  {
    if |segs| > 0 {
      SkippedSegmentsKept(env, folder, segs[..|segs| - 1], st);
    }
  }

  /** A pass over a document whose references are all skipped returns the
      document unchanged and requests nothing. */
  lemma PassOverSkippedIsIdentity(env: Env, scan: Scanner, kind: PassKind, html: string, st: Store)
    requires ScansWhole(scan)
    requires AllSkipped(scan(html, kind))
    ensures Pass(env, Folder(kind), scan(html, kind), st) == Step(html, st)
  {
    SkippedSegmentsKept(env, Folder(kind), scan(html, kind), st);
  }

  /** Passes that find only skipped references hand the document on as it is. */
  lemma {:induction false} SkippedPassesKeepPage(env: Env, scan: Scanner, kinds: seq<PassKind>, html: string, st: Store)
    requires ScansWhole(scan)
    requires forall k :: 0 <= k < |kinds| ==> AllSkipped(scan(html, kinds[k]))
    ensures RunPasses(env, scan, kinds, html, st) == Step(html, st)
    decreases |kinds|
  {
    if |kinds| > 0 {
      PassOverSkippedIsIdentity(env, scan, kinds[0], html, st);
      SkippedPassesKeepPage(env, scan, kinds[1..], html, st);
    }
  }

  /** A served page in which no pass finds a reference to download is saved
      as fetched, with only the base tag added; nothing is requested but the
      page. */
  lemma PageWithoutResourcesSaved(env: Env, scan: Scanner, st: Store)
    requires ScansWhole(scan)
    requires Connect(env.lib, env.origin.baseUrl) == HttpConnection
    requires env.origin.baseUrl in env.net && !IsBlank(env.net[env.origin.baseUrl])
    requires forall k :: 0 <= k < |PASSES| ==> AllSkipped(scan(env.net[env.origin.baseUrl], PASSES[k]))
    ensures var page := AddBaseTag(env.net[env.origin.baseUrl], env.origin);
      Archive(env, scan, st) ==
        (Ok(page), st.(requests := st.requests + [PageRequest(env.origin.baseUrl)],
                       disk := st.disk["index.html" := page]))
  {
    var url := env.origin.baseUrl;
    SkippedPassesKeepPage(env, scan, PASSES, env.net[url], st.(requests := st.requests + [PageRequest(url)]));
  }

  /** A reference whose resolution was already downloaded is not requested
      again; its match points to the recorded local path, whatever folder
      the pass uses. */
  lemma DownloadedUrlReused(env: Env, folder: string, whole: string, ref: string, url: string, st: Store)
    requires Inv(st, env.net) && !IsSkipped(ref)
    requires ResolveUrl(env.lib, env.origin, ref) == Resolved(url) && url in st.downloaded
    ensures Rewrite(env, folder, Match(whole, ref), st) == Step(ReplaceAll(whole, ref, st.paths[url]), st)
  {
    RecordedUrlReused(env, folder, whole, ref, url, st);
  }

  lemma RecordedUrlReused(env: Env, folder: string, whole: string, ref: string, url: string, st: Store)
    requires !IsSkipped(ref) && ResolveUrl(env.lib, env.origin, ref) == Resolved(url)
    requires url in st.downloaded && url in st.paths
    ensures Rewrite(env, folder, Match(whole, ref), st) == Step(ReplaceAll(whole, ref, st.paths[url]), st)
  {
  }

  /** A failed HTTP download leaves the match as it was and records nothing
      but the request. */
  lemma FailedDownloadKeepsMatch(env: Env, folder: string, whole: string, ref: string, url: string, st: Store)
    requires !IsSkipped(ref) && ResolveUrl(env.lib, env.origin, ref) == Resolved(url)
    requires url !in st.downloaded && url !in env.net && Connect(env.lib, url) == HttpConnection
    ensures Rewrite(env, folder, Match(whole, ref), st) ==
      Step(whole, st.(requests := st.requests + [ResourceRequest(url)]))
  {
  }

  /** A resolved URL that `new URL` rejects fails like a fetch: the match is
      kept and no request is made. */
  lemma MalformedDownloadKeepsMatch(env: Env, folder: string, whole: string, ref: string, url: string, st: Store)
    requires !IsSkipped(ref) && ResolveUrl(env.lib, env.origin, ref) == Resolved(url)
    requires url !in st.downloaded && env.lib.parseUrl(url).None?
    ensures Rewrite(env, folder, Match(whole, ref), st) == Step(whole, st)
  {
  }

  /** A resolved URL of a protocol other than HTTP throws the uncaught
      ClassCastException: the rewrite aborts in the state it started from. */
  lemma NonHttpReferenceAborts(env: Env, folder: string, whole: string, ref: string, url: string, st: Store)
    requires !IsSkipped(ref) && ResolveUrl(env.lib, env.origin, ref) == Resolved(url) && url !in st.downloaded
    requires env.lib.parseUrl(url).Some? && env.lib.parseUrl(url).value.protocol !in {"http", "https"}
    ensures Rewrite(env, folder, Match(whole, ref), st) == Abort(st, NotHttpConnection)
  {
  }

  /** Such a reference ends the whole pass, and with it `fetchAndSave`, in
      the state reached before it, whatever follows it in the document. */
  lemma NonHttpReferenceAbortsPass(env: Env, folder: string, segs: seq<Segment>, i: nat, url: string, st: Store)
    requires i < |segs| && Pass(env, folder, segs[..i], st).Step?
    requires segs[i].Match? && !IsSkipped(segs[i].ref)
    requires ResolveUrl(env.lib, env.origin, segs[i].ref) == Resolved(url)
    requires url !in Pass(env, folder, segs[..i], st).store.downloaded
    requires Connect(env.lib, url) == NotHttp
    ensures Pass(env, folder, segs, st) == Abort(Pass(env, folder, segs[..i], st).store, NotHttpConnection)
  {
    PassExtend(env, folder, segs, i, st);
    PassAbortSticks(env, folder, segs, i + 1, st);
  }

  /** A new URL that opens an HTTP connection and is served is requested
      once, saved under a fresh name in the pass's folder, recorded, and its
      match rewritten. */
  lemma NewUrlDownloaded(env: Env, folder: string, whole: string, ref: string, url: string, st: Store)
    requires !IsSkipped(ref) && ResolveUrl(env.lib, env.origin, ref) == Resolved(url)
    requires url !in st.downloaded && url in env.net && Connect(env.lib, url) == HttpConnection
    ensures var path := folder + "/" + FreeName(st.disk.Keys, folder, FilenameFromUrl(url), 1);
      && path !in st.disk
      && Rewrite(env, folder, Match(whole, ref), st) ==
         Step(ReplaceAll(whole, ref, path),
              Store(st.downloaded + {url}, st.paths[url := path], st.disk[path := env.net[url]],
                    st.requests + [ResourceRequest(url)]))
  {
  }

  /** Three matches of one new reference that resolves to a served HTTP URL:
      one request, one file, three identical rewrites. */
  lemma SameReferenceFetchedOnce(env: Env, folder: string, whole: string, ref: string, url: string, st: Store)
    requires !IsSkipped(ref) && ResolveUrl(env.lib, env.origin, ref) == Resolved(url)
    requires url !in st.downloaded && url in env.net && Connect(env.lib, url) == HttpConnection
    ensures var m := Match(whole, ref);
      var path := folder + "/" + FreeName(st.disk.Keys, folder, FilenameFromUrl(url), 1);
      var out := ReplaceAll(whole, ref, path);
      && Pass(env, folder, [m, m, m], st).Step?
      && Pass(env, folder, [m, m, m], st).text == out + out + out
      && Pass(env, folder, [m, m, m], st).store.requests == st.requests + [ResourceRequest(url)]
  {
    var m := Match(whole, ref);
    var path := folder + "/" + FreeName(st.disk.Keys, folder, FilenameFromUrl(url), 1);
    var out := ReplaceAll(whole, ref, path);
    var st1 := Store(st.downloaded + {url}, st.paths[url := path], st.disk[path := env.net[url]],
                     st.requests + [ResourceRequest(url)]);
    NewUrlDownloaded(env, folder, whole, ref, url, st);
    RecordedUrlReused(env, folder, whole, ref, url, st1);
    PassRepeats(env, folder, m, st, st1, out);
  }

  /** A match rewritten to `out` once, and then again without a state change,
      three times over. */
  lemma PassRepeats(env: Env, folder: string, m: Segment, st: Store, st1: Store, out: string)
    requires Rewrite(env, folder, m, st) == Step(out, st1)
    requires Rewrite(env, folder, m, st1) == Step(out, st1)
    ensures Pass(env, folder, [m, m, m], st) == Step(out + out + out, st1)
  {
    PassStep(env, folder, [], m, st, "", st, out, st1);
    assert [] + [m] == [m] && "" + out == out;
    PassStep(env, folder, [m], m, st, out, st1, out, st1);
    assert [m] + [m] == [m, m];
    PassStep(env, folder, [m, m], m, st, out + out, st1, out, st1);
    assert [m, m] + [m] == [m, m, m];
  }

  /** A pass that has reached `text` and `st'` goes on with the next segment's rewrite. */
  lemma PassStep(env: Env, folder: string, segs: seq<Segment>, seg: Segment, st: Store,
                 text: string, st': Store, piece: string, st'': Store)
    requires Pass(env, folder, segs, st) == Step(text, st')
    requires Rewrite(env, folder, seg, st') == Step(piece, st'')
    ensures Pass(env, folder, segs + [seg], st) == Step(text + piece, st'')
  {
    assert (segs + [seg])[..|segs|] == segs;
  }

  // --------------------------------------------------------------- the class

  class WebPageFetcher {
    const baseUrl: string
    const outputDir: string
    const protocol: string
    const host: string
    const lib: Library
    const net: Network
    var downloadedResources: set<string>
    var urlToLocalPathMap: map<string, string>
    var files: Disk
    var indexHtmlPath: Option<string>
    ghost var requests: seq<Request>

    function Environment(): Env {
      Env(net, lib, Origin(baseUrl, protocol, host))
    }

    ghost function State(): Store
      reads this
    {
      Store(downloadedResources, urlToLocalPathMap, files, requests)
    }

    ghost predicate Valid()
      reads this
    {
      Inv(State(), net)
    }

    /** The path `fetchAndSave` reports for the saved page. */
    function IndexPath(): string {
      outputDir + "/index.html"
    }

    /** A fetcher for `url` writing under `outputDir`, whose files are `files`. */
    constructor (url: string, outputDir: string, lib: Library, net: Network, files: Disk)
      ensures Environment() == Env(net, lib, OriginOf(lib, url))
      ensures this.outputDir == outputDir
      ensures State() == Store({}, map[], files, [])
      ensures indexHtmlPath == None
      ensures Valid()
    {
      baseUrl := url;
      this.outputDir := outputDir;
      this.lib := lib;
      this.net := net;
      downloadedResources := {};
      var o := OriginOf(lib, url);
      protocol := o.protocol;
      host := o.host;
      urlToLocalPathMap := map[];
      this.files := files;
      indexHtmlPath := None;
      requests := [];
    }

    /** The collision loop: "_<counter>" is added before the last dot until
        the name is free in the folder. */
    method PickFreeName(folder: string, initial: string) returns (filename: string)
      requires '.' in initial
      ensures filename == FreeName(files.Keys, folder, initial, 1)
    {
      filename := initial;
      var counter := 1;
      while Exists(files.Keys, folder, filename)
        invariant '.' in filename
        invariant FreeName(files.Keys, folder, filename, counter) == FreeName(files.Keys, folder, initial, 1)
        decreases MaxLen(files.Keys) + |folder| + 3 - |folder + "/" + filename|
      {
        var dot := LastIndexOfChar(filename, '.');
        filename := filename[..dot] + "_" + IntToString(counter) + filename[dot..];
        counter := counter + 1;
      }
    }

    /** `downloadResource`: open the connection, fetch, pick a free name,
        save, record the path. */
    method DownloadResource(url: string, folder: string) returns (outcome: Fetched)
      modifies this
      ensures (outcome, State()) == Download(Environment(), url, folder, old(State()))
      ensures indexHtmlPath == old(indexHtmlPath)
    {
      var connection := Connect(lib, url);
      if connection == MalformedUrl {
        return FetchFailed;
      } else if connection == NotHttp {
        return CastFailed;
      }
      outcome := FetchOverHttp(url, folder);
    }

    /** The part of `downloadResource` after an HTTP connection opened. */
    method FetchOverHttp(url: string, folder: string) returns (outcome: Fetched)
      requires Connect(lib, url) == HttpConnection
      modifies this
      ensures (outcome, State()) == Download(Environment(), url, folder, old(State()))
      ensures indexHtmlPath == old(indexHtmlPath)
    {
      ghost var st := State();
      DownloadOverHttp(Environment(), url, folder, st);
      requests := requests + [ResourceRequest(url)];
      if url !in net {
        return FetchFailed;
      }
      var filename := PickFreeName(folder, FilenameFromUrl(url));
      outcome := SaveResource(url, folder + "/" + filename);
    }

    /** Save what the URL served under the free path and record it. */
    method SaveResource(url: string, localPath: string) returns (outcome: Fetched)
      requires url in net
      modifies this
      ensures outcome == Saved(localPath)
      ensures State() == old(State()).(disk := old(files)[localPath := net[url]],
                                       paths := old(urlToLocalPathMap)[url := localPath])
      ensures indexHtmlPath == old(indexHtmlPath)
    {
      var data := net[url];
      files := files[localPath := data];
      urlToLocalPathMap := urlToLocalPathMap[url := localPath];
      outcome := Saved(localPath);
    }

    /** `getLocalPathForUrl`: the folder argument plays no part. */
    function GetLocalPathForUrl(url: string, folder: string): (path: Option<string>)
      reads this
      ensures path.Some? <==> url in urlToLocalPathMap
      ensures path.Some? ==> path.value == urlToLocalPathMap[url]
    {
      Lookup(urlToLocalPathMap, url)
    }

    /** One matched reference: skipped, rewritten to a path already
        recorded, downloaded and rewritten, or the exception that ends the
        pass (an unresolvable reference, a connection that is not HTTP). */
    method RewriteReference(whole: string, ref: string, folder: string) returns (piece: Result<string, FetchError>)
      modifies this
      ensures match Rewrite(Environment(), folder, Match(whole, ref), old(State()))
        case Step(text, st) => piece == Ok(text) && State() == st
        case Abort(st, e) => piece == Err(e) && State() == st
      ensures indexHtmlPath == old(indexHtmlPath)
    {
      if IsSkipped(ref) {
        return Ok(whole);
      }
      var full := ResolveUrl(lib, Origin(baseUrl, protocol, host), ref);
      if full.Rejected? {
        return Err(UnresolvableReference);
      }
      var fullUrl := full.url;
      if fullUrl in downloadedResources {
        var localPath := GetLocalPathForUrl(fullUrl, folder);
        if localPath.Some? {
          piece := Ok(ReplaceAll(whole, ref, localPath.value));
        } else {
          piece := Ok(whole);
        }
      } else {
        piece := FetchReference(whole, ref, folder, fullUrl);
      }
    }

    /** The `try` block around `downloadResource` for a URL not yet downloaded. */
    method FetchReference(whole: string, ref: string, folder: string, fullUrl: string)
      returns (piece: Result<string, FetchError>)
      modifies this
      ensures match Download(Environment(), fullUrl, folder, old(State()))
        case (Saved(path), st) =>
          piece == Ok(ReplaceAll(whole, ref, path)) && State() == st.(downloaded := st.downloaded + {fullUrl})
        case (FetchFailed, st) => piece == Ok(whole) && State() == st
        case (CastFailed, st) => piece == Err(NotHttpConnection) && State() == st
      ensures indexHtmlPath == old(indexHtmlPath)
    {
      var saved := DownloadResource(fullUrl, folder);
      match saved
      case Saved(localPath) =>
        downloadedResources := downloadedResources + {fullUrl};
        piece := Ok(ReplaceAll(whole, ref, localPath));
      case FetchFailed =>
        piece := Ok(whole);
      case CastFailed =>
        piece := Err(NotHttpConnection);
    }

    /** One segment: text between matches is copied, a match rewritten. */
    method RewriteSegment(seg: Segment, folder: string) returns (piece: Result<string, FetchError>)
      modifies this
      ensures match Rewrite(Environment(), folder, seg, old(State()))
        case Step(text, st) => piece == Ok(text) && State() == st
        case Abort(st, e) => piece == Err(e) && State() == st
      ensures indexHtmlPath == old(indexHtmlPath)
    {
      match seg {
        case Text(t) =>
          piece := Ok(t);
        case Match(whole, ref) =>
          piece := RewriteReference(whole, ref, folder);
      }
    }

    /** `downloadAndReplaceResources` for one pass over the scanned segments. */
    method DownloadAndReplaceResources(html: string, scan: Scanner, kind: PassKind) returns (r: Result<string, FetchError>)
      modifies this
      ensures match Pass(Environment(), Folder(kind), scan(html, kind), old(State()))
        case Step(text, st) => r == Ok(text) && State() == st
        case Abort(st, e) => r == Err(e) && State() == st
      ensures indexHtmlPath == old(indexHtmlPath)
    {
      var segs := scan(html, kind);
      var folder := Folder(kind);
      var result := "";
      var i := 0;
      while i < |segs|
        invariant 0 <= i <= |segs|
        invariant Pass(Environment(), folder, segs[..i], old(State())) == Step(result, State())
        invariant indexHtmlPath == old(indexHtmlPath)
      {
        var rewritten := RewriteSegment(segs[i], folder);
        PassExtend(Environment(), folder, segs, i, old(State()));
        if rewritten.Err? {
          PassAbortSticks(Environment(), folder, segs, i + 1, old(State()));
          return Err(rewritten.error);
        }
        result := result + rewritten.value;
        i := i + 1;
      }
      assert segs[..i] == segs;
      return Ok(result);
    }

    /** `fetchAndSave`: a cache hit returns at once; otherwise fetch the
      page, run the seven passes in order, add the base tag and save. */
    method FetchAndSave(scan: Scanner) returns (r: Result<string, FetchError>)
      modifies this
      ensures "index.html" in old(files) ==> r == Ok(IndexPath()) && State() == old(State())
      ensures "index.html" !in old(files) ==>
        var (res, st) := Archive(Environment(), scan, old(State()));
        && State() == st
        && (r.Ok? <==> res.Ok?)
        && (r.Err? ==> r.error == res.error)
      ensures r.Ok? ==> r.value == IndexPath() && indexHtmlPath == Some(IndexPath()) && "index.html" in files
      ensures r.Err? ==> indexHtmlPath == old(indexHtmlPath)
    {
      if "index.html" in files {
        indexHtmlPath := Some(IndexPath());
        return Ok(IndexPath());
      }
      var connection := Connect(lib, baseUrl);
      if connection == MalformedUrl {
        return Err(NotFetched);
      } else if connection == NotHttp {
        return Err(NotHttpConnection);
      }
      requests := requests + [PageRequest(baseUrl)];
      if baseUrl !in net {
        return Err(NotFetched);
      }
      var html := net[baseUrl];
      if IsBlank(html) {
        return Err(EmptyPage);
      }
      ghost var env := Environment();
      ghost var passes := RunPasses(env, scan, PASSES, html, State());
      for k := 0 to |PASSES|
        invariant passes == RunPasses(env, scan, PASSES[k..], html, State())
        invariant indexHtmlPath == old(indexHtmlPath)
      {
        ghost var before := State();
        var res := DownloadAndReplaceResources(html, scan, PASSES[k]);
        PassOutcome(env, scan, PASSES[k..], html, before, res, State());
        assert PASSES[k..][1..] == PASSES[k + 1..];
        html :- res;
      }
      html := AddBaseTag(html, Origin(baseUrl, protocol, host));
      files := files["index.html" := html];
      indexHtmlPath := Some(IndexPath());
      return Ok(IndexPath());
    }
  }

  /** The remaining passes, given what the first of them returned. */
  lemma PassOutcome(env: Env, scan: Scanner, kinds: seq<PassKind>, html: string, st: Store,
                    r: Result<string, FetchError>, st': Store)
    requires |kinds| > 0
    requires match Pass(env, Folder(kinds[0]), scan(html, kinds[0]), st)
      case Step(text, s) => r == Ok(text) && st' == s
      case Abort(s, e) => r == Err(e) && st' == s
    ensures r.Ok? ==> RunPasses(env, scan, kinds, html, st) == RunPasses(env, scan, kinds[1..], r.value, st')
    ensures r.Err? ==> RunPasses(env, scan, kinds, html, st) == Abort(st', r.error)
  {
  }

  /** One more segment: the pass so far, then one rewrite. */
  lemma PassExtend(env: Env, folder: string, segs: seq<Segment>, i: nat, st: Store)
    requires i < |segs| && Pass(env, folder, segs[..i], st).Step?
    ensures var prev := Pass(env, folder, segs[..i], st);
      Pass(env, folder, segs[..i + 1], st) ==
        match Rewrite(env, folder, segs[i], prev.store)
        case Abort(st', e) => Abort(st', e)
        case Step(piece, st') => Step(prev.text + piece, st')
  {
    assert segs[..i + 1][..i] == segs[..i];
  }

  /** Once a prefix of the segments aborts, the whole pass aborts in the same state. */
  lemma {:induction false} PassAbortSticks(env: Env, folder: string, segs: seq<Segment>, n: nat, st: Store)
    requires n <= |segs| && Pass(env, folder, segs[..n], st).Abort?
    ensures Pass(env, folder, segs, st) == Pass(env, folder, segs[..n], st)
    decreases |segs| - n
  {
    if n < |segs| {
      assert segs[..n + 1][..n] == segs[..n];
      PassAbortSticks(env, folder, segs, n + 1, st);
    } else {
      assert segs[..n] == segs;
    }
  }
}
