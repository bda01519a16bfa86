/** A browser request: archive the page into a per-domain cache directory and
    answer with the saved document, or fall back to a plain HTTP exchange. */
module Request {
  import opened Wrappers
  import opened Strings
  import opened JavaNet
  import opened Http
  import Fetcher

  // ------------------------------------------------------- cache directories

  /** `extractDomain`: the URL's host without one leading "www.", with every
      '.' turned into '_'; "default" when the URL does not parse. */
  function ExtractDomain(lib: Library, url: string): (domain: string)
    ensures '.' !in domain
    ensures lib.parseUrl(url).None? ==> domain == "default"
  {
    match lib.parseUrl(url)
    case None => "default"
    case Some(parts) =>
      var host := if StartsWith(parts.host, "www.") then parts.host[4..] else parts.host;
      ReplaceCharRemoves(host, '.', '_');
      ReplaceChar(host, '.', '_')
  }

  const CACHE_ROOT: string := "./browser_cache/"

  function CacheDir(lib: Library, url: string): string {
    CACHE_ROOT + ExtractDomain(lib, url)
  }

  /** A host with and without "www." shares one cache directory. */
  lemma WwwSharesCacheDir(lib: Library, url1: string, url2: string, host: string)
    requires lib.parseUrl(url1).Some? && lib.parseUrl(url1).value.host == "www." + host
    requires lib.parseUrl(url2).Some? && lib.parseUrl(url2).value.host == host
    requires !StartsWith(host, "www.")
    ensures CacheDir(lib, url1) == CacheDir(lib, url2)
  {
    assert ("www." + host)[4..] == host;
  }

  /** Distinct hosts can share a directory: "a_b.com" and "a.b.com" both map
      to "a_b_com", so their pages overwrite each other's cache. */
  lemma UnderscoreHostsCollide(lib: Library, url1: string, url2: string)
    requires lib.parseUrl(url1).Some? && lib.parseUrl(url1).value.host == "a_b.com"
    requires lib.parseUrl(url2).Some? && lib.parseUrl(url2).value.host == "a.b.com"
    ensures CacheDir(lib, url1) == CacheDir(lib, url2) == CACHE_ROOT + "a_b_com"
  {
    assert !StartsWith("a_b.com", "www.") by { assert "a_b.com"[0] != 'w'; }
    assert !StartsWith("a.b.com", "www.") by { assert "a.b.com"[0] != 'w'; }
    var r1 := ReplaceChar("a_b.com", '.', '_');
    var r2 := ReplaceChar("a.b.com", '.', '_');
    assert forall i :: 0 <= i < 7 ==> r1[i] == "a_b_com"[i];
    assert forall i :: 0 <= i < 7 ==> r2[i] == "a_b_com"[i];
  }

  // --------------------------------------------------- the simple exchange

  /** One entry of `getHeaderFields()`: a key (None for the status line's
      null key) and its values. */
  datatype HeaderField = HeaderField(key: Option<string>, values: seq<string>)

  /** What the server does with a plain request: it fails before answering
      (the exception's message), or answers with a status, its header
      fields in iteration order, and the body's lines (or the message of the
      exception raised while opening or reading the body stream). */
  datatype Reply =
    | Refused(message: string)
    | Answered(status: int, fields: seq<HeaderField>, lines: Result<seq<string>, string>)

  /** The headers `sendSimpleRequest` builds: null keys dropped, each value
      list joined with ", ", later entries overwriting earlier ones. */
  function FoldHeaders(fields: seq<HeaderField>): map<string, string>
    decreases |fields|
  {
    if |fields| == 0 then map[]
    else
      var h := FoldHeaders(fields[..|fields| - 1]);
      var f := fields[|fields| - 1];
      if f.key.Some? then h[f.key.value := Join(f.values, ", ")] else h
  }

  /** A header is present exactly when some field carries its key, and holds
      the joined values of the last such field. */
  lemma {:induction false} FoldHeadersSpec(fields: seq<HeaderField>)
    ensures forall k :: k in FoldHeaders(fields) <==> exists i :: 0 <= i < |fields| && fields[i].key == Some(k)
    ensures forall i :: 0 <= i < |fields| && fields[i].key.Some? &&
                        (forall j :: i < j < |fields| ==> fields[j].key != fields[i].key)
                        ==> FoldHeaders(fields)[fields[i].key.value] == Join(fields[i].values, ", ")
    decreases |fields|
  {
    if |fields| > 0 {
      var init := fields[..|fields| - 1];
      FoldHeadersSpec(init);
      forall k
        ensures k in FoldHeaders(fields) <==> exists i :: 0 <= i < |fields| && fields[i].key == Some(k)
      {
        if k in FoldHeaders(init) {
          var i :| 0 <= i < |init| && init[i].key == Some(k);
          assert fields[i] == init[i];
        }
        if exists i :: 0 <= i < |fields| && fields[i].key == Some(k) {
          var i :| 0 <= i < |fields| && fields[i].key == Some(k);
          if i < |init| {
            assert init[i] == fields[i];
          }
        }
      }
      forall i | 0 <= i < |fields| && fields[i].key.Some? &&
                 (forall j :: i < j < |fields| ==> fields[j].key != fields[i].key)
        ensures FoldHeaders(fields)[fields[i].key.value] == Join(fields[i].values, ", ")
      {
        if i < |init| {
          assert init[i] == fields[i];
          assert fields[|fields| - 1].key != fields[i].key;
        }
      }
    }
  }

  /** The body `readLine` loop builds: every line followed by "\n". */
  function Lines(lines: seq<string>): string
    decreases |lines|
  {
    if |lines| == 0 then "" else lines[0] + "\n" + Lines(lines[1..])
  }

  lemma {:induction false} LinesSnoc(lines: seq<string>, line: string)
    ensures Lines(lines + [line]) == Lines(lines) + line + "\n"
    decreases |lines|
  {
    if |lines| > 0 {
      assert (lines + [line])[1..] == lines[1..] + [line];
      LinesSnoc(lines[1..], line);
    }
  }

  /** `readLine` never returns a line break, so cutting the body at its line
      breaks gives back the lines read, followed by the empty tail. */
  lemma {:induction false} LinesRoundTrip(lines: seq<string>)
    requires forall i :: 0 <= i < |lines| ==> '\n' !in lines[i]
    ensures SplitPieces(Lines(lines), '\n') == lines + [""]
    decreases |lines|
  {
    if |lines| > 0 {
      var head, tail := lines[0], lines[1..];
      forall i | 0 <= i < |tail|
        ensures '\n' !in tail[i]
      {
        assert tail[i] == lines[i + 1];
      }
      LinesCons(lines);
      LinesRoundTrip(tail);
      SplitPiecesCons(head, Lines(tail), '\n');
      ConsThenEmpty(lines);
    }
  }

  lemma ConsThenEmpty(lines: seq<string>)
    requires |lines| > 0
    ensures [lines[0]] + (lines[1..] + [""]) == lines + [""]
  {
    assert lines == [lines[0]] + lines[1..];
  }

  lemma LinesCons(lines: seq<string>)
    requires |lines| > 0
    ensures Lines(lines) == lines[0] + ['\n'] + Lines(lines[1..])
  {
  }

  /** `sendSimpleRequest` on values. */
  function SimpleResponse(reply: Reply): Resp {
    match reply
    case Refused(message) => Resp(500, map[], "Error: " + message)
    case Answered(status, fields, lines) =>
      match lines
      case Ok(ls) => Resp(status, FoldHeaders(fields), Lines(ls))
      case Err(message) => Resp(500, FoldHeaders(fields), "Error: " + message)
  }

  /** Every failure ends as status 500 with an "Error: " body; headers
      already read stay on the response. */
  lemma SimpleFailureIs500(reply: Reply)
    requires reply.Refused? || reply.lines.Err?
    ensures SimpleResponse(reply).status == 500
    ensures StartsWith(SimpleResponse(reply).body, "Error: ")
    ensures reply.Answered? ==> SimpleResponse(reply).headers == FoldHeaders(reply.fields)
  {
  }

  /** A body that was read is the server's status, headers and lines, each
      line recoverable from the body. */
  lemma SimpleSuccessKeepsLines(reply: Reply)
    requires reply.Answered? && reply.lines.Ok?
    requires forall i :: 0 <= i < |reply.lines.value| ==> '\n' !in reply.lines.value[i]
    ensures SimpleResponse(reply).status == reply.status
    ensures SplitPieces(SimpleResponse(reply).body, '\n') == reply.lines.value + [""]
  {
    LinesRoundTrip(reply.lines.value);
  }

  // ---------------------------------------------------- the archived answer

  /** The headers of an answer served from the archive. */
  function ArchiveHeaders(lib: Library, cacheDir: string, indexPath: string): (h: map<string, string>)
    ensures h.Keys == {"Content-Type", "X-Cache-Dir", "X-Index-Path", "X-File-URL", "X-Fetcher"}
    ensures h["Content-Type"] == "text/html" && h["X-Fetcher"] == "WebPageFetcher"
    ensures h["X-Cache-Dir"] == cacheDir && h["X-Index-Path"] == indexPath
  {
    map["Content-Type" := "text/html", "X-Cache-Dir" := cacheDir, "X-Index-Path" := indexPath,
        "X-File-URL" := lib.fileUri(indexPath), "X-Fetcher" := "WebPageFetcher"]
  }

  /** The cache directories on disk: directory name to the files under it. */
  class FileSystem {
    var dirs: map<string, Fetcher.Disk>

    constructor (dirs: map<string, Fetcher.Disk>)
      ensures this.dirs == dirs
    {
      this.dirs := dirs;
    }

    function Files(dir: string): Fetcher.Disk
      reads this
    {
      if dir in dirs then dirs[dir] else map[]
    }
  }

  class HTTPRequest {
    var url: string
    var requestMethod: string

    constructor (url: string, requestMethod: string)
      ensures this.url == url && this.requestMethod == requestMethod
    {
      this.url := url;
      this.requestMethod := requestMethod;
    }

    method SetUrl(url: string)
      modifies this
      ensures this.url == url && requestMethod == old(requestMethod)
    {
      this.url := url;
    }

    method SetMethod(requestMethod: string)
      modifies this
      ensures this.requestMethod == requestMethod && url == old(url)
    {
      this.requestMethod := requestMethod;
    }

    /** `sendRequest`: archive the page under "./browser_cache/<domain>" and
        answer 200 with the saved document; if archiving throws, answer
        with the plain exchange instead. */
    method SendRequest(lib: Library, net: Fetcher.Network, scan: Fetcher.Scanner, fs: FileSystem, reply: Reply)
      returns (response: HttpResponse)
      modifies fs
      ensures fresh(response)
      ensures fs.dirs == old(fs.dirs)[CacheDir(lib, url) := fs.Files(CacheDir(lib, url))]
      ensures var dir := CacheDir(lib, url);
        var fetched := Fetcher.Archive(Fetcher.Env(net, lib, Fetcher.OriginOf(lib, url)), scan,
                                       Fetcher.Store({}, map[], old(fs.Files(dir)), []));
        var cached := "index.html" in old(fs.Files(dir));
        && (cached ==> fs.Files(dir) == old(fs.Files(dir)))
        && (!cached ==> fs.Files(dir) == fetched.1.disk)
        && (cached || fetched.0.Ok? ==>
              && "index.html" in fs.Files(dir)
              && response.Value() == Resp(200, ArchiveHeaders(lib, dir, dir + "/index.html"), fs.Files(dir)["index.html"]))
        && (!cached && fetched.0.Err? ==> response.Value() == SimpleResponse(reply))
    {
      var domain := ExtractDomain(lib, url);
      var cacheDir := CACHE_ROOT + domain;
      var indexHtmlPath, saved := ArchiveInto(lib, net, scan, cacheDir, fs.Files(cacheDir));
      fs.dirs := fs.dirs[cacheDir := saved];
      if indexHtmlPath.Err? {
        response := SendSimpleRequest(reply);
        return;
      }
      var htmlContent := saved["index.html"];
      response := ArchivedAnswer(lib, cacheDir, indexHtmlPath.value, htmlContent);
    }

    /** A fetcher for this request's URL archives the site into the cache
        directory, whose files are `files`; `saved` is what the directory
        holds afterwards. */
    method ArchiveInto(lib: Library, net: Fetcher.Network, scan: Fetcher.Scanner, cacheDir: string, files: Fetcher.Disk)
      returns (index: Result<string, Fetcher.FetchError>, saved: Fetcher.Disk)
      ensures var fetched := Fetcher.Archive(Fetcher.Env(net, lib, Fetcher.OriginOf(lib, url)), scan,
                                             Fetcher.Store({}, map[], files, []));
        var cached := "index.html" in files;
        && (cached ==> saved == files && index.Ok?)
        && (!cached ==> saved == fetched.1.disk && (index.Ok? <==> fetched.0.Ok?))
        && (index.Ok? ==> "index.html" in saved && index.value == cacheDir + "/index.html")
    {
      var fetcher := new Fetcher.WebPageFetcher(url, cacheDir, lib, net, files);
      index := fetcher.FetchAndSave(scan);
      saved := fetcher.files;
    }

    /** The 200 answer built from the archived page. */
    static method ArchivedAnswer(lib: Library, cacheDir: string, indexPath: string, htmlContent: string)
      returns (response: HttpResponse)
      ensures fresh(response)
      ensures response.Value() == Resp(200, ArchiveHeaders(lib, cacheDir, indexPath), htmlContent)
    {
      response := new HttpResponse();
      response.SetStatusCode(200);
      response.SetBody(htmlContent);
      var headers := map[];
      headers := headers["Content-Type" := "text/html"];
      headers := headers["X-Cache-Dir" := cacheDir];
      headers := headers["X-Index-Path" := indexPath];
      headers := headers["X-File-URL" := lib.fileUri(indexPath)];
      headers := headers["X-Fetcher" := "WebPageFetcher"];
      response.SetHeaders(headers);
    }

    /** `sendSimpleRequest`: status, folded headers and the body's lines, or
        status 500 with "Error: " and the exception's message. */
    method SendSimpleRequest(reply: Reply) returns (response: HttpResponse)
      ensures fresh(response)
      ensures response.Value() == SimpleResponse(reply)
    {
      response := new HttpResponse();
      if reply.Refused? {
        response.SetStatusCode(500);
        response.SetBody("Error: " + reply.message);
        return;
      }
      response.SetStatusCode(reply.status);
      var headers := map[];
      var fields := reply.fields;
      for i := 0 to |fields|
        invariant headers == FoldHeaders(fields[..i])
        invariant response.Value() == Resp(reply.status, map[], "")
      {
        assert fields[..i + 1][..i] == fields[..i];
        if fields[i].key.Some? {
          headers := headers[fields[i].key.value := Join(fields[i].values, ", ")];
        }
      }
      assert fields[..|fields|] == fields;
      response.SetHeaders(headers);
      if reply.lines.Err? {
        response.SetStatusCode(500);
        response.SetBody("Error: " + reply.lines.error);
        return;
      }
      var lines := reply.lines.value;
      var body := "";
      for i := 0 to |lines|
        invariant body == Lines(lines[..i])
        invariant response.Value() == Resp(reply.status, FoldHeaders(fields), "")
      {
        LinesSnoc(lines[..i], lines[i]);
        assert lines[..i + 1] == lines[..i] + [lines[i]];
        body := body + lines[i] + "\n";
      }
      assert lines[..|lines|] == lines;
      response.SetBody(body);
    }
  }
}
