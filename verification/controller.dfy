/** The browser window's own logic: typed addresses, the local test server's
    routes, cached pages mapped back to the site they came from, relative
    links, and images shown through proxies. */
module Controller {
  import opened Wrappers
  import opened Strings
  import opened JavaNet
  import opened Http
  import opened Handlers
  import opened Page
  import opened Images
  import opened Server
  import Address
  import Request

  // ------------------------------------------------- cached page -> site URL

  const CACHE_MARK: string := "browser_cache"

  /** `extractOriginalUrl`: the file URL of a cached page back to the site it
      was saved from.  Anything that is not a file URL, or holds no
      "browser_cache", comes back unchanged, and so does a file URL whose text
      after the mark is too short or holds no directory name (the exceptions
      the source catches).  Otherwise the result is "https://" and the
      directory name after the mark, with every '_' read back as '.'. */
  function ExtractOriginalUrl(fileUrl: string): (r: string)
    ensures !StartsWith(fileUrl, "file://") ==> r == fileUrl
    ensures !Contains(fileUrl, CACHE_MARK) ==> r == fileUrl
    ensures r == fileUrl || (StartsWith(r, "https://") && '_' !in r && '/' !in r[8..])
  {
    if !StartsWith(fileUrl, "file://") then fileUrl
    else
      var cacheIndex := IndexOf(fileUrl, CACHE_MARK);
      if cacheIndex == -1 then fileUrl
      else if cacheIndex + |CACHE_MARK| + 1 > |fileUrl| then fileUrl
      else
        match SplitFirst(fileUrl[cacheIndex + |CACHE_MARK| + 1..], '/')
        case None => fileUrl
        case Some(domain) =>
          ReplaceCharRemoves(domain, '_', '.');
          var site := ReplaceChar(domain, '_', '.');
          assert '/' !in site by {
            assert '/' !in domain;
          }
          assert ("https://" + site)[8..] == site;
          "https://" + site
  }

  /** No occurrence of the mark starts before the one that follows a
      mark-free prefix: the mark's first letter appears nowhere else in it. */
  lemma MarkFirstAt(pre: string, post: string)
    requires !Contains(pre, CACHE_MARK)
    ensures IndexOf(pre + CACHE_MARK + post, CACHE_MARK) == |pre|
  {
    var s := pre + CACHE_MARK + post;
    var m := CACHE_MARK;
    assert OccursAt(s, m, |pre|) by {
      assert s[|pre|..|pre| + |m|] == m;
    }
    forall j | 0 <= j < |pre|
      ensures !OccursAt(s, m, j)
    {
      if j + |m| <= |pre| {
        assert s[j..j + |m|] == pre[j..j + |m|];
        assert !OccursAt(pre, m, j);
      } else {
        var k := |pre| - j;
        assert 0 < k < |m|;
        assert s[|pre|] == 'b';
        assert m[k] != 'b';
      }
    }
  }

  /** The text after the mark and its separator is the directory name and
      what follows it. */
  lemma AfterMark(pre: string, domain: string, rest: string)
    ensures var s := pre + CACHE_MARK + "/" + domain + "/" + rest;
      && s == pre + CACHE_MARK + ("/" + domain + "/" + rest)
      && s[|pre| + |CACHE_MARK| + 1..] == domain + "/" + rest
  {
  }

  /** A directory name comes first when the path is split at '/'. */
  lemma DirectoryComesFirst(domain: string, rest: string)
    requires domain != "" && '/' !in domain
    ensures SplitFirst(domain + "/" + rest, '/') == Some(domain)
  {
    SplitPiecesCons(domain, rest, '/');
    var ps := SplitPieces(domain + "/" + rest, '/');
    assert ps[0] == domain;
    var kept := DropTrailingEmpty(ps);
    assert |kept| > 0;
  }

  /** Reading '_' back as '.' undoes `extractDomain`'s rewriting of a host
      that had no '_' of its own. */
  lemma UnderscoresReadBack(site: string)
    requires '_' !in site
    ensures ReplaceChar(ReplaceChar(site, '.', '_'), '_', '.') == site
  {
  }

  /** A cached page's file URL yields "https://" and its directory name, with
      '_' read as '.'. */
  lemma CachedPageSite(pre: string, domain: string, rest: string)
    requires StartsWith(pre, "file://") && !Contains(pre, CACHE_MARK)
    requires domain != "" && '/' !in domain
    ensures ExtractOriginalUrl(pre + CACHE_MARK + "/" + domain + "/" + rest) == "https://" + ReplaceChar(domain, '_', '.')
  {
    var s := pre + CACHE_MARK + "/" + domain + "/" + rest;
    AfterMark(pre, domain, rest);
    MarkFirstAt(pre, "/" + domain + "/" + rest);
    assert StartsWith(s, "file://") by {
      assert s[..7] == pre[..7];
    }
    DirectoryComesFirst(domain, rest);
  }

  /** The cache round trip: the file URL of a page saved under the cache
      directory `extractDomain` chose for a URL maps back to "https://" and
      that URL's host, less one leading "www.", provided the host holds no
      '_' of its own and the path up to the cache holds no other
      "browser_cache". */
  lemma OriginalUrlOfCachedPage(lib: Library, url: string, root: string, rest: string)
    requires lib.parseUrl(url).Some?
    requires var host := lib.parseUrl(url).value.host;
      && host != "" && host != "www." && '_' !in host && '/' !in host
    requires !Contains("file://" + root, CACHE_MARK)
    ensures var host := lib.parseUrl(url).value.host;
      var site := if StartsWith(host, "www.") then host[4..] else host;
      ExtractOriginalUrl("file://" + root + CACHE_MARK + "/" + Request.ExtractDomain(lib, url) + "/" + rest)
        == "https://" + site
  {
    var host := lib.parseUrl(url).value.host;
    var site := if StartsWith(host, "www.") then host[4..] else host;
    var domain := Request.ExtractDomain(lib, url);
    assert domain == ReplaceChar(site, '.', '_');
    assert '/' !in domain && domain != "";
    assert StartsWith("file://" + root, "file://");
    CachedPageSite("file://" + root, domain, rest);
    UnderscoresReadBack(site);
  }

  // ------------------------------------------------------ relative links

  predicate IsAbsolute(ref: string) {
    StartsWith(ref, "http://") || StartsWith(ref, "https://")
  }

  lemma AbsoluteIsNotProtocolRelative(ref: string)
    ensures IsAbsolute(ref) ==> !StartsWith(ref, "//")
  {
    if IsAbsolute(ref) {
      assert ref[1] == 't';
    }
  }

  /** `resolveUrl`: a link against the page it sits on.  Absolute links stay
      as they are; a "//" link takes the base's protocol; on a cached page
      the link resolves against the site the page came from; any failure
      yields the link itself. */
  function ResolveUrl(lib: Library, baseUrl: string, relativeUrl: string): (r: string)
    ensures IsAbsolute(relativeUrl) ==> r == relativeUrl
    ensures StartsWith(relativeUrl, "//") ==>
      r == (if lib.parseUrl(baseUrl).Some? then lib.parseUrl(baseUrl).value.protocol + ":" + relativeUrl
            else relativeUrl)
    ensures !IsAbsolute(relativeUrl) && !StartsWith(relativeUrl, "//") ==>
      var base := if StartsWith(baseUrl, "file://") then ExtractOriginalUrl(baseUrl) else baseUrl;
      && (lib.resolveUrl(base, relativeUrl).Some? ==> r == lib.resolveUrl(base, relativeUrl).value)
      && (lib.resolveUrl(base, relativeUrl).None? ==> r == relativeUrl)
  {
    AbsoluteIsNotProtocolRelative(relativeUrl);
    if IsAbsolute(relativeUrl) then relativeUrl
    else if StartsWith(relativeUrl, "//") then
      match lib.parseUrl(baseUrl)
      case Some(base) => base.protocol + ":" + relativeUrl
      case None => relativeUrl
    else
      var base := if StartsWith(baseUrl, "file://") then ExtractOriginalUrl(baseUrl) else baseUrl;
      match lib.resolveUrl(base, relativeUrl)
      case Some(resolved) => resolved
      case None => relativeUrl
  }

  /** A relative link on a cached page resolves as it would on the live site. */
  lemma LinkOnCachedPage(lib: Library, url: string, root: string, rest: string, ref: string)
    requires lib.parseUrl(url).Some?
    requires var host := lib.parseUrl(url).value.host;
      && host != "" && host != "www." && '_' !in host && '/' !in host
    requires !Contains("file://" + root, CACHE_MARK)
    requires !IsAbsolute(ref) && !StartsWith(ref, "//")
    ensures var host := lib.parseUrl(url).value.host;
      var site := if StartsWith(host, "www.") then host[4..] else host;
      var page := "file://" + root + CACHE_MARK + "/" + Request.ExtractDomain(lib, url) + "/" + rest;
      ResolveUrl(lib, page, ref) ==
        (if lib.resolveUrl("https://" + site, ref).Some? then lib.resolveUrl("https://" + site, ref).value else ref)
  {
    OriginalUrlOfCachedPage(lib, url, root, rest);
    var page := "file://" + root + CACHE_MARK + "/" + Request.ExtractDomain(lib, url) + "/" + rest;
    assert StartsWith(page, "file://") by {
      assert page[..7] == "file://";
    }
  }

  // ------------------------------------------------------- the local server

  /** `handleLocalServerRequest` assumes "http://" when no scheme is typed. */
  function LocalFullUrl(url: string): (full: string)
    ensures IsAbsolute(full) && EndsWith(full, url)
    ensures IsAbsolute(url) ==> full == url
  {
    if IsAbsolute(url) then url
    else
      assert ("http://" + url)[..7] == "http://";
      assert ("http://" + url)[7..] == url;
      "http://" + url
  }

  /** The response before the chain sees it: the test paths "/404", "/502"
      and "/503", looked for in the typed text in that order, each answer an
      empty page of that status (the last with a 30-second Retry-After);
      anything else is the server's answer. */
  function LocalAnswer(url: string, served: Resp): Resp {
    if Contains(url, "/404") then Resp(404, map["Content-Type" := "text/html"], "")
    else if Contains(url, "/502") then Resp(502, map["Content-Type" := "text/html"], "")
    else if Contains(url, "/503") then
      Resp(503, map["Content-Type" := "text/html", "Retry-After" := "30"], "")
    else served
  }

  /** What the local route answers, after the chain has processed it. */
  function LocalResponse(host: string, resources: seq<string>, firstPage: Option<seq<HtmlFile>>, url: string): Resp {
    Classify(LocalAnswer(url, Serve(host, resources, firstPage, LocalFullUrl(url)))).1
  }

  predicate IsTestPath(url: string) {
    Contains(url, "/404") || Contains(url, "/502") || Contains(url, "/503")
  }

  /** "/404" wins over the other test paths: the chain shows its canonical
      "Not Found" page, with no Retry-After. */
  lemma NotFoundRoute(url: string, served: Resp)
    requires Contains(url, "/404")
    ensures var r := Classify(LocalAnswer(url, served)).1;
      && r.status == 404 && r.body == NOT_FOUND_PAGE
      && r.headers == map["Content-Type" := "text/html", "X-Handled-By" := "NotFoundHandler",
                          "X-Error-Type" := "Client Error"]
  {
    var before := LocalAnswer(url, served);
    ClassifyOutcome(before);
    assert KindFor(404) == NotFound;
    assert !Contains("", "404");
  }

  /** "/502" without "/404": the canonical "Bad Gateway" page with a retry
      recommended, and no Retry-After. */
  lemma BadGatewayRoute(url: string, served: Resp)
    requires !Contains(url, "/404") && Contains(url, "/502")
    ensures var r := Classify(LocalAnswer(url, served)).1;
      && r.status == 502 && r.body == BAD_GATEWAY_PAGE
      && r.headers == map["Content-Type" := "text/html", "X-Handled-By" := "BadGatewayHandler",
                          "X-Error-Type" := "Server Error", "X-Retry-Recommended" := "true"]
  {
    var before := LocalAnswer(url, served);
    ClassifyOutcome(before);
    assert KindFor(502) == BadGateway;
    assert !Contains("", "502");
  }

  /** "/503" alone: the "Service Unavailable" page announcing the 30-second
      Retry-After, which the response keeps. */
  lemma UnavailableRoute(url: string, served: Resp)
    requires !Contains(url, "/404") && !Contains(url, "/502") && Contains(url, "/503")
    ensures var r := Classify(LocalAnswer(url, served)).1;
      && r.status == 503 && r.body == ServiceUnavailablePage(Some("30"))
      && Contains(r.body, "Please try again in 30 seconds.")
      && "Retry-After" in r.headers && r.headers["Retry-After"] == "30"
  {
    var before := LocalAnswer(url, served);
    ClassifyOutcome(before);
    assert KindFor(503) == ServiceUnavailable;
    assert !Contains("", "503");
    assert Lookup(before.headers, "Retry-After") == Some("30");
    ProcessEffect(ServiceUnavailable, before);
    ThirtySecondsAnnounced();
  }

  lemma ThirtySecondsAnnounced()
    ensures Contains(ServiceUnavailablePage(Some("30")), "Please try again in 30 seconds.")
  {
    ServiceUnavailablePageRetry(Some("30"));
    ThirtySecondSentence();
  }

  lemma ThirtySecondSentence()
    ensures RetrySentence(Some("30")) == "Please try again in 30 seconds."
  {
    assert "Please try again in " + "30" + " seconds." == "Please try again in 30 seconds.";
  }

  /** Any other address gets the server's answer, passed through the chain:
      200 exactly when a registered name occurs in the full address and a
      page exists, showing that page; "Not Found" otherwise.  Neither
      carries Retry-After. */
  lemma ServedRoute(host: string, resources: seq<string>, firstPage: Option<seq<HtmlFile>>, url: string)
    requires !IsTestPath(url)
    ensures var r := LocalResponse(host, resources, firstPage, url);
      && (r.status == 200 <==> Registered(resources, LocalFullUrl(url)) && firstPage.Some?)
      && (r.status == 200 ==>
            && r.body == Contents(firstPage.value)
            && r.headers == map["Content-Type" := "text/html", "Server" := host, "X-Handled-By" := "SuccessHandler"])
      && (r.status != 200 ==> r.status == 404 && r.body == NOT_FOUND_PAGE && "Retry-After" !in r.headers)
  {
    var full := LocalFullUrl(url);
    var served := Serve(host, resources, firstPage, full);
    assert LocalAnswer(url, served) == served;
    ServeSpec(host, resources, firstPage, full);
    if Registered(resources, full) && firstPage.Some? {
      ClassifyOutcome(served);
      assert KindFor(200) == Success;
    } else {
      ClassifyIdempotent(Resp(404, map["Content-Type" := "text/html"], ""));
    }
  }

  /** The test home page: an address naming "index.html" and no test path
      shows the page the server was given, unchanged. */
  lemma LocalHomePage(host: string, home: string, url: string)
    requires Contains(url, "index.html") && !IsTestPath(url)
    ensures var r := LocalResponse(host, ["index.html"], Some([HtmlFile("index.html", "index.html", home)]), url);
      r.status == 200 && r.body == home
  {
    var full := LocalFullUrl(url);
    var i :| 0 <= i <= |url| - |"index.html"| && OccursAt(url, "index.html", i);
    var j := |full| - |url| + i;
    assert full[j..j + |"index.html"|] == url[i..i + |"index.html"|];
    assert OccursAt(full, "index.html", j);
    assert Registered(["index.html"], full) by {
      assert ["index.html"][0] == "index.html";
    }
    var files := [HtmlFile("index.html", "index.html", home)];
    assert Contents(files) == "" + home by {
      assert files[..0] == [];
    }
    ServedRoute(host, ["index.html"], Some(files), url);
  }

  // ---------------------------------------------------------- image proxies

  /** A piece of a document as the image pattern cuts it: text between
      matches, or one `<img … src="…" …>` tag with its three groups. */
  datatype ImgPiece = Plain(text: string) | Img(whole: string, before: string, src: string, after: string)

  /** The regular-expression engine for the image pattern. */
  type ImgScanner = string -> seq<ImgPiece>

  /** The tag put in place of a matched one: the placeholder as `src`, the
      original source kept in `data-original-src`, the other attributes
      as they were. */
  function ProxyTag(before: string, src: string, after: string, encode: SvgEncoder): string {
    "<img" + before + ("src=\"" + CreatePlaceholder(ExtractFileName(src), encode) + "\"") + " " +
    ("data-original-src=\"" + src + "\"") + after + ">"
  }

  /** A piece as the rewritten document shows it. */
  function ShowProxied(encode: SvgEncoder): ImgPiece -> string {
    (p: ImgPiece) => match p
         case Plain(text) => text
         case Img(_, before, src, after) => ProxyTag(before, src, after, encode)
  }

  /** A piece as the original document holds it. */
  function ShowSource(p: ImgPiece): string {
    match p
    case Plain(text) => text
    case Img(whole, _, _, _) => whole
  }

  /** The pieces shown one after the other. */
  function Render(pieces: seq<ImgPiece>, show: ImgPiece -> string): string
    decreases |pieces|
  {
    if |pieces| == 0 then "" else Render(pieces[..|pieces| - 1], show) + show(pieces[|pieces| - 1])
  }

  /** One more piece shows one more piece's text. */
  lemma RenderSnoc(pieces: seq<ImgPiece>, show: ImgPiece -> string, i: int)
    requires 0 <= i < |pieces|
    ensures Render(pieces[..i + 1], show) == Render(pieces[..i], show) + show(pieces[i])
  {
    assert pieces[..i + 1][..i] == pieces[..i];
  }

  /** An image piece is shown as its proxy tag. */
  lemma ShowProxiedImg(encode: SvgEncoder, p: ImgPiece)
    requires p.Img?
    ensures ShowProxied(encode)(p) == ProxyTag(p.before, p.src, p.after, encode)
  {
  }

  /** The proxy tag keeps the source and shows the placeholder drawn for the
      source's file name. */
  lemma ProxyTagParts(before: string, src: string, after: string, encode: SvgEncoder)
    ensures Contains(ProxyTag(before, src, after, encode), "data-original-src=\"" + src + "\"")
    ensures Contains(ProxyTag(before, src, after, encode),
                     "src=\"" + CreatePlaceholder(ExtractFileName(src), encode) + "\"")
  {
    var shown := "src=\"" + CreatePlaceholder(ExtractFileName(src), encode) + "\"";
    var keep := "data-original-src=\"" + src + "\"";
    ContainsEnd("<img" + before, shown);
    ContainsAppend("<img" + before + shown, " ", shown);
    ContainsAppend("<img" + before + shown + " ", keep, shown);
    ContainsAppend("<img" + before + shown + " " + keep, after, shown);
    ContainsAppend("<img" + before + shown + " " + keep + after, ">", shown);
    ContainsEnd("<img" + before + shown + " ", keep);
    ContainsAppend("<img" + before + shown + " " + keep, after, keep);
    ContainsAppend("<img" + before + shown + " " + keep + after, ">", keep);
  }

  /** Every matched tag keeps its source in `data-original-src` and shows
      the placeholder for the source's file name. */
  lemma {:induction false} KeepsOriginalSources(pieces: seq<ImgPiece>, encode: SvgEncoder, i: int)
    requires 0 <= i < |pieces| && pieces[i].Img?
    ensures Contains(Render(pieces, ShowProxied(encode)), "data-original-src=\"" + pieces[i].src + "\"")
    ensures Contains(Render(pieces, ShowProxied(encode)),
                     "src=\"" + CreatePlaceholder(ExtractFileName(pieces[i].src), encode) + "\"")
    decreases |pieces|
  {
    var show := ShowProxied(encode);
    var p := pieces[i];
    var keep := "data-original-src=\"" + p.src + "\"";
    var shown := "src=\"" + CreatePlaceholder(ExtractFileName(p.src), encode) + "\"";
    var init := pieces[..|pieces| - 1];
    if i == |pieces| - 1 {
      assert show(p) == ProxyTag(p.before, p.src, p.after, encode);
      ProxyTagParts(p.before, p.src, p.after, encode);
      ContainsPrepend(Render(init, show), show(p), keep);
      ContainsPrepend(Render(init, show), show(p), shown);
    } else {
      assert init[i] == p;
      KeepsOriginalSources(init, encode, i);
      ContainsAppend(Render(init, show), show(pieces[|pieces| - 1]), keep);
      ContainsAppend(Render(init, show), show(pieces[|pieces| - 1]), shown);
    }
  }

  /** Pieces without a matched tag show as the text they were cut from. */
  lemma {:induction false} PlainPiecesShowSource(pieces: seq<ImgPiece>, encode: SvgEncoder)
    requires forall i :: 0 <= i < |pieces| ==> pieces[i].Plain?
    ensures Render(pieces, ShowProxied(encode)) == Render(pieces, ShowSource)
    decreases |pieces|
  {
    if |pieces| > 0 {
      PlainPiecesShowSource(pieces[..|pieces| - 1], encode);
    }
  }

  /** A scan loses nothing: its pieces put back together are the document
      scanned, as `appendReplacement` and `appendTail` guarantee. */
  ghost predicate ImgScansWhole(scan: ImgScanner) {
    forall h :: Render(scan(h), ShowSource) == h
  }

  /** `replaceImagesWithProxies` on values: an empty document is returned as
      it is, any other is rewritten tag by tag. */
  function ProxiedHtml(html: string, scan: ImgScanner, encode: SvgEncoder): string {
    if html == "" then html else Render(scan(html), ShowProxied(encode))
  }

  /** A document in which the pattern matches no tag comes back as it was. */
  lemma NoImagesUnchanged(html: string, scan: ImgScanner, encode: SvgEncoder)
    requires ImgScansWhole(scan)
    requires forall i :: 0 <= i < |scan(html)| ==> scan(html)[i].Plain?
    ensures ProxiedHtml(html, scan, encode) == html
  {
    if html != "" {
      PlainPiecesShowSource(scan(html), encode);
    }
  }

  /** One piece of the document as the rewritten page holds it: text between
      matches is copied, a matched tag becomes its proxy tag. */
  method ShowPiece(piece: ImgPiece, encode: SvgEncoder) returns (shown: string)
    ensures shown == ShowProxied(encode)(piece)
  {
    match piece
    case Plain(text) =>
      shown := text;
    case Img(_, beforeSrc, originalSrc, afterSrc) =>
      shown := ProxyReplacement(beforeSrc, originalSrc, afterSrc, encode);
      ShowProxiedImg(encode, piece);
  }

  /** The replacement for one matched tag: a fresh proxy draws the
      placeholder for the file name, and the original source is kept. */
  method ProxyReplacement(beforeSrc: string, originalSrc: string, afterSrc: string, encode: SvgEncoder)
    returns (replacement: string)
    ensures replacement == ProxyTag(beforeSrc, originalSrc, afterSrc, encode)
  {
    var fileName := originalSrc;
    var lastSlash := LastIndexOfChar(originalSrc, '/');
    if lastSlash >= 0 {
      fileName := originalSrc[lastSlash + 1..];
    }
    assert fileName == ExtractFileName(originalSrc);
    var proxy := new ImageProxy(fileName, originalSrc, encode);
    var placeholderDataUri := proxy.placeholderContent;
    replacement := "<img" + beforeSrc + ("src=\"" + placeholderDataUri + "\"") + " " +
      ("data-original-src=\"" + originalSrc + "\"") + afterSrc + ">";
  }

  /** `replaceImagesWithProxies`: each matched tag is replaced by its proxy
      tag (a fresh proxy object draws the placeholder) and the text between
      matches is copied, as `appendReplacement` and `appendTail` do. */
  method ReplaceImagesWithProxies(html: string, scan: ImgScanner, encode: SvgEncoder) returns (result: string)
    ensures result == ProxiedHtml(html, scan, encode)
    ensures html == "" ==> result == html
  {
    if html == "" {
      return html;
    }
    var pieces := scan(html);
    result := "";
    for i := 0 to |pieces|
      invariant result == Render(pieces[..i], ShowProxied(encode))
    {
      RenderSnoc(pieces, ShowProxied(encode), i);
      var shown := ShowPiece(pieces[i], encode);
      result := result + shown;
    }
    assert pieces[..|pieces|] == pieces;
  }

  // -------------------------------------------------------- typed addresses

  /** The address handed on for a valid typed one: as typed when it names
      http or https, else behind the address bar's protocol. */
  function WithProtocol(protocol: string, input: string): string {
    if IsAbsolute(input) then input else protocol + "://" + input
  }

  /** Behind "http://" or "https://", the address bar looks at the typed
      text itself. */
  lemma SchemeSkipped(protocol: string, input: string)
    requires protocol == "http" || protocol == "https"
    requires !IsAbsolute(input)
    ensures IsAbsolute(protocol + "://" + input)
    ensures Address.AfterScheme(protocol + "://" + input) == input
  {
    var s := protocol + "://" + input;
    if protocol == "https" {
      assert s[..8] == "https://";
      assert s[8..] == input;
    } else {
      assert s[..7] == "http://";
      assert s[7..] == input;
      assert !StartsWith(s, "https://") by {
        assert s[4] == ':';
      }
    }
  }

  /** A text that starts with a visible character is not blank. */
  lemma VisibleStartNotBlank(s: string)
    requires |s| > 0 && !IsTrimmed(s[0])
    ensures !IsBlank(s)
  {
    BlankIffAllTrimmed(s);
  }

  /** With the default protocols, the address handed on names its scheme and
      is still one the address bar accepts. */
  lemma WithProtocolStaysValid(protocol: string, input: string)
    requires protocol == "http" || protocol == "https"
    requires Address.ValidateUrl(input)
    ensures IsAbsolute(WithProtocol(protocol, input))
    ensures Address.ValidateUrl(WithProtocol(protocol, input))
  {
    if !IsAbsolute(input) {
      var s := protocol + "://" + input;
      SchemeSkipped(protocol, input);
      VisibleStartNotBlank(s);
    }
  }

  /** What `loadPage` did with the typed text. */
  datatype LoadOutcome =
    | Ignored
    | Local(response: Resp, shown: string)
    | Remote(fullUrl: string)
    | Rejected

  /** The regular-expression engines and the placeholder drawing the
      controller's page handling relies on. */
  datatype Engines = Engines(tags: TagScanner, images: ImgScanner, svg: SvgEncoder)

  class WebBrowserController {
    var addressBar: Address.AddressBar
    var localServer: WebServer
    var handlerChain: HandlerChain
    var currentWebPage: WebPage?

    /** `initialize`: a fresh address bar and chain, and the local test
        server. */
    constructor (homeHtml: string, tags: TagScanner)
      ensures fresh(addressBar) && addressBar.url == "" && addressBar.protocol == "https"
      ensures handlerChain.Valid()
      ensures fresh(localServer) && localServer.host == "test.com" && localServer.resources == ["index.html"]
      ensures homeHtml != "" ==>
        localServer.FirstPage() == Some([HtmlFile("index.html", "index.html", homeHtml)])
      ensures currentWebPage == null
    {
      var server := InitializeLocalServer(homeHtml, tags);
      addressBar := new Address.AddressBar();
      localServer := server;
      currentWebPage := null;
      handlerChain := new HandlerChain();
    }

    /** `initializeLocalServer`: the test server "test.com" answering for
        "index.html" with the given home page. */
    static method InitializeLocalServer(homeHtml: string, tags: TagScanner) returns (server: WebServer)
      ensures fresh(server) && server.host == "test.com" && server.resources == ["index.html"]
      ensures |server.pages| == 1 && fresh(server.pages[0])
      ensures homeHtml != "" ==>
        server.FirstPage() == Some([HtmlFile("index.html", "index.html", homeHtml)])
    {
      server := new WebServer("test.com");
      server.AddResource("index.html");
      var testPage := new WebPage();
      testPage.SetRawHTML(homeHtml);
      testPage.ParseHTML(tags);
      assert homeHtml != "" ==> testPage.htmlResources == [HtmlFile("index.html", "index.html", homeHtml)];
      server.AddPage(testPage);
      assert server.pages[0] == testPage;
    }

    /** The routed answer, run through the handler chain. */
    method AnswerLocal(url: string) returns (response: HttpResponse)
      requires handlerChain.Valid()
      ensures fresh(response)
      ensures response.Value() ==
        LocalResponse(localServer.host, localServer.resources, localServer.FirstPage(), url)
    {
      response := RouteLocal(url);
      var _ := handlerChain.Process(response);
    }

    /** The routing part of `handleLocalServerRequest`: a synthetic error
        response for a test path, else the local server's answer to the
        request for the full address. */
    method RouteLocal(url: string) returns (response: HttpResponse)
      ensures fresh(response)
      ensures response.Value() ==
        LocalAnswer(url, Serve(localServer.host, localServer.resources, localServer.FirstPage(), LocalFullUrl(url)))
    {
      var fullUrl := url;
      if !IsAbsolute(url) {
        fullUrl := "http://" + url;
      }
      var request := new Request.HTTPRequest(fullUrl, "GET");

      if Contains(url, "/404") {
        response := new HttpResponse();
        response.SetStatusCode(404);
        response.SetBody("");
        response.PutHeader("Content-Type", "text/html");
      } else if Contains(url, "/502") {
        response := new HttpResponse();
        response.SetStatusCode(502);
        response.SetBody("");
        response.PutHeader("Content-Type", "text/html");
      } else if Contains(url, "/503") {
        response := new HttpResponse();
        response.SetStatusCode(503);
        response.SetBody("");
        response.PutHeader("Content-Type", "text/html");
        response.PutHeader("Retry-After", "30");
      } else {
        response := localServer.ProcessRequest(request);
      }
    }

    /** `handleLocalServerRequest`: route the address, let the chain process
        the answer, show a successful page with its images proxied, and parse
        the answer as the current page. */
    method HandleLocalServerRequest(url: string, engines: Engines) returns (response: HttpResponse, shown: string)
      requires handlerChain.Valid()
      modifies this
      ensures addressBar == old(addressBar) && localServer == old(localServer)
      ensures handlerChain == old(handlerChain) && handlerChain.Valid()
      ensures fresh(response)
      ensures response.Value() ==
        LocalResponse(localServer.host, localServer.resources, localServer.FirstPage(), url)
      ensures shown ==
        (if response.statusCode == 200 then ProxiedHtml(response.body, engines.images, engines.svg)
         else response.body)
      ensures currentWebPage != null && fresh(currentWebPage)
      ensures currentWebPage.ParsedFrom(response.body, engines.tags)
    {
      response := AnswerLocal(url);

      shown := ShowResponse(response, engines);
      // The new current page shares no object with the handler chain.
      ghost var links := set h | h in handlerChain.chain;
      ParseCurrentPage(response.body, engines.tags);
      assert unchanged(handlerChain) && unchanged(links);
    }

    /** The text put on screen: a successful page with its images behind
        proxies, any other answer as it is. */
    static method ShowResponse(response: HttpResponse, engines: Engines) returns (shown: string)
      ensures shown ==
        (if response.statusCode == 200 then ProxiedHtml(response.body, engines.images, engines.svg)
         else response.body)
    {
      shown := response.body;
      if response.statusCode == 200 {
        shown := ReplaceImagesWithProxies(shown, engines.images, engines.svg);
      }
    }

    /** The current page becomes a fresh page parsed from the answer's body. */
    method ParseCurrentPage(raw: string, tags: TagScanner)
      modifies this
      ensures addressBar == old(addressBar) && localServer == old(localServer)
      ensures handlerChain == old(handlerChain)
      ensures currentWebPage != null && fresh(currentWebPage)
      ensures currentWebPage.ParsedFrom(raw, tags)
    {
      var page := new WebPage();
      page.SetRawHTML(raw);
      page.ParseHTML(tags);
      currentWebPage := page;
    }

    /** `loadPage`: blank input is ignored; an address naming "test.com"
        goes to the local server; a valid one is handed on with its
        protocol and shown in the address bar; anything else is a 400. */
    method LoadPage(inputUrl: string, engines: Engines) returns (outcome: LoadOutcome)
      requires handlerChain.Valid()
      modifies this, addressBar
      ensures addressBar == old(addressBar) && localServer == old(localServer)
      ensures handlerChain == old(handlerChain) && handlerChain.Valid()
      ensures addressBar.protocol == old(addressBar.protocol)
      ensures IsBlank(inputUrl) ==> outcome == Ignored && addressBar.url == old(addressBar.url)
      ensures !IsBlank(inputUrl) && Contains(inputUrl, "test.com") ==>
        ShowsLocalAnswer(outcome, inputUrl, engines) && fresh(currentWebPage) && addressBar.url == old(addressBar.url)
      ensures outcome.Ignored? || outcome.Rejected? ==> currentWebPage == old(currentWebPage)
      ensures !IsBlank(inputUrl) && !Contains(inputUrl, "test.com") && Address.ValidateUrl(inputUrl) ==>
        && outcome == Remote(WithProtocol(old(addressBar.protocol), inputUrl))
        && addressBar.url == outcome.fullUrl
      ensures !IsBlank(inputUrl) && !Contains(inputUrl, "test.com") && !Address.ValidateUrl(inputUrl) ==>
        outcome == Rejected && addressBar.url == old(addressBar.url)
    {
      if IsBlank(inputUrl) {
        return Ignored;
      }
      if Contains(inputUrl, "test.com") {
        outcome := LoadLocal(inputUrl, engines);
        return;
      }
      // The address bar shares no object with the handler chain.
      ghost var links := set h | h in handlerChain.chain;
      outcome := LoadRemote(addressBar, inputUrl);
      assert unchanged(handlerChain) && unchanged(links);
    }

    /** What loading an address for the local server leaves: the outcome
        holds the routed answer and the text shown, and the current page is
        that answer parsed. */
    predicate ShowsLocalAnswer(outcome: LoadOutcome, url: string, engines: Engines)
      reads this, localServer, if |localServer.pages| > 0 then {localServer.pages[0]} else {}
      reads if currentWebPage != null then {currentWebPage} else {}
    {
      && outcome.Local?
      && outcome.response ==
           LocalResponse(localServer.host, localServer.resources, localServer.FirstPage(), url)
      && outcome.shown ==
           (if outcome.response.status == 200
            then ProxiedHtml(outcome.response.body, engines.images, engines.svg)
            else outcome.response.body)
      && currentWebPage != null
      && currentWebPage.ParsedFrom(outcome.response.body, engines.tags)
    }

    /** An address for the local server: its answer and the text shown,
        with the answer parsed as the current page. */
    method LoadLocal(inputUrl: string, engines: Engines) returns (outcome: LoadOutcome)
      requires handlerChain.Valid()
      modifies this
      ensures addressBar == old(addressBar) && localServer == old(localServer)
      ensures handlerChain == old(handlerChain) && handlerChain.Valid()
      ensures ShowsLocalAnswer(outcome, inputUrl, engines) && fresh(currentWebPage)
    {
      var response, shown := HandleLocalServerRequest(inputUrl, engines);
      outcome := Local(response.Value(), shown);
    }

    /** A typed address that is not for the local server: a valid one gets
        the bar's protocol when it has no scheme and is shown in the bar; an
        invalid one is rejected and the bar keeps its text. */
    static method LoadRemote(bar: Address.AddressBar, inputUrl: string) returns (outcome: LoadOutcome)
      modifies bar
      ensures bar.protocol == old(bar.protocol)
      ensures Address.ValidateUrl(inputUrl) ==>
        outcome == Remote(WithProtocol(old(bar.protocol), inputUrl)) && bar.url == outcome.fullUrl
      ensures !Address.ValidateUrl(inputUrl) ==> outcome == Rejected && bar.url == old(bar.url)
    {
      if Address.ValidateUrl(inputUrl) {
        var fullUrl := inputUrl;
        if !IsAbsolute(inputUrl) {
          fullUrl := bar.protocol + "://" + inputUrl;
        }
        bar.SetUrl(fullUrl);
        outcome := Remote(fullUrl);
      } else {
        outcome := Rejected;
      }
    }
  }
}
