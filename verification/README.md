# WebBrowserProxy core in Dafny

This project models the core of a small JavaFX web browser and proves properties of that model.

- **Response classification chain.** An `HTTPResponse` passes through a chain of responsibility built in the order Success → NotFound → BadGateway → ServiceUnavailable. The first handler whose status it accepts annotates the response in place: it may replace the body with a canonical error page and it writes diagnostic headers.
- **Page archiver (`WebPageFetcher`).** It fetches a page and runs seven rewrite passes over it. Each pass downloads the referenced stylesheets, scripts, images, icons and fonts into per-kind folders under a cache directory and points the references at the local copies. Finally it adds a `<base>` tag and saves `index.html`. An existing `index.html` is a cache hit.
- **Requests (`HTTPRequest`).** A request archives a site under `./browser_cache/<domain>` and answers 200 with the saved document. If archiving fails, it falls back to a plain HTTP exchange.
- **Local test server (`WebServer`).** It answers for registered resource names.
- **Address bar (`AddressBar`).** Its validator is a fixed regular expression.
- **Pages (`WebPage`).** A page collects its stylesheets, scripts and images.
- **Lazy images (`ImageProxy`).** A proxy loads the real image at most once.
- **Controller helpers (`WebBrowserController`).**
  - mapping a cached file URL back to its site;
  - resolving links;
  - routing local test addresses ("/404", "/502", "/503");
  - prefixing the protocol to typed addresses;
  - replacing images by proxy placeholders.

## Modules

There is one module per source component:

| module | file |
|---|---|
| `Http` | `http_response.dfy` |
| `Handlers` | `handlers.dfy` |
| `Fetcher` | `page_fetcher.dfy` |
| `Request` | `http_request.dfy` |
| `Server` | `web_server.dfy` |
| `Address` | `address_bar.dfy` |
| `Page` | `web_page.dfy` |
| `Images` | `image_proxy.dfy` |
| `Controller` | `controller.dfy` |

Two supporting modules hold what the core borrows from Java:

- `Strings` holds the Java string, integer and hash operations the core uses, with their Java semantics.
- `JavaNet` holds the `java.net` URL and URI operations, as oracle functions.

Classes whose fields the source updates in place are Dafny classes, specified against functions on values:

- `HttpResponse.Value()` against `Resp`;
- `HandlerChain.Process` against `Classify`;
- `WebPageFetcher.State()` against `Store`, with `Pass`, `RunPasses` and `Archive`;
- `WebServer.ProcessRequest` against `Serve`.

External inputs are parameters, never computed:

- the network, as a map from URL to the content served with status 200;
- the files in a directory;
- the regular-expression engines, as scanners that cut a document into text and matches;
- the Base64/SVG placeholder encoder;
- a file read.

## Model


| member | source | states |
|---|---|---|
| Http.HttpResponse.constructor | WebBrowserProxy/src/main/java/org/example/webbrowser/HTTPResponse.java:11-15 | a fresh response has status 0, no headers and an empty body |
| Http.HttpResponse.SetStatusCode | WebBrowserProxy/src/main/java/org/example/webbrowser/HTTPResponse.java:21-23 | only the status changes; headers and body keep their values |
| Http.HttpResponse.SetHeaders | WebBrowserProxy/src/main/java/org/example/webbrowser/HTTPResponse.java:29-31 | the whole header map is replaced by the given one, nothing else changes |
| Http.HttpResponse.SetBody | WebBrowserProxy/src/main/java/org/example/webbrowser/HTTPResponse.java:37-39 | only the body changes |
| Http.HttpResponse.PutHeader | WebBrowserProxy/src/main/java/org/example/webbrowser/HTTPResponse.java:25-27 | a put through the live header map is visible on this response: that key gets the value, every other field and key is unchanged |
| Http.HttpResponse.GetHeader | WebBrowserProxy/src/main/java/org/example/webbrowser/HTTPResponse.java:25-27 | a lookup in the live map yields a value exactly when the key is present, and then the stored value |
| Handlers.CanHandleUnique | WebBrowserProxy/src/main/java/org/example/webbrowser/SuccessHandler.java:9-11 | each handler accepts exactly one status (200, 404, 502, 503 in the four handlers), so no two handlers accept the same status |
| Handlers.NotFoundPageHasCode | WebBrowserProxy/src/main/java/org/example/webbrowser/NotFoundHandler.java:32-48 | the canonical 404 page contains "404" |
| Handlers.BadGatewayPageHasCode | WebBrowserProxy/src/main/java/org/example/webbrowser/BadGatewayHandler.java:31-47 | the canonical 502 page contains "502" |
| Handlers.ServiceUnavailablePageHasCode | WebBrowserProxy/src/main/java/org/example/webbrowser/ServiceUnavailableHandler.java:40-56 | the generated 503 page contains "503", whatever the Retry-After value |
| Handlers.ServiceUnavailablePageRetry | WebBrowserProxy/src/main/java/org/example/webbrowser/ServiceUnavailableHandler.java:35-38 | with a Retry-After value v the page says "Please try again in v seconds."; without one it says "Please try again in a few moments." |
| Handlers.ProcessEffect | WebBrowserProxy/src/main/java/org/example/webbrowser/ServiceUnavailableHandler.java:14-27 | for each of the four handlers: the status never changes; an error handler replaces the body by its page (for 503 built from the response's own Retry-After) exactly when the body lacks its code, the success handler keeps it; the handler's diagnostic headers are written and every other header keeps its value |
| Handlers.ProcessHeaders | WebBrowserProxy/src/main/java/org/example/webbrowser/BadGatewayHandler.java:21-23 | the headers after processing are the old headers overwritten by exactly the handler's annotations |
| Handlers.NotFoundNoRetryHeader | WebBrowserProxy/src/main/java/org/example/webbrowser/NotFoundHandler.java:23-24 | the 404 handler never adds X-Retry-Recommended |
| Handlers.UnavailableKeepsRetryAfter | WebBrowserProxy/src/main/java/org/example/webbrowser/ServiceUnavailableHandler.java:16-26 | the 503 handler keeps a Retry-After header as it was (or absent) |
| Handlers.ProcessedBodyHasCode | WebBrowserProxy/src/main/java/org/example/webbrowser/NotFoundHandler.java:18-21 | after an error handler has run, the body always carries its code, so no later run substitutes again |
| Handlers.ProcessIdempotent | WebBrowserProxy/src/main/java/org/example/webbrowser/SuccessHandler.java:15 | for every handler, processing twice gives the same response as processing once |
| Handlers.FirstMatch | WebBrowserProxy/src/main/java/org/example/webbrowser/AbstractHTTPHandler.java:19-27 | the position found is the first handler in link order that accepts the status, and None exactly when no handler accepts it |
| Handlers.HandleChainFirstWins | WebBrowserProxy/src/main/java/org/example/webbrowser/AbstractHTTPHandler.java:19-27 | handling along a chain returns true exactly when some handler accepts, and then only the first such handler has processed the response; otherwise it returns false and the response is unchanged |
| Handlers.ClassifyOutcome | WebBrowserProxy/src/main/java/org/example/webbrowser/HTTPHandlerChain.java:36-41 | the default chain reports true exactly for 200, 404, 502 and 503; exactly the handler owning the status processes it; any other status leaves the response identical |
| Handlers.ClassifyIdempotent | WebBrowserProxy/src/main/java/org/example/webbrowser/HTTPHandlerChain.java:36-41 | running an already processed response through the chain changes nothing and reports the same outcome |
| Handlers.Handler.constructor | WebBrowserProxy/src/main/java/org/example/webbrowser/AbstractHTTPHandler.java:9-11 | a new handler has its kind and no successor |
| Handlers.Handler.SetNext | WebBrowserProxy/src/main/java/org/example/webbrowser/AbstractHTTPHandler.java:14-16 | the link is replaced by the given successor |
| Handlers.Handler.ProcessResponse | WebBrowserProxy/src/main/java/org/example/webbrowser/ServiceUnavailableHandler.java:13-27 | the in-place header reads, body check and header puts of whichever handler this is turn the response's value into `Process(kind, old value)` |
| Handlers.Handler.Handle | WebBrowserProxy/src/main/java/org/example/webbrowser/AbstractHTTPHandler.java:19-27 | recursing along the links, the result and the new response equal the chain function over the handlers reachable from this one |
| Handlers.HandlerChain.constructor | WebBrowserProxy/src/main/java/org/example/webbrowser/HTTPHandlerChain.java:7-28 | the chain is Success → NotFound → BadGateway → ServiceUnavailable, and the last handler has no successor |
| Handlers.HandlerChain.Process | WebBrowserProxy/src/main/java/org/example/webbrowser/HTTPHandlerChain.java:36-41 | the result and the new response are `Classify` of the old one; the links are untouched, so the same chain classifies every later response alike |
| Request.ExtractDomain | WebBrowserProxy/src/main/java/org/example/webbrowser/HTTPRequest.java:141-155 | the domain never contains '.'; an unparsable URL yields "default" |
| Request.WwwSharesCacheDir | WebBrowserProxy/src/main/java/org/example/webbrowser/HTTPRequest.java:144-151 | a host with and without one leading "www." gets the same cache directory |
| Request.UnderscoreHostsCollide | WebBrowserProxy/src/main/java/org/example/webbrowser/HTTPRequest.java:146-150 | "a_b.com" and "a.b.com" share the cache directory "./browser_cache/a_b_com" |
| Request.FoldHeadersSpec | WebBrowserProxy/src/main/java/org/example/webbrowser/HTTPRequest.java:102-108 | a header is present exactly when some field carries its key (null keys dropped), with the ", "-joined values of the last such field |
| Request.LinesRoundTrip | WebBrowserProxy/src/main/java/org/example/webbrowser/HTTPRequest.java:120-126 | the body built by the read loop, cut at its line breaks, gives back the lines read followed by an empty tail |
| Request.SimpleFailureIs500 | WebBrowserProxy/src/main/java/org/example/webbrowser/HTTPRequest.java:129-132 | every failed exchange ends with status 500 and a body starting with "Error: "; headers already read stay |
| Request.SimpleSuccessKeepsLines | WebBrowserProxy/src/main/java/org/example/webbrowser/HTTPRequest.java:98-126 | an exchange whose body was read keeps the server's status, and each line read is recoverable from the body |
| Request.ArchiveHeaders | WebBrowserProxy/src/main/java/org/example/webbrowser/HTTPRequest.java:62-68 | the archived answer has exactly the five headers, with Content-Type text/html, X-Fetcher WebPageFetcher, X-Cache-Dir and X-Index-Path as given |
| Request.HTTPRequest.constructor | WebBrowserProxy/src/main/java/org/example/webbrowser/HTTPRequest.java:17-20 | the request holds the given URL and method |
| Request.HTTPRequest.SetUrl | WebBrowserProxy/src/main/java/org/example/webbrowser/HTTPRequest.java:26-28 | only the URL changes |
| Request.HTTPRequest.SetMethod | WebBrowserProxy/src/main/java/org/example/webbrowser/HTTPRequest.java:34-36 | only the method changes |
| Request.HTTPRequest.SendRequest | WebBrowserProxy/src/main/java/org/example/webbrowser/HTTPRequest.java:43-82 | the cache directory is "./browser_cache/" plus the domain, and only that directory changes. On a cache hit or a successful archive the answer is 200 with the archive headers and the saved `index.html`. When archiving fails the answer is the plain exchange's |
| Request.HTTPRequest.ArchiveInto | WebBrowserProxy/src/main/java/org/example/webbrowser/HTTPRequest.java:48-53 | the fetcher archives into the directory: a cache hit keeps its files; otherwise the directory holds what `Archive` leaves, and the index path is the directory's `index.html` exactly when archiving succeeded |
| Request.HTTPRequest.ArchivedAnswer | WebBrowserProxy/src/main/java/org/example/webbrowser/HTTPRequest.java:56-68 | the answer is status 200, the archive headers and the saved document |
| Request.HTTPRequest.SendSimpleRequest | WebBrowserProxy/src/main/java/org/example/webbrowser/HTTPRequest.java:87-136 | the header and line loops build exactly `SimpleResponse(reply)` |
| Fetcher.OriginOf | WebBrowserProxy/src/main/java/org/example/webbrowser/WebPageFetcher.java:20-33 | the base URL is kept; an unparsable URL gives protocol "https" and an empty host |
| Fetcher.Connect | WebBrowserProxy/src/main/java/org/example/webbrowser/WebPageFetcher.java:268-271 | a URL that `new URL` rejects fails like a fetch; one with protocol http or https opens an HTTP connection; any other protocol throws the ClassCastException |
| Fetcher.ResolveUrl | WebBrowserProxy/src/main/java/org/example/webbrowser/WebPageFetcher.java:310-334 | the reference is trimmed first. An http(s) reference comes back as it is, and a "//" one gets the page's protocol and ":" in front. Any other reference gets the URI `java.net.URI` resolves it to, or is kept as it is when the base throws URISyntaxException. It is rejected exactly when `URI.resolve` throws IllegalArgumentException |
| Fetcher.ResolvePrefixesIgnoreBase | WebBrowserProxy/src/main/java/org/example/webbrowser/WebPageFetcher.java:316-323 | absolute and "//" references resolve without consulting the base or the library; "//x" becomes protocol + ":" + "//x" |
| Fetcher.Sanitize | WebBrowserProxy/src/main/java/org/example/webbrowser/WebPageFetcher.java:363 | the result has the same length and only `[A-Za-z0-9._-]`; safe characters are kept |
| Fetcher.SanitizeSafe | WebBrowserProxy/src/main/java/org/example/webbrowser/WebPageFetcher.java:363 | sanitising a name that is already safe changes nothing |
| Fetcher.GuessExtension | WebBrowserProxy/src/main/java/org/example/webbrowser/WebPageFetcher.java:351-359 | the extension is one of .css .js .png .jpg .gif .svg .woff2 .woff .bin |
| Fetcher.HashName | WebBrowserProxy/src/main/java/org/example/webbrowser/WebPageFetcher.java:348 | "resource_" and `Math.abs(url.hashCode())` is a safe name of 10 to 20 characters |
| Fetcher.SynthesisedName | WebBrowserProxy/src/main/java/org/example/webbrowser/WebPageFetcher.java:347-360 | a synthesised name is safe, has a dot and is at most 26 characters |
| Fetcher.FallbackName | WebBrowserProxy/src/main/java/org/example/webbrowser/WebPageFetcher.java:379-381 | the name used when the derivation throws is safe, has a dot and is at most 24 characters |
| Fetcher.CapLength | WebBrowserProxy/src/main/java/org/example/webbrowser/WebPageFetcher.java:366-375 | a name of at most 200 characters is kept; a capped name is safe, non-empty, has a dot and is at most 200 characters |
| Fetcher.FilenameFromUrl | WebBrowserProxy/src/main/java/org/example/webbrowser/WebPageFetcher.java:336-382 | every file name is non-empty, at most 200 characters, uses only `[A-Za-z0-9._-]` and contains a dot |
| Fetcher.LastSegmentOfPath | WebBrowserProxy/src/main/java/org/example/webbrowser/WebPageFetcher.java:339-344 | without '?' or '#', the last segment is the text after the last '/' |
| Fetcher.PlainNameKept | WebBrowserProxy/src/main/java/org/example/webbrowser/WebPageFetcher.java:339-377 | a last segment that is already a safe, short name with a dot is the file name |
| Fetcher.DotlessSegmentSynthesised | WebBrowserProxy/src/main/java/org/example/webbrowser/WebPageFetcher.java:347-360 | a dot-less last segment gets the synthesised `resource_<hash>` name |
| Fetcher.QueryOnlyHasNoSegment | WebBrowserProxy/src/main/java/org/example/webbrowser/WebPageFetcher.java:339-344 | splitting "?" leaves no last segment |
| Fetcher.HashNameOfQuery | WebBrowserProxy/src/main/java/org/example/webbrowser/WebPageFetcher.java:348 | the hash name of "?" is "resource_63" |
| Fetcher.NoSegmentFallsBack | WebBrowserProxy/src/main/java/org/example/webbrowser/WebPageFetcher.java:379-381 | without a last segment the name is the hash name followed by ".bin" |
| Fetcher.QueryOnlyFallsBack | WebBrowserProxy/src/main/java/org/example/webbrowser/WebPageFetcher.java:339-381 | the URL "?" is named "resource_63.bin" |
| Fetcher.Bump | WebBrowserProxy/src/main/java/org/example/webbrowser/WebPageFetcher.java:204-206 | a retry keeps a dot and makes the name strictly longer |
| Fetcher.BumpBeforeExtension | WebBrowserProxy/src/main/java/org/example/webbrowser/WebPageFetcher.java:204-206 | "_<counter>" goes right before the extension after the last dot |
| Fetcher.FreeName | WebBrowserProxy/src/main/java/org/example/webbrowser/WebPageFetcher.java:202-209 | the collision loop ends, on a name with a dot that `Files.exists` does not report: not among the existing files, and neither "." nor "..", the folder's own entries |
| Fetcher.CollisionSuffixesAccumulate | WebBrowserProxy/src/main/java/org/example/webbrowser/WebPageFetcher.java:202-209 | with style.css and style_1.css taken, the loop settles on style_1_2.css |
| Fetcher.DotEntryRenamed | WebBrowserProxy/src/main/java/org/example/webbrowser/WebPageFetcher.java:194-209 | a resource named "." is saved as "_1.", since the folder's own "." entry exists |
| Fetcher.ParentEntryRenamed | WebBrowserProxy/src/main/java/org/example/webbrowser/WebPageFetcher.java:194-209 | a resource named ".." is saved as "._1.", since the parent entry ".." exists |
| Fetcher.AddBaseTagUnchanged | WebBrowserProxy/src/main/java/org/example/webbrowser/WebPageFetcher.java:114-124 | the page is left alone exactly when it contains "<base" or has no `<head…>` tag |
| Fetcher.AddBaseTagAfterFirstHead | WebBrowserProxy/src/main/java/org/example/webbrowser/WebPageFetcher.java:121-122 | a changed page is the original with "\n" and the base tag inserted right after the leftmost `<head…>` tag |
| Fetcher.MarkedPageKept | WebBrowserProxy/src/main/java/org/example/webbrowser/WebPageFetcher.java:116-118 | a page containing "<base" is returned unchanged |
| Fetcher.AddBaseTagIdempotent | WebBrowserProxy/src/main/java/org/example/webbrowser/WebPageFetcher.java:114-124 | adding the base tag twice is adding it once |
| Fetcher.DownloadKeepsInv | WebBrowserProxy/src/main/java/org/example/webbrowser/WebPageFetcher.java:190-218 | a download of a new URL saves exactly when the URL opens an HTTP connection and is served, under a file name not yet on disk. It throws ClassCastException exactly when the connection is not HTTP. Every outcome keeps the archiver invariant; a failure records at most the request, and no request when no HTTP connection opened |
| Fetcher.RewriteKeepsInv | WebBrowserProxy/src/main/java/org/example/webbrowser/WebPageFetcher.java:134-177 | one rewritten match keeps the invariant and forgets nothing recorded |
| Fetcher.PassKeepsInv | WebBrowserProxy/src/main/java/org/example/webbrowser/WebPageFetcher.java:127-186 | a whole pass keeps the invariant and forgets nothing recorded |
| Fetcher.RunPassesKeepsInv | WebBrowserProxy/src/main/java/org/example/webbrowser/WebPageFetcher.java:64-94 | the sequence of passes keeps the invariant and forgets nothing recorded |
| Fetcher.ArchiveKeepsInv | WebBrowserProxy/src/main/java/org/example/webbrowser/WebPageFetcher.java:38-109 | archiving keeps the invariant; a successful archive leaves `index.html` holding the saved page, so the next call is a cache hit |
| Fetcher.SkippedMatchUntouched | WebBrowserProxy/src/main/java/org/example/webbrowser/WebPageFetcher.java:138-144 | a data:, blob:, file://, "#" or blank reference keeps its match byte-identical and changes no state |
| Fetcher.PassOverSkippedIsIdentity | WebBrowserProxy/src/main/java/org/example/webbrowser/WebPageFetcher.java:134-185 | for a scan that loses no text, a pass over a document whose references are all skipped returns that document unchanged and requests nothing |
| Fetcher.SkippedPassesKeepPage | WebBrowserProxy/src/main/java/org/example/webbrowser/WebPageFetcher.java:64-94 | for a scan that loses no text, passes that find only skipped references hand the document on unchanged |
| Fetcher.PageWithoutResourcesSaved | WebBrowserProxy/src/main/java/org/example/webbrowser/WebPageFetcher.java:50-100 | for a scan that loses no text, a served page with no reference to download is saved as fetched, with only the base tag added, and only the page is requested |
| Fetcher.DownloadedUrlReused | WebBrowserProxy/src/main/java/org/example/webbrowser/WebPageFetcher.java:151-160 | a reference, relative or not, whose resolved URL was already downloaded is not fetched again. Its match points to the path recorded for the resolved URL, whatever folder the pass uses |
| Fetcher.RecordedUrlReused | WebBrowserProxy/src/main/java/org/example/webbrowser/WebPageFetcher.java:151-156 | a reference whose resolved URL is downloaded and has a recorded path is rewritten to that path with no state change |
| Fetcher.FailedDownloadKeepsMatch | WebBrowserProxy/src/main/java/org/example/webbrowser/WebPageFetcher.java:174-177 | an HTTP download that fails leaves the match as it was and records nothing but the request |
| Fetcher.MalformedDownloadKeepsMatch | WebBrowserProxy/src/main/java/org/example/webbrowser/WebPageFetcher.java:163-177 | a resolved URL that `new URL` rejects keeps its match and makes no request |
| Fetcher.NonHttpReferenceAborts | WebBrowserProxy/src/main/java/org/example/webbrowser/WebPageFetcher.java:163-177 | a resolved URL of a protocol other than HTTP, such as ftp: or file:/, aborts the rewrite with ClassCastException in the state it started from |
| Fetcher.NonHttpReferenceAbortsPass | WebBrowserProxy/src/main/java/org/example/webbrowser/WebPageFetcher.java:134-178 | such a reference ends the whole pass in the state reached before it, whatever follows it in the document |
| Fetcher.NewUrlDownloaded | WebBrowserProxy/src/main/java/org/example/webbrowser/WebPageFetcher.java:163-170 | a new URL that opens an HTTP connection and is served is requested once and saved under a fresh name in the pass's folder. It is recorded in both maps and its match is rewritten |
| Fetcher.SameReferenceFetchedOnce | WebBrowserProxy/src/main/java/org/example/webbrowser/WebPageFetcher.java:148-170 | three matches of one new reference that resolves to a served HTTP URL cause one request and three identical rewrites |
| Fetcher.PassAbortSticks | WebBrowserProxy/src/main/java/org/example/webbrowser/WebPageFetcher.java:134-148 | once a reference cannot be resolved, the whole pass ends in the state reached so far |
| Fetcher.WebPageFetcher.constructor | WebBrowserProxy/src/main/java/org/example/webbrowser/WebPageFetcher.java:20-33 | protocol and host come from the URL ("https" and "" when it does not parse), nothing is recorded yet and the invariant holds |
| Fetcher.WebPageFetcher.PickFreeName | WebBrowserProxy/src/main/java/org/example/webbrowser/WebPageFetcher.java:202-209 | the loop returns the name `FreeName` settles on |
| Fetcher.WebPageFetcher.DownloadResource | WebBrowserProxy/src/main/java/org/example/webbrowser/WebPageFetcher.java:190-218 | the outcome is a saved path, an IOException or the ClassCastException, and it and the new state are those of `Download` |
| Fetcher.WebPageFetcher.GetLocalPathForUrl | WebBrowserProxy/src/main/java/org/example/webbrowser/WebPageFetcher.java:220-222 | the path recorded for the URL, if any; the folder plays no part |
| Fetcher.WebPageFetcher.RewriteReference | WebBrowserProxy/src/main/java/org/example/webbrowser/WebPageFetcher.java:135-177 | the replacement text and the new state are those of `Rewrite`. It reports the exception that ends the pass exactly when `Rewrite` aborts: an unresolvable reference, or a connection that is not HTTP |
| Fetcher.WebPageFetcher.DownloadAndReplaceResources | WebBrowserProxy/src/main/java/org/example/webbrowser/WebPageFetcher.java:127-186 | the rewritten document and the new state are those of `Pass`. On an abort they are its exception and the state in which it aborted |
| Fetcher.WebPageFetcher.FetchAndSave | WebBrowserProxy/src/main/java/org/example/webbrowser/WebPageFetcher.java:38-109 | a cache hit returns the index path with no request and no write. Otherwise the state and the outcome are those of `Archive`: connect, fetch, the seven passes in order, the base tag and the save. Any exception ends it, including a page or resource URL whose connection is not HTTP |
| Page.ExtractFileNameSpec | WebBrowserProxy/src/main/java/org/example/webbrowser/WebPage.java:94-97 | the name has no '/'. It is a suffix of the path, the whole path when the path has no '/', and otherwise preceded by a '/' |
| Page.ExtractFileNameAfterSlash | WebBrowserProxy/src/main/java/org/example/webbrowser/WebPage.java:94-97 | whatever precedes the last '/' does not affect the name |
| Page.EntriesSpec | WebBrowserProxy/src/main/java/org/example/webbrowser/WebPage.java:51-73 | every entry's path ends with the suffix and comes from the document; every value with the suffix is recorded, named by its last segment |
| Page.EntriesAppend | WebBrowserProxy/src/main/java/org/example/webbrowser/WebPage.java:51-76 | the entries of consecutive scans are the entries of each scan, in order |
| Page.EveryImageRecorded | WebBrowserProxy/src/main/java/org/example/webbrowser/WebPage.java:67-73 | every img src is recorded, in document order |
| Page.QueriedStylesheetDropped | WebBrowserProxy/src/main/java/org/example/webbrowser/WebPage.java:51-57 | a stylesheet reference with a query string is not recorded |
| Page.WebPage.constructor | WebBrowserProxy/src/main/java/org/example/webbrowser/WebPage.java:15-20 | a new page has all four lists empty and no raw HTML |
| Page.WebPage.SetRawHTML | WebBrowserProxy/src/main/java/org/example/webbrowser/WebPage.java:38-40 | only the raw HTML changes |
| Page.WebPage.ParseHTML | WebBrowserProxy/src/main/java/org/example/webbrowser/WebPage.java:46-77 | a missing or empty document changes no list. Otherwise the stylesheet, script and image entries are appended, then exactly one `index.html` entry; the lists are never cleared |
| Server.ServeSpec | WebBrowserProxy/src/main/java/org/example/webbrowser/WebServer.java:45-85 | the answer is 200 exactly when a registered name occurs in the URL and a page exists. It then serves the first page's HTML in order, with Content-Type and Server headers; otherwise it is the canonical 404 page marked by NotFoundHandler |
| Server.ServeMonotone | WebBrowserProxy/src/main/java/org/example/webbrowser/WebServer.java:53-58 | registering another name never withdraws a page already served |
| Server.WebServer.constructor | WebBrowserProxy/src/main/java/org/example/webbrowser/WebServer.java:14-18 | the server has the host and no resources or pages |
| Server.WebServer.SetHost | WebBrowserProxy/src/main/java/org/example/webbrowser/WebServer.java:24-26 | only the host changes |
| Server.WebServer.AddResource | WebBrowserProxy/src/main/java/org/example/webbrowser/WebServer.java:32-34 | the name is appended and earlier entries are kept |
| Server.WebServer.AddPage | WebBrowserProxy/src/main/java/org/example/webbrowser/WebServer.java:40-42 | the page is appended and earlier entries are kept |
| Server.WebServer.ProcessRequest | WebBrowserProxy/src/main/java/org/example/webbrowser/WebServer.java:45-85 | the search loop and the page assembly give `Serve` of the server's state, which is only read |
| Images.CreatePlaceholder | WebBrowserProxy/src/main/java/org/example/webbrowser/ImageProxy.java:58-81 | the placeholder starts with "data:image/svg+xml;base64," followed by the encoded SVG |
| Images.ImageFile.constructor | WebBrowserProxy/src/main/java/org/example/webbrowser/ImageFile.java:14-19 | a new image has its name and path, empty content and is not loaded |
| Images.ImageFile.LoadImage | WebBrowserProxy/src/main/java/org/example/webbrowser/ImageFile.java:54-62 | a successful read stores the content and marks it loaded; a failed read clears `loaded` and keeps the content |
| Images.ImageProxy.constructor | WebBrowserProxy/src/main/java/org/example/webbrowser/ImageProxy.java:12-17 | a new proxy is not loaded, has no real image, and shows the placeholder |
| Images.ImageProxy.GetContent | WebBrowserProxy/src/main/java/org/example/webbrowser/ImageProxy.java:30-35 | before loading the placeholder, after loading the real image's content |
| Images.ImageProxy.LoadImage | WebBrowserProxy/src/main/java/org/example/webbrowser/ImageProxy.java:48-56 | the first call creates and loads the real image once and marks the proxy loaded even when the read failed; later calls change nothing |
| Images.ImageProxy.Display | WebBrowserProxy/src/main/java/org/example/webbrowser/ImageProxy.java:43-45 | exactly the effect of `loadImage` |
| Address.ValidateUrlIsPattern | WebBrowserProxy/src/main/java/org/example/webbrowser/AddressBar.java:26-35 | the recogniser accepts exactly the full matches of `^(https?://)?(www\.)?[a-zA-Z0-9-]+(\.[a-zA-Z]{2,})+(/.*)?$` |
| Address.ValidateUrlSound | WebBrowserProxy/src/main/java/org/example/webbrowser/AddressBar.java:31-34 | every accepted address has a reading as the pattern's five groups |
| Address.ValidateUrlComplete | WebBrowserProxy/src/main/java/org/example/webbrowser/AddressBar.java:27-34 | every reading of the pattern is accepted, and is not blank |
| Address.MatchHasDot | WebBrowserProxy/src/main/java/org/example/webbrowser/AddressBar.java:31 | every match contains a '.' |
| Address.LocalhostRejected | WebBrowserProxy/src/main/java/org/example/webbrowser/AddressBar.java:31 | "localhost" is rejected |
| Address.SlashlessMatchEndsInLetter | WebBrowserProxy/src/main/java/org/example/webbrowser/AddressBar.java:31 | a match without '/' ends with a letter |
| Address.IpAddressRejected | WebBrowserProxy/src/main/java/org/example/webbrowser/AddressBar.java:31 | "192.168.0.1" is rejected |
| Address.SchemelessColonInPath | WebBrowserProxy/src/main/java/org/example/webbrowser/AddressBar.java:31 | without an http(s) scheme every ':' of a match comes after a '/' |
| Address.FtpRejected | WebBrowserProxy/src/main/java/org/example/webbrowser/AddressBar.java:31 | "ftp://a.com" is rejected |
| Address.TypicalAddressAccepted | WebBrowserProxy/src/main/java/org/example/webbrowser/AddressBar.java:31 | "https://www.example.co.uk/a b" is accepted |
| Address.AddressBar.constructor | WebBrowserProxy/src/main/java/org/example/webbrowser/AddressBar.java:9-12 | a new bar has url "" and protocol "https" |
| Address.AddressBar.SetUrl | WebBrowserProxy/src/main/java/org/example/webbrowser/AddressBar.java:18-20 | the argument is stored verbatim and the protocol kept |
| Controller.ExtractOriginalUrl | WebBrowserProxy/src/main/java/org/example/webbrowser/WebBrowserController.java:208-232 | a non-file URL, or one without "browser_cache", comes back unchanged; any other result is "https://" and a name with no '_' and no '/' |
| Controller.CachedPageSite | WebBrowserProxy/src/main/java/org/example/webbrowser/WebBrowserController.java:216-225 | for ".../browser_cache/<seg>/..." the result is "https://" and seg with every '_' read as '.' |
| Controller.UnderscoresReadBack | WebBrowserProxy/src/main/java/org/example/webbrowser/WebBrowserController.java:223 | reading '_' as '.' undoes the cache naming of a host without '_' |
| Controller.OriginalUrlOfCachedPage | WebBrowserProxy/src/main/java/org/example/webbrowser/WebBrowserController.java:208-232 | a page saved under the directory `extractDomain` chose maps back to "https://" and the host less one leading "www.", when the host has no '_' |
| Controller.ResolveUrl | WebBrowserProxy/src/main/java/org/example/webbrowser/WebBrowserController.java:170-202 | http(s) links come back unchanged; a "//" link takes the base's protocol. Any other link is the URL `new URL(base, link)` gives, or the link itself when that throws; for a cached page the base is the original site |
| Controller.LinkOnCachedPage | WebBrowserProxy/src/main/java/org/example/webbrowser/WebBrowserController.java:184-191 | a relative link on a cached page resolves as on the live "https://" site |
| Controller.LocalFullUrl | WebBrowserProxy/src/main/java/org/example/webbrowser/WebBrowserController.java:378-381 | a scheme-less address gets "http://" in front; an http(s) one is kept |
| Controller.NotFoundRoute | WebBrowserProxy/src/main/java/org/example/webbrowser/WebBrowserController.java:386-410 | an address containing "/404" ends as the canonical 404 page with exactly the three headers |
| Controller.BadGatewayRoute | WebBrowserProxy/src/main/java/org/example/webbrowser/WebBrowserController.java:392-410 | "/502" without "/404" ends as the canonical 502 page with exactly the four headers |
| Controller.UnavailableRoute | WebBrowserProxy/src/main/java/org/example/webbrowser/WebBrowserController.java:398-410 | "/503" alone ends as the 503 page announcing 30 seconds, and Retry-After "30" is kept |
| Controller.ServedRoute | WebBrowserProxy/src/main/java/org/example/webbrowser/WebBrowserController.java:405-410 | any other address gets the server's answer through the chain: 200 with the page exactly when registered and a page exists, else the 404 page; neither has Retry-After |
| Controller.LocalHomePage | WebBrowserProxy/src/main/java/org/example/webbrowser/WebBrowserController.java:252-295 | with the test server's set-up, an address naming "index.html" and no test path shows the home page unchanged |
| Controller.ProxyTagParts | WebBrowserProxy/src/main/java/org/example/webbrowser/WebBrowserController.java:461-464 | the proxy tag holds `data-original-src` with the source and `src` with the placeholder for the file name |
| Controller.KeepsOriginalSources | WebBrowserProxy/src/main/java/org/example/webbrowser/WebBrowserController.java:444-470 | every matched tag of the rewritten page keeps its source in `data-original-src` and shows its placeholder |
| Controller.NoImagesUnchanged | WebBrowserProxy/src/main/java/org/example/webbrowser/WebBrowserController.java:441-470 | for a scan that loses no text, a document in which the pattern matches no tag comes back exactly as it was |
| Controller.ShowPiece | WebBrowserProxy/src/main/java/org/example/webbrowser/WebBrowserController.java:444-466 | copied text stays, a matched tag becomes its proxy tag |
| Controller.ProxyReplacement | WebBrowserProxy/src/main/java/org/example/webbrowser/WebBrowserController.java:449-464 | a fresh proxy draws the placeholder for the source's file name; the replacement is the proxy tag |
| Controller.ReplaceImagesWithProxies | WebBrowserProxy/src/main/java/org/example/webbrowser/WebBrowserController.java:430-471 | an empty document is returned as it is; otherwise the loop builds the document with every matched tag replaced by its proxy tag |
| Controller.WithProtocolStaysValid | WebBrowserProxy/src/main/java/org/example/webbrowser/WebBrowserController.java:320-325 | a valid address handed on with the http(s) protocol names its scheme and is still valid |
| Controller.WebBrowserController.constructor | WebBrowserProxy/src/main/java/org/example/webbrowser/WebBrowserController.java:37-49 | a fresh address bar, a valid chain, the local test server, and no current page |
| Controller.WebBrowserController.InitializeLocalServer | WebBrowserProxy/src/main/java/org/example/webbrowser/WebBrowserController.java:252-304 | the server "test.com" answers for "index.html" with one page, whose HTML is the home page |
| Controller.WebBrowserController.RouteLocal | WebBrowserProxy/src/main/java/org/example/webbrowser/WebBrowserController.java:377-407 | the test paths, in order "/404", "/502", "/503", give an empty page of that status (Retry-After "30" for 503); otherwise the server answers the full address |
| Controller.WebBrowserController.AnswerLocal | WebBrowserProxy/src/main/java/org/example/webbrowser/WebBrowserController.java:377-410 | the routed answer after the chain is `LocalResponse` of the server's state |
| Controller.WebBrowserController.HandleLocalServerRequest | WebBrowserProxy/src/main/java/org/example/webbrowser/WebBrowserController.java:377-422 | the response is `LocalResponse`; the shown text is proxied exactly for a 200; the current page is a fresh page holding the body, with its stylesheet, script and image lists as found in it and the body as "index.html" (all four lists empty for an empty body) |
| Controller.WebBrowserController.ShowResponse | WebBrowserProxy/src/main/java/org/example/webbrowser/WebBrowserController.java:412-415 | a 200 body is shown with its images proxied, any other as it is |
| Controller.WebBrowserController.ParseCurrentPage | WebBrowserProxy/src/main/java/org/example/webbrowser/WebBrowserController.java:419-421 | the current page is a fresh page holding the body, with its stylesheet, script and image lists as found in it and the body as "index.html" (all four lists empty for an empty body) |
| Controller.WebBrowserController.LoadPage | WebBrowserProxy/src/main/java/org/example/webbrowser/WebBrowserController.java:306-335 | blank input is ignored; "test.com" goes to the local route, whose answer, shown text and freshly parsed current page are stated; a valid address is handed on with the bar's protocol and shown in the bar; anything else is rejected and the bar is unchanged; an ignored or rejected address leaves the current page as it was |
| Controller.WebBrowserController.LoadLocal | WebBrowserProxy/src/main/java/org/example/webbrowser/WebBrowserController.java:314-317 | the outcome holds the local route's answer and the text shown (proxied exactly for a 200), and the current page is a fresh page parsed from the answer |
| Controller.WebBrowserController.LoadRemote | WebBrowserProxy/src/main/java/org/example/webbrowser/WebBrowserController.java:319-334 | a valid address gets the protocol when scheme-less and is stored in the bar; an invalid one leaves the bar as it was |

## Left out

- The network.
  - `fetchResource` and `fetchBinaryResource` are not modelled: connections, timeouts, request headers and the read loops. A fetch is a lookup in a map from URL to content, and a URL missing from the map fails. This map stands for the non-200 error and any I/O error of an HTTP connection. Opening the connection is modelled: a URL that `new URL` rejects fails like a fetch, and one of a protocol other than http or https throws the uncaught ClassCastException of the `HttpURLConnection` cast.
  - Redirect following is left out: its recursion is unbounded.
  - The plain exchange of `sendSimpleRequest` is a given `Reply`.
- The file system. Directories, `Files.exists`, `write` and `readAllBytes` are maps from a path relative to the cache directory to the content. The one directory fact kept is that `Files.exists` reports a folder's "." and ".." entries, which the collision loop must rename around. `toAbsolutePath` is not modelled: the index path is the cache directory plus "/index.html".
- Regular expressions.
  - The patterns of `downloadAndReplaceResources`, `parseHTML` and `replaceImagesWithProxies` are replaced by scanner parameters. A scanner returns the text between matches and the matches with their groups. Whether a scanner agrees with the Java pattern is not checked. A scanner is not assumed to return the whole document. The lemmas about documents coming back unchanged take it as a hypothesis: `Fetcher.ScansWhole` and `Controller.ImgScansWhole` say the segments put back together are the document, as `appendReplacement` and `appendTail` guarantee.
  - The only regular expression written out is the address validator.
  - `replaceFirst`'s handling of `$` and `\` in the base tag is not modelled: the tag is inserted literally.
- `java.net.URL`/`URI` parsing, reference resolution (section 5.2 of RFC 2396) and `File.toURI` are oracle functions.
- The SVG template and Base64 encoding of `createPlaceholder` are one encoder parameter. Only the data-URI prefix is fixed.
- The JavaFX parts of `WebBrowserController` are not modelled:
  - `WebEngine` loading and the load listeners;
  - `injectLinkHandler` and the link-click handler;
  - `textField`;
  - `navigateToUrl` and `loadRealWebsite`.
- `Browser.handleError`, `WebPage.loadResources`, `HTMLFile.loadHTML`, and CSS and JS loading are not modelled. CSS and JS entries are (name, path) records.
- Console logging and the download counter are left out.
- Java `null` arguments are left out. The one exception is the values the core itself tests for `null` (raw HTML, a header lookup, a local path), which are `Option`s.
- Fetcher.ResolveUrl: a malformed relative reference makes `URI.resolve` throw IllegalArgumentException. `resolveUrl` does not catch it; it only catches URISyntaxException. The model follows the code:
  - the whole `fetchAndSave` aborts (`UnresolvableReference`);
  - `sendRequest` falls back to the plain exchange.
- Fetcher.ResolveUrl: the code's author evidently meant resolution to fail open and return the reference. The code does so only for URISyntaxException.
- Fetcher.WebPageFetcher.FetchAndSave: the seven calls of the source become a loop over the same seven passes, with the same folders and in the same order. The `StringBuffer` append loop is a loop over the scanned segments.
- Fetcher.FreeName: the retry counter is unbounded. A Java `int` overflow after 2^31 collisions is not modelled.
- Fetcher.HashName: `String.hashCode` is computed over UTF-16 code units with 32-bit wrap-around. `Math.abs` of the most negative `int` stays negative, as in Java.
- Request.HTTPRequest.SendRequest: the X-File-URL header is the `File.toURI` oracle applied to the relative index path. The read of the saved page is a lookup in the cache directory's files, so a read failure after a successful save is not modelled.
- Controller.WebBrowserController.LoadPage: a valid remote address is reported as `Remote(fullUrl)` and not loaded, because `loadRealWebsite` drives `WebEngine`. The `handleError(400)` of an invalid address is reported as `Rejected`.
- Controller.ExtractOriginalUrl: the caught exceptions become "return the input". This covers text after the mark that is too short and a directory part that splits into nothing. The result is always "https://" and never restores a "www." prefix, as in the source.
- Controller.WebBrowserController.HandleLocalServerRequest: the display through `webEngine.loadContent` is the returned `shown` text.
- Strings: Dafny characters are Unicode scalar values. `lastIndexOf`, `substring` and `length` count code points, not UTF-16 units. This matters only for text outside the Basic Multilingual Plane.
