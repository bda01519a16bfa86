/** The local test server: a host name, the resource names it answers for,
    and the pages it serves. */
module Server {
  import opened Wrappers
  import opened Strings
  import opened Http
  import opened Handlers
  import opened Page
  import Request

  /** The body of a served page: its HTML files' contents, in order. */
  function Contents(files: seq<HtmlFile>): string
    decreases |files|
  {
    if |files| == 0 then "" else Contents(files[..|files| - 1]) + files[|files| - 1].content
  }

  /** Some registered resource name occurs in the requested URL. */
  predicate Registered(resources: seq<string>, url: string) {
    exists i :: 0 <= i < |resources| && Contains(url, resources[i])
  }

  /** `processRequest` on values: `firstPage` holds the HTML files of the
      first page added, if there is one. */
  function Serve(host: string, resources: seq<string>, firstPage: Option<seq<HtmlFile>>, url: string): Resp {
    if Registered(resources, url) && firstPage.Some? then
      Resp(200, map["Content-Type" := "text/html", "Server" := host], Contents(firstPage.value))
    else
      Classify(Resp(404, map["Content-Type" := "text/html"], "")).1
  }

  /** The answer is 200 exactly when a registered name occurs in the URL and
      a page exists; it then serves the first page's HTML under the server's
      host name.  Otherwise the chain turns the empty 404 into the canonical
      "Not Found" page. */
  lemma ServeSpec(host: string, resources: seq<string>, firstPage: Option<seq<HtmlFile>>, url: string)
    ensures var r := Serve(host, resources, firstPage, url);
      && (r.status == 200 <==> Registered(resources, url) && firstPage.Some?)
      && (r.status != 200 ==> r.status == 404)
      && (r.status == 200 ==>
            && r.body == Contents(firstPage.value)
            && r.headers == map["Content-Type" := "text/html", "Server" := host])
      && (r.status == 404 ==>
            && r.body == NOT_FOUND_PAGE
            && r.headers == map["Content-Type" := "text/html", "X-Handled-By" := "NotFoundHandler",
                                "X-Error-Type" := "Client Error"])
  {
    var empty := Resp(404, map["Content-Type" := "text/html"], "");
    ClassifyOutcome(empty);
    assert KindFor(404) == NotFound;
    assert !Contains("", "404");
  }

  /** A page served to a URL keeps being served when more names are
      registered. */
  lemma ServeMonotone(host: string, resources: seq<string>, more: string, firstPage: Option<seq<HtmlFile>>, url: string)
    requires Serve(host, resources, firstPage, url).status == 200
    ensures Serve(host, resources + [more], firstPage, url) == Serve(host, resources, firstPage, url)
  {
    ServeSpec(host, resources, firstPage, url);
    var i :| 0 <= i < |resources| && Contains(url, resources[i]);
    assert (resources + [more])[i] == resources[i];
  }

  class WebServer {
    var host: string
    var resources: seq<string>
    var pages: seq<WebPage>

    constructor (host: string)
      ensures this.host == host && resources == [] && pages == []
    {
      this.host := host;
      resources := [];
      pages := [];
    }

    method SetHost(host: string)
      modifies this
      ensures this.host == host && resources == old(resources) && pages == old(pages)
    {
      this.host := host;
    }

    method AddResource(resource: string)
      modifies this
      ensures resources == old(resources) + [resource]
      ensures host == old(host) && pages == old(pages)
    {
      resources := resources + [resource];
    }

    method AddPage(page: WebPage)
      modifies this
      ensures pages == old(pages) + [page]
      ensures host == old(host) && resources == old(resources)
    {
      pages := pages + [page];
    }

    function FirstPage(): Option<seq<HtmlFile>>
      reads this, if |pages| > 0 then {pages[0]} else {}
    {
      if |pages| > 0 then Some(pages[0].htmlResources) else None
    }

    /** `processRequest`: the server's state is only read. */
    method ProcessRequest(request: Request.HTTPRequest) returns (response: HttpResponse)
      ensures fresh(response)
      ensures response.Value() == Serve(host, resources, FirstPage(), request.url)
    {
      response := new HttpResponse();
      var requestedUrl := request.url;

      var resourceFound := false;
      for i := 0 to |resources|
        invariant !resourceFound
        invariant forall j :: 0 <= j < i ==> !Contains(requestedUrl, resources[j])
      {
        if Contains(requestedUrl, resources[i]) {
          resourceFound := true;
          break;
        }
      }
      assert resourceFound <==> Registered(resources, requestedUrl);

      var foundPage: WebPage? := null;
      if resourceFound && |pages| > 0 {
        foundPage := pages[0];
      }

      if foundPage != null {
        response.SetStatusCode(200);
        response.PutHeader("Content-Type", "text/html");
        response.PutHeader("Server", host);
        var files := foundPage.htmlResources;
        var htmlContent := "";
        for k := 0 to |files|
          invariant htmlContent == Contents(files[..k])
        {
          assert files[..k + 1][..k] == files[..k];
          htmlContent := htmlContent + files[k].content;
        }
        assert files[..|files|] == files;
        response.SetBody(htmlContent);
      } else {
        response.SetStatusCode(404);
        response.PutHeader("Content-Type", "text/html");
        var chain := new HandlerChain();
        var _ := chain.Process(response);
      }
    }
  }
}
