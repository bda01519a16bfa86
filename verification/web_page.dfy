/** A parsed page: the HTML document and the stylesheets, scripts and images
    it references, collected into four lists. */
module Page {
  import opened Wrappers
  import opened Strings

  datatype HtmlFile = HtmlFile(fileName: string, filePath: string, content: string)

  /** A stylesheet, script or image entry: a name and the path it came from. */
  datatype ResourceFile = ResourceFile(fileName: string, filePath: string)

  /** The three tag patterns `parseHTML` searches for. */
  datatype TagKind = LinkTag | ScriptTag | ImgTag

  /** The regular-expression engine: for each tag of a kind, in document
      order, the quoted `href` (link) or `src` (script, img) value. */
  type TagScanner = (string, TagKind) -> seq<string>

  /** `extractFileName`: the text after the last '/', or the whole path. */
  function ExtractFileName(path: string): string {
    var i := LastIndexOfChar(path, '/');
    if i >= 0 then path[i + 1..] else path
  }

  /** The name is a '/'-free suffix of the path, preceded by a '/' unless it
      is the whole path. */
  lemma ExtractFileNameSpec(path: string)
    ensures '/' !in ExtractFileName(path)
    ensures EndsWith(path, ExtractFileName(path))
    ensures '/' !in path ==> ExtractFileName(path) == path
    ensures '/' in path ==> var name := ExtractFileName(path);
              |name| < |path| && path[|path| - |name| - 1] == '/'
  {
  }

  /** Whatever precedes the last '/' does not matter. */
  lemma ExtractFileNameAfterSlash(dir: string, name: string)
    requires '/' !in name
    ensures ExtractFileName(dir + "/" + name) == name
  {
    LastIndexOfCharAt(dir, '/', name);
  }

  /** The entries one pattern records: the captured values that end with
      `suffix`, in order, each named by its last path segment. */
  function Entries(values: seq<string>, suffix: string): seq<ResourceFile>
    decreases |values|
  {
    if |values| == 0 then []
    else
      var v := values[|values| - 1];
      Entries(values[..|values| - 1], suffix) +
        (if EndsWith(v, suffix) then [ResourceFile(ExtractFileName(v), v)] else [])
  }

  /** One more value read adds its entry, if it has the suffix. */
  lemma EntriesSnoc(values: seq<string>, suffix: string, i: int)
    requires 0 <= i < |values|
    ensures Entries(values[..i + 1], suffix) == Entries(values[..i], suffix) +
      (if EndsWith(values[i], suffix) then [ResourceFile(ExtractFileName(values[i]), values[i])] else [])
  {
    assert values[..i + 1][..i] == values[..i];
  }

  /** Entries of a concatenation are the entries of each part, in order. */
  lemma {:induction false} EntriesAppend(vs1: seq<string>, vs2: seq<string>, suffix: string)
    ensures Entries(vs1 + vs2, suffix) == Entries(vs1, suffix) + Entries(vs2, suffix)
    decreases |vs2|
  {
    if |vs2| > 0 {
      var init := vs2[..|vs2| - 1];
      var v := vs2[|vs2| - 1];
      var tail := if EndsWith(v, suffix) then [ResourceFile(ExtractFileName(v), v)] else [];
      assert (vs1 + vs2)[..|vs1 + vs2| - 1] == vs1 + init;
      assert (vs1 + vs2)[|vs1 + vs2| - 1] == v;
      calc {
        Entries(vs1 + vs2, suffix);
        Entries(vs1 + init, suffix) + tail;
        { EntriesAppend(vs1, init, suffix); }
        Entries(vs1, suffix) + Entries(init, suffix) + tail;
        Entries(vs1, suffix) + Entries(vs2, suffix);
      }
    } else {
      assert vs1 + vs2 == vs1;
    }
  }

  /** Every entry's path ends with the suffix and its name is the path's
      last segment; a value that ends with the suffix is always recorded, and
      one that does not never is. */
  lemma {:induction false} EntriesSpec(values: seq<string>, suffix: string)
    ensures forall e :: e in Entries(values, suffix) ==>
              EndsWith(e.filePath, suffix) && e.fileName == ExtractFileName(e.filePath) && e.filePath in values
    ensures forall v :: v in values && EndsWith(v, suffix) ==> ResourceFile(ExtractFileName(v), v) in Entries(values, suffix)
    ensures (forall v :: v in values ==> EndsWith(v, suffix)) ==> |Entries(values, suffix)| == |values|
    decreases |values|
  {
    if |values| > 0 {
      var init := values[..|values| - 1];
      EntriesSpec(init, suffix);
      assert values == init + [values[|values| - 1]];
    }
  }

  /** Image sources are all recorded: no source fails the empty suffix. */
  lemma EveryImageRecorded(values: seq<string>)
    ensures |Entries(values, "")| == |values|
    ensures forall i :: 0 <= i < |values| ==> Entries(values, "")[i].filePath == values[i]
  {
    EntriesAll(values);
  }

  lemma {:induction false} EntriesAll(values: seq<string>)
    ensures Entries(values, "") == seq(|values|, i requires 0 <= i < |values| => ResourceFile(ExtractFileName(values[i]), values[i]))
    decreases |values|
  {
    if |values| > 0 {
      EntriesAll(values[..|values| - 1]);
    }
  }

  /** A stylesheet reference carrying a query string is not recorded. */
  lemma QueriedStylesheetDropped(path: string, query: string)
    requires '.' !in query && |query| > 0
    ensures Entries([path + ".css?" + query], ".css") == []
  {
    var v := path + ".css?" + query;
    var k := |v| - 4;
    if |query| >= 4 {
      assert v[k] == query[|query| - 4];
    } else {
      assert v[k] == ".css?"[1 + |query|];
    }
    assert !EndsWith(v, ".css") by { assert v[k] != '.'; }
    var none: seq<string> := [];
    assert [v][..0] == none;
  }

  class WebPage {
    var htmlResources: seq<HtmlFile>
    var cssResources: seq<ResourceFile>
    var jsResources: seq<ResourceFile>
    var imageResources: seq<ResourceFile>
    /** None until `setRawHTML` is called (Java's null). */
    var rawHTML: Option<string>

    /** What a fresh page holds after `setRawHTML(raw)` and `parseHTML()`:
        the document, and all four lists as found in it (all empty for an
        empty document). */
    predicate ParsedFrom(raw: string, scan: TagScanner)
      reads this
    {
      && rawHTML == Some(raw)
      && cssResources == (if raw == "" then [] else Entries(scan(raw, LinkTag), ".css"))
      && jsResources == (if raw == "" then [] else Entries(scan(raw, ScriptTag), ".js"))
      && imageResources == (if raw == "" then [] else Entries(scan(raw, ImgTag), ""))
      && htmlResources == (if raw == "" then [] else [HtmlFile("index.html", "index.html", raw)])
    }

    constructor ()
      ensures htmlResources == [] && cssResources == [] && jsResources == [] && imageResources == []
      ensures rawHTML == None
    {
      htmlResources := [];
      cssResources := [];
      jsResources := [];
      imageResources := [];
      rawHTML := None;
    }

    method SetRawHTML(raw: string)
      modifies this
      ensures rawHTML == Some(raw)
      ensures htmlResources == old(htmlResources) && cssResources == old(cssResources)
      ensures jsResources == old(jsResources) && imageResources == old(imageResources)
    {
      rawHTML := Some(raw);
    }

    /** `parseHTML`: a missing or empty document changes nothing; otherwise
        the stylesheet, script and image entries found are appended (the
        lists are never cleared), followed by the document itself as
        "index.html". */
    method ParseHTML(scan: TagScanner)
      modifies this
      ensures rawHTML == old(rawHTML)
      ensures rawHTML.None? || rawHTML.value == "" ==>
        && htmlResources == old(htmlResources) && cssResources == old(cssResources)
        && jsResources == old(jsResources) && imageResources == old(imageResources)
      ensures rawHTML.Some? && rawHTML.value != "" ==>
        var raw := rawHTML.value;
        && cssResources == old(cssResources) + Entries(scan(raw, LinkTag), ".css")
        && jsResources == old(jsResources) + Entries(scan(raw, ScriptTag), ".js")
        && imageResources == old(imageResources) + Entries(scan(raw, ImgTag), "")
        && htmlResources == old(htmlResources) + [HtmlFile("index.html", "index.html", raw)]
    {
      if rawHTML.None? || rawHTML.value == "" {
        return;
      }
      var raw := rawHTML.value;

      var links := scan(raw, LinkTag);
      for i := 0 to |links|
        invariant cssResources == old(cssResources) + Entries(links[..i], ".css")
        invariant jsResources == old(jsResources) && imageResources == old(imageResources)
        invariant htmlResources == old(htmlResources) && rawHTML == old(rawHTML)
      {
        assert links[..i + 1][..i] == links[..i];
        EntriesSnoc(links, ".css", i);
        if EndsWith(links[i], ".css") {
          cssResources := cssResources + [ResourceFile(ExtractFileName(links[i]), links[i])];
        }
      }
      assert links[..|links|] == links;

      var scripts := scan(raw, ScriptTag);
      for i := 0 to |scripts|
        invariant jsResources == old(jsResources) + Entries(scripts[..i], ".js")
        invariant cssResources == old(cssResources) + Entries(links, ".css")
        invariant imageResources == old(imageResources)
        invariant htmlResources == old(htmlResources) && rawHTML == old(rawHTML)
      {
        assert scripts[..i + 1][..i] == scripts[..i];
        EntriesSnoc(scripts, ".js", i);
        if EndsWith(scripts[i], ".js") {
          jsResources := jsResources + [ResourceFile(ExtractFileName(scripts[i]), scripts[i])];
        }
      }
      assert scripts[..|scripts|] == scripts;

      var images := scan(raw, ImgTag);
      for i := 0 to |images|
        invariant imageResources == old(imageResources) + Entries(images[..i], "")
        invariant cssResources == old(cssResources) + Entries(links, ".css")
        invariant jsResources == old(jsResources) + Entries(scripts, ".js")
        invariant htmlResources == old(htmlResources) && rawHTML == old(rawHTML)
      {
        assert images[..i + 1][..i] == images[..i];
        EntriesSnoc(images, "", i);
        imageResources := imageResources + [ResourceFile(ExtractFileName(images[i]), images[i])];
      }
      assert images[..|images|] == images;

      htmlResources := htmlResources + [HtmlFile("index.html", "index.html", raw)];
    }
  }
}
