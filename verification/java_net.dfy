/** The parts of `java.net` the browser relies on, kept abstract: the model
    never parses a URL itself, it asks these functions. */
module JavaNet {
  import opened Wrappers

  /** What `new URL(u)` reports about a URL that parses; `getProtocol` gives
      the protocol in lower case. */
  datatype UrlParts = UrlParts(protocol: string, host: string)

  /** `new URI(base).resolve(reference)`: the resolved URI's text, the
      URISyntaxException the base raises, or the IllegalArgumentException that
      `URI.resolve(String)` raises for a malformed reference. */
  datatype UriOutcome = Uri(text: string) | BadBase | BadReference

  datatype Library = Library(
    /** `new URL(u)`, None when it throws MalformedURLException. */
    parseUrl: string -> Option<UrlParts>,
    /** reference resolution as `java.net.URI` does it (RFC 2396, section 5.2) */
    resolveUri: (string, string) -> UriOutcome,
    /** `new URL(new URL(base), spec).toString()`, None when either throws */
    resolveUrl: (string, string) -> Option<string>,
    /** `new File(path).toURI().toString()` */
    fileUri: string -> string)
}
