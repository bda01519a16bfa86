/** The address bar: the typed URL, the default protocol, and the validator
    for `^(https?://)?(www\.)?[a-zA-Z0-9-]+(\.[a-zA-Z]{2,})+(/.*)?$`, written
    as a hand-coded recogniser and proved to accept exactly the pattern's
    language. */
module Address {
  import opened Strings

  predicate IsLetter(c: char) {
    'a' <= c <= 'z' || 'A' <= c <= 'Z'
  }

  predicate IsLabelChar(c: char) {
    IsLetter(c) || '0' <= c <= '9' || c == '-'
  }

  /** The characters Java's `.` does not match without DOTALL. */
  predicate IsLineTerminator(c: char) {
    c == '\n' || c == '\r' || c == '\U{0085}' || c == '\U{2028}' || c == '\U{2029}'
  }

  predicate AllLetters(s: string) {
    forall i :: 0 <= i < |s| ==> IsLetter(s[i])
  }

  // ------------------------------------------------- the pattern's language

  /** `(https?://)?` */
  predicate IsScheme(x: string) {
    x == "" || x == "http://" || x == "https://"
  }

  /** `(www\.)?` */
  predicate IsWww(w: string) {
    w == "" || w == "www."
  }

  /** `[a-zA-Z0-9-]+` */
  predicate IsLabel(l: string) {
    |l| > 0 && forall i :: 0 <= i < |l| ==> IsLabelChar(l[i])
  }

  /** `\.[a-zA-Z]{2,}` */
  predicate IsTld(t: string) {
    |t| >= 3 && t[0] == '.' && AllLetters(t[1..])
  }

  /** `(/.*)?` */
  predicate IsPath(p: string) {
    p == "" || (p[0] == '/' && forall i :: 0 <= i < |p| ==> !IsLineTerminator(p[i]))
  }

  function Concat(ts: seq<string>): string
    decreases |ts|
  {
    if |ts| == 0 then "" else ts[0] + Concat(ts[1..])
  }

  /** `(\.[a-zA-Z]{2,})+`, one string per repetition. */
  predicate AllTlds(ts: seq<string>) {
    |ts| > 0 && forall i :: 0 <= i < |ts| ==> IsTld(ts[i])
  }

  /** The pattern's five parts, one string per group (the repeated group
      as one string per repetition). */
  datatype Reading = Reading(scheme: string, www: string, name: string, tlds: seq<string>, path: string)

  /** `r` is a way of reading the whole of `s` as the pattern. */
  ghost predicate ReadsAs(s: string, r: Reading) {
    && IsScheme(r.scheme) && IsWww(r.www) && IsLabel(r.name) && AllTlds(r.tlds) && IsPath(r.path)
    && s == r.scheme + r.www + r.name + Concat(r.tlds) + r.path
  }

  /** `Pattern.matcher(s).matches()`: some reading of the whole of `s` exists. */
  ghost predicate MatchesPattern(s: string) {
    exists r :: ReadsAs(s, r)
  }

  // ------------------------------------------------------------ recogniser

  /** One or more ".xx…" labels, each cut at the next '.'. */
  predicate TldRun(t: string)
    decreases |t|
  {
    |t| >= 1 && t[0] == '.' &&
    var j := IndexOfChar(t[1..], '.');
    if j < 0 then |t| >= 3 && AllLetters(t[1..])
    else j >= 2 && AllLetters(t[1..j + 1]) && TldRun(t[j + 1..])
  }

  /** A name up to the first '.', then a run of top-level labels. */
  predicate HostCore(h: string) {
    var i := IndexOfChar(h, '.');
    i > 0 && IsLabel(h[..i]) && TldRun(h[i..])
  }

  /** The optional "www." is tried both ways, as the regex backtracks. */
  predicate HostOk(h: string) {
    HostCore(h) || (StartsWith(h, "www.") && HostCore(h[4..]))
  }

  function AfterScheme(s: string): string {
    if StartsWith(s, "https://") then s[8..]
    else if StartsWith(s, "http://") then s[7..]
    else s
  }

  /** The text before the first '/' (all of it when there is none). */
  function HostOf(rest: string): string {
    var i := IndexOfChar(rest, '/');
    if i < 0 then rest else rest[..i]
  }

  /** The text from the first '/' on ("" when there is none). */
  function PathOf(rest: string): string {
    var i := IndexOfChar(rest, '/');
    if i < 0 then "" else rest[i..]
  }

  /** `validateURL`: not blank, and the host (up to the first '/' after the
      scheme) and the path fit the pattern. */
  predicate ValidateUrl(url: string) {
    && !IsBlank(url)
    && HostOk(HostOf(AfterScheme(url)))
    && IsPath(PathOf(AfterScheme(url)))
  }

  // ------------------------------------------------- recogniser == pattern

  /** The top-level labels a run is made of. */
  function TldsOf(t: string): (ts: seq<string>)
    requires TldRun(t)
    ensures AllTlds(ts) && Concat(ts) == t
    decreases |t|
  {
    var j := IndexOfChar(t[1..], '.');
    if j < 0 then
      assert Concat([t]) == t + Concat([]);
      [t]
    else
      var head, rest := t[..j + 1], TldsOf(t[j + 1..]);
      assert head[1..] == t[1..j + 1];
      assert ([head] + rest)[1..] == rest;
      assert head + Concat(rest) == t;
      [head] + rest
  }

  lemma {:induction false} ConcatTldChars(ts: seq<string>)
    requires forall i :: 0 <= i < |ts| ==> IsTld(ts[i])
    ensures forall k :: 0 <= k < |Concat(ts)| ==> Concat(ts)[k] == '.' || IsLetter(Concat(ts)[k])
    decreases |ts|
  {
    if |ts| > 0 {
      ConcatTldChars(ts[1..]);
      var c := Concat(ts);
      assert c == ts[0] + Concat(ts[1..]);
      forall k | 0 <= k < |c| ensures c[k] == '.' || IsLetter(c[k]) {
        if k >= |ts[0]| {
          assert c[k] == Concat(ts[1..])[k - |ts[0]|];
        } else if k > 0 {
          assert c[k] == ts[0][1..][k - 1];
        }
      }
    }
  }

  /** Every reading of a run of top-level labels is accepted by `TldRun`. */
  lemma {:induction false} TldRunComplete(ts: seq<string>)
    requires AllTlds(ts)
    ensures TldRun(Concat(ts))
    decreases |ts|
  {
    var t := Concat(ts);
    var first := ts[0];
    assert t == first + Concat(ts[1..]);
    assert '.' !in first[1..] by {
      forall k | 0 <= k < |first[1..]| ensures first[1..][k] != '.' {
        assert IsLetter(first[1..][k]);
      }
    }
    if |ts| == 1 {
      assert t == first;
    } else {
      var rest := ts[1..];
      assert AllTlds(rest) by {
        forall i | 0 <= i < |rest| ensures IsTld(rest[i]) {
          assert rest[i] == ts[i + 1];
        }
      }
      TldRunComplete(rest);
      var r := Concat(rest);
      assert r == rest[0] + Concat(rest[1..]);
      assert r[0] == '.';
      assert t[1..] == first[1..] + ['.'] + r[1..];
      IndexOfCharAt(first[1..], '.', r[1..]);
      assert t[1..][..|first| - 1] == first[1..];
      assert t[|first|..] == r;
    }
  }

  lemma HostCoreSound(h: string) returns (name: string, tlds: seq<string>)
    requires HostCore(h)
    ensures IsLabel(name) && AllTlds(tlds) && h == name + Concat(tlds)
  {
    var i := IndexOfChar(h, '.');
    name, tlds := h[..i], TldsOf(h[i..]);
  }

  lemma HostCoreComplete(name: string, tlds: seq<string>)
    requires IsLabel(name) && AllTlds(tlds)
    ensures HostCore(name + Concat(tlds))
  {
    var c := Concat(tlds);
    assert c == tlds[0] + Concat(tlds[1..]);
    assert c[0] == '.';
    assert '.' !in name by {
      forall k | 0 <= k < |name| ensures name[k] != '.' {
        assert IsLabelChar(name[k]);
      }
    }
    var h := name + c;
    assert h == name + ['.'] + c[1..];
    IndexOfCharAt(name, '.', c[1..]);
    assert h[..|name|] == name;
    assert h[|name|..] == c;
    TldRunComplete(tlds);
  }

  /** The host part of a reading: no '/' or ':' and at least four characters. */
  lemma HostChars(www: string, name: string, tlds: seq<string>)
    requires IsWww(www) && IsLabel(name) && AllTlds(tlds)
    ensures var host := www + name + Concat(tlds);
      && |host| >= 4
      && forall k :: 0 <= k < |host| ==> host[k] != '/' && host[k] != ':'
  {
    var c := Concat(tlds);
    assert c == tlds[0] + Concat(tlds[1..]);
    ConcatTldChars(tlds);
    var host := www + name + c;
    forall k | 0 <= k < |host| ensures host[k] != '/' && host[k] != ':' {
      if k < |www| {
        assert host[k] == www[k];
      } else if k < |www| + |name| {
        assert host[k] == name[k - |www|];
        assert IsLabelChar(name[k - |www|]);
      } else {
        assert host[k] == c[k - |www| - |name|];
      }
    }
  }

  /** A reading's scheme is exactly what `AfterScheme` strips. */
  lemma AfterSchemeOfReading(scheme: string, host: string, path: string)
    requires IsScheme(scheme) && IsPath(path) && |host| >= 4
    requires forall k :: 0 <= k < |host| ==> host[k] != '/' && host[k] != ':'
    ensures AfterScheme(scheme + host + path) == host + path
  {
    var s := scheme + host + path;
    if scheme == "" {
      assert s == host + path;
      assert !StartsWith(s, "http://") by {
        if |s| >= 7 {
          if |host| > 4 {
            assert s[4] == host[4];
          } else {
            assert s[4] == path[0];
          }
        }
      }
      assert !StartsWith(s, "https://") by {
        if |s| >= 8 {
          if |host| > 5 {
            assert s[5] == host[5];
          } else if |host| == 5 {
            assert s[5] == path[0];
          } else {
            assert s[4] == path[0];
          }
        }
      }
    } else if scheme == "http://" {
      assert s[..7] == "http://";
      assert s[4] == ':';
      assert s[7..] == host + path;
    } else {
      assert s[..8] == "https://";
      assert s[8..] == host + path;
    }
  }

  /** Every reading is accepted. */
  lemma ValidateUrlComplete(s: string, r: Reading)
    requires ReadsAs(s, r)
    ensures ValidateUrl(s)
  {
    var Reading(scheme, www, name, tlds, path) := r;
    var host := www + name + Concat(tlds);
    HostChars(www, name, tlds);
    assert s == scheme + host + path;
    AfterSchemeOfReading(scheme, host, path);
    NotBlank(s, |scheme| + |www|, name);
    HostOkComplete(www, name, tlds);
    HostPathOfReading(host, path);
  }

  lemma NotBlank(s: string, k: nat, name: string)
    requires IsLabel(name) && k + |name| <= |s| && s[k..k + |name|] == name
    ensures !IsBlank(s)
  {
    BlankIffAllTrimmed(s);
    assert s[k] == name[0];
  }

  lemma HostOkComplete(www: string, name: string, tlds: seq<string>)
    requires IsWww(www) && IsLabel(name) && AllTlds(tlds)
    ensures HostOk(www + name + Concat(tlds))
  {
    HostCoreComplete(name, tlds);
    var core := name + Concat(tlds);
    Regroup3(www, name, Concat(tlds));
    if www == "www." {
      PrefixedHostOk(www, core);
    } else {
      assert www + core == core;
    }
  }

  lemma Regroup3(a: string, b: string, c: string)
    ensures a + b + c == a + (b + c)
  {
  }

  /** The "www." alternative of the pattern. */
  lemma PrefixedHostOk(www: string, core: string)
    requires www == "www." && HostCore(core)
    ensures HostOk(www + core)
  {
    assert (www + core)[..4] == www;
    assert (www + core)[4..] == core;
  }

  lemma HostPathOfReading(host: string, path: string)
    requires '/' !in host && IsPath(path)
    ensures HostOf(host + path) == host && PathOf(host + path) == path
  {
    var rest := host + path;
    if path == "" {
      assert rest == host;
    } else {
      assert rest == host + ['/'] + path[1..];
      IndexOfCharAt(host, '/', path[1..]);
      assert rest[..|host|] == host;
      assert rest[|host|..] == path;
    }
  }

  function SchemeOf(s: string): string {
    if StartsWith(s, "https://") then "https://" else if StartsWith(s, "http://") then "http://" else ""
  }

  lemma SchemeSplit(s: string)
    ensures IsScheme(SchemeOf(s)) && s == SchemeOf(s) + AfterScheme(s)
  {
  }

  lemma HostPathSplit(rest: string)
    ensures rest == HostOf(rest) + PathOf(rest)
  {
  }

  lemma HostOkSound(host: string) returns (www: string, name: string, tlds: seq<string>)
    requires HostOk(host)
    ensures IsWww(www) && IsLabel(name) && AllTlds(tlds) && host == www + name + Concat(tlds)
  {
    if HostCore(host) {
      www := "";
      name, tlds := HostCoreSound(host);
    } else {
      www := "www.";
      StartsWithSplit(host, www);
      name, tlds := HostCoreSound(host[4..]);
    }
  }

  lemma Regroup(a: string, b: string, c: string, d: string, e: string)
    ensures a + ((b + c + d) + e) == a + b + c + d + e
  {
  }

  /** Every accepted address has a reading. */
  lemma ValidateUrlSound(s: string) returns (r: Reading)
    requires ValidateUrl(s)
    ensures ReadsAs(s, r)
  {
    var rest := AfterScheme(s);
    var scheme, host, path := SchemeOf(s), HostOf(rest), PathOf(rest);
    SchemeSplit(s);
    HostPathSplit(rest);
    var www, name, tlds := HostOkSound(host);
    r := Reading(scheme, www, name, tlds, path);
    Regroup(scheme, www, name, Concat(tlds), path);
  }

  /** `validateURL` accepts exactly the full matches of the pattern; in
      particular a blank input never matches. */
  lemma ValidateUrlIsPattern(s: string)
    ensures ValidateUrl(s) <==> MatchesPattern(s)
  {
    if ValidateUrl(s) {
      var r := ValidateUrlSound(s);
    }
    if MatchesPattern(s) {
      var r :| ReadsAs(s, r);
      ValidateUrlComplete(s, r);
    }
  }

  /** Every match has a '.', so a bare host name is rejected. */
  lemma MatchHasDot(s: string)
    ensures MatchesPattern(s) ==> '.' in s
  {
    if MatchesPattern(s) {
      var r :| ReadsAs(s, r);
      var c := Concat(r.tlds);
      assert c == r.tlds[0] + Concat(r.tlds[1..]);
      assert s[|r.scheme| + |r.www| + |r.name|] == c[0];
    }
  }

  lemma LocalhostRejected()
    ensures !MatchesPattern("localhost")
  {
    MatchHasDot("localhost");
  }

  lemma {:induction false} ConcatEndsInLetter(ts: seq<string>)
    requires AllTlds(ts)
    ensures |Concat(ts)| > 0 && IsLetter(Concat(ts)[|Concat(ts)| - 1])
    decreases |ts|
  {
    var c := Concat(ts);
    assert c == ts[0] + Concat(ts[1..]);
    if |ts| == 1 {
      assert c == ts[0];
      assert c[|c| - 1] == ts[0][1..][|ts[0]| - 2];
    } else {
      var rest := ts[1..];
      assert AllTlds(rest) by {
        forall i | 0 <= i < |rest| ensures IsTld(rest[i]) {
          assert rest[i] == ts[i + 1];
        }
      }
      ConcatEndsInLetter(rest);
      assert c[|c| - 1] == Concat(rest)[|Concat(rest)| - 1];
    }
  }

  /** A match without any '/' has neither scheme nor path, so it ends with
      the last letter of a top-level label. */
  lemma SlashlessMatchEndsInLetter(s: string)
    requires MatchesPattern(s)
    ensures '/' in s || (|s| > 0 && IsLetter(s[|s| - 1]))
  {
    var r :| ReadsAs(s, r);
    if r.scheme != "" {
      SchemeHasSlash(s, r);
    } else if r.path != "" {
      PathHasSlash(s, r);
    } else {
      BareHostEndsInLetter(s, r);
    }
  }

  lemma SchemeHasSlash(s: string, r: Reading)
    requires ReadsAs(s, r) && r.scheme != ""
    ensures |s| > 6 && s[6] == '/'
  {
    assert s[..|r.scheme|] == r.scheme;
  }

  lemma PathHasSlash(s: string, r: Reading)
    requires ReadsAs(s, r) && r.path != ""
    ensures s[|s| - |r.path|] == '/'
  {
  }

  lemma BareHostEndsInLetter(s: string, r: Reading)
    requires ReadsAs(s, r) && r.scheme == "" && r.path == ""
    ensures |s| > 0 && IsLetter(s[|s| - 1])
  {
    assert s == r.www + r.name + Concat(r.tlds);
    ConcatEndsInLetter(r.tlds);
  }

  /** A dotted IP address ends in a digit, not a top-level label. */
  lemma IpAddressRejected()
    ensures !MatchesPattern("192.168.0.1")
  {
    var s := "192.168.0.1";
    assert '/' !in s;
    if MatchesPattern(s) {
      SlashlessMatchEndsInLetter(s);
    }
  }

  lemma SchemelessReading(s: string, r: Reading)
    requires ReadsAs(s, r) && !StartsWith(s, "http://") && !StartsWith(s, "https://")
    ensures r.scheme == ""
  {
    assert s[..|r.scheme|] == r.scheme;
  }

  /** Without an http(s) scheme, every ':' comes after a '/' (inside the path). */
  lemma SchemelessColonInPath(s: string, k: nat)
    requires MatchesPattern(s) && !StartsWith(s, "http://") && !StartsWith(s, "https://")
    requires k < |s| && s[k] == ':'
    ensures '/' in s[..k]
  {
    var r :| ReadsAs(s, r);
    SchemelessReading(s, r);
    ColonInPath(s, r, k);
  }

  lemma ColonInPath(s: string, r: Reading, k: nat)
    requires ReadsAs(s, r) && r.scheme == ""
    requires k < |s| && s[k] == ':'
    ensures '/' in s[..k]
  {
    var host := r.www + r.name + Concat(r.tlds);
    HostChars(r.www, r.name, r.tlds);
    assert s == host + r.path;
    ColonAfterSlash(host, r.path, k);
  }

  /** A ':' in a host without ':' followed by a path sits after the path's '/'. */
  lemma ColonAfterSlash(host: string, path: string, k: nat)
    requires forall j :: 0 <= j < |host| ==> host[j] != '/' && host[j] != ':'
    requires IsPath(path) && k < |host + path| && (host + path)[k] == ':'
    ensures '/' in (host + path)[..k]
  {
    var s := host + path;
    if k >= |host| {
      assert s[|host|] == path[0];
      assert s[..k][|host|] == '/';
    }
  }

  /** "ftp://" is not one of the accepted schemes. */
  lemma FtpRejected()
    ensures !MatchesPattern("ftp://a.com")
  {
    var s := "ftp://a.com";
    assert s[3] == ':';
    assert !StartsWith(s, "http://") && !StartsWith(s, "https://") by { assert s[0] != 'h'; }
    assert '/' !in s[..3];
    if MatchesPattern(s) {
      SchemelessColonInPath(s, 3);
    }
  }

  /** A typical address with scheme, "www.", two top-level labels and a path. */
  lemma TypicalAddressAccepted()
    ensures MatchesPattern("https://www.example.co.uk/a b")
  {
    var tlds := [".co", ".uk"];
    TypicalParts(tlds);
    var s := "https://www.example.co.uk/a b";
    assert s == "https://" + "www." + "example" + ".co.uk" + "/a b";
    ReadingOf(s, "https://", "www.", "example", tlds, "/a b");
  }

  lemma ReadingOf(s: string, scheme: string, www: string, name: string, tlds: seq<string>, path: string)
    requires IsScheme(scheme) && IsWww(www) && IsLabel(name) && AllTlds(tlds) && IsPath(path)
    requires s == scheme + www + name + Concat(tlds) + path
    ensures MatchesPattern(s)
  {
    assert ReadsAs(s, Reading(scheme, www, name, tlds, path));
  }

  lemma TypicalParts(tlds: seq<string>)
    requires tlds == [".co", ".uk"]
    ensures AllTlds(tlds) && Concat(tlds) == ".co.uk"
    ensures IsLabel("example") && IsPath("/a b")
  {
    assert Concat(tlds[1..]) == ".uk" + Concat([]);
    assert IsTld(".co") && IsTld(".uk");
  }

  class AddressBar {
    var url: string
    var protocol: string

    constructor ()
      ensures url == "" && protocol == "https"
    {
      url := "";
      protocol := "https";
    }

    method SetUrl(url: string)
      modifies this
      ensures this.url == url && protocol == old(protocol)
    {
      this.url := url;
    }
  }
}
