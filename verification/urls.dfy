/** `APIScraper.is_valid_url` (api_doc_generator/scraper.py:291-304) and
    the part of `urllib.parse.urlparse` it reads: the network location
    (`netloc`). The parser follows CPython 3.12's `urlsplit`: strip leading
    C0 controls and spaces, delete tab, CR and LF, split off a scheme, and
    take the netloc after a leading `//` up to the first `/`, `?` or `#`;
    unbalanced square brackets raise `ValueError`. The second `ValueError`
    of `urlsplit`, for a non-ASCII netloc whose NFKC normal form holds one
    of `/ ? # @ :`, is not modelled: such a netloc is returned as is. */
module Urls {
  import opened Results
  import opened Text

  /** What `urlparse` raises. */
  datatype UrlError = InvalidIpv6Url

  /** The characters `urlsplit` strips from the front of a URL: the C0
      controls and the space. */
  predicate IsC0OrSpace(c: char) {
    c <= ' '
  }

  /** The characters `urlsplit` deletes everywhere in a URL. */
  predicate IsUnsafe(c: char) {
    c == '\t' || c == '\r' || c == '\n'
  }

  /** `string.ascii_letters + string.digits + "+-."`. */
  predicate IsSchemeChar(c: char) {
    IsAsciiLetter(c) || IsDigit(c) || c == '+' || c == '-' || c == '.'
  }

  /** The characters that end a netloc. */
  predicate IsNetlocDelim(c: char) {
    c == '/' || c == '?' || c == '#'
  }

  /** `url.lstrip(_WHATWG_C0_CONTROL_OR_SPACE)`. */
  function StripLeadingControls(url: string): (r: string)
    ensures |r| <= |url| && r == url[|url| - |r|..]
    ensures forall k :: 0 <= k < |url| - |r| ==> IsC0OrSpace(url[k])
    ensures r == [] || !IsC0OrSpace(r[0])
  {
    if url != [] && IsC0OrSpace(url[0]) then StripLeadingControls(url[1..]) else url
  }

  /** `url.replace('\t', '').replace('\r', '').replace('\n', '')`. */
  function RemoveUnsafe(url: string): (r: string)
    ensures |r| <= |url|
    ensures forall k :: 0 <= k < |r| ==> !IsUnsafe(r[k])
    ensures (forall k :: 0 <= k < |url| ==> !IsUnsafe(url[k])) ==> r == url
  {
    if url == [] then []
    else
      var rest := RemoveUnsafe(url[1..]);
      if IsUnsafe(url[0]) then rest
      else
        assert forall k :: 1 <= k < |[url[0]] + rest| ==> ([url[0]] + rest)[k] == rest[k - 1];
        [url[0]] + rest
  }

  /** What follows the scheme: when the text before the first `:` is a
      non-empty run of scheme characters starting with an ASCII letter, the
      text after that `:`; otherwise the whole URL. */
  function AfterScheme(url: string): (r: string)
    ensures r == url || (|r| < |url| && url[|url| - |r| - 1] == ':' && r == url[|url| - |r|..])
  {
    match IndexOf(url, ":", 0)
    case Some(i) =>
      if i > 0 && IsAsciiLetter(url[0]) && forall k :: 0 <= k < i ==> IsSchemeChar(url[k])
      then url[i + 1..]
      else url
    case None => url
  }

  /** `url.find(c, start)`, or `default` when `c` does not occur. */
  function FindOr(url: string, c: char, start: nat, default: nat): (d: nat)
    ensures d == default || (start <= d < |url| && url[d] == c)
    ensures forall k :: start <= k < |url| && k < d ==> url[k] != c
  {
    match IndexOf(url, [c], start)
    case Some(w) =>
      OccursCharAt(url, c, w);
      forall k | start <= k < w ensures k < |url| ==> url[k] != c {
        OccursCharAt(url, c, k);
      }
      w
    case None =>
      forall k | start <= k < |url| ensures url[k] != c {
        OccursCharAt(url, c, k);
      }
      default
  }

  /** Where `_splitnetloc(url, start)` ends the netloc: the first `/`, `?`
      or `#` at or after `start`, or the end of the string. */
  function NetlocEnd(url: string, start: nat): (d: nat)
    requires start <= |url|
    ensures start <= d <= |url|
    ensures forall k :: start <= k < d ==> !IsNetlocDelim(url[k])
    ensures d < |url| ==> IsNetlocDelim(url[d])
  {
    var d0 := |url|;
    var w1 := FindOr(url, '/', start, d0);
    var d1 := if w1 < d0 then w1 else d0;
    var w2 := FindOr(url, '?', start, d1);
    var d2 := if w2 < d1 then w2 else d1;
    var w3 := FindOr(url, '#', start, d2);
    if w3 < d2 then w3 else d2
  }

  /** `urlparse(url).netloc`, or the `ValueError` it raises for a netloc
      with a `[` but no `]` or a `]` but no `[`. */
  function Netloc(url: string): (r: Result<string, UrlError>)
    ensures r.Ok? ==> forall k :: 0 <= k < |r.value| ==> !IsNetlocDelim(r.value[k]) && !IsUnsafe(r.value[k])
    ensures r.Ok? ==> (('[' in r.value) <==> (']' in r.value))
  {
    NetlocAfterScheme(AfterScheme(RemoveUnsafe(StripLeadingControls(url))))
  }

  /** The netloc of what follows the scheme: the text after a leading `//`
      up to the first delimiter, or nothing when there is no `//`. */
  function NetlocAfterScheme(rest: string): (r: Result<string, UrlError>)
    requires forall k :: 0 <= k < |rest| ==> !IsUnsafe(rest[k])
    ensures r.Ok? ==> forall k :: 0 <= k < |r.value| ==> !IsNetlocDelim(r.value[k]) && !IsUnsafe(r.value[k])
    ensures r.Ok? ==> (('[' in r.value) <==> (']' in r.value))
  {
    if |rest| >= 2 && rest[..2] == "//" then
      var netloc := rest[2..NetlocEnd(rest, 2)];
      if ('[' in netloc && ']' !in netloc) || (']' in netloc && '[' !in netloc) then
        Err(InvalidIpv6Url)
      else
        assert forall k :: 0 <= k < |netloc| ==> netloc[k] == rest[k + 2];
        Ok(netloc)
    else Ok("")
  }

  /** `is_valid_url(url)` for a scraper whose base URL is `baseUrl`: the
      base netloc occurs as a substring of the URL's netloc. The base is
      parsed first, so its error wins. */
  function IsValidUrl(baseUrl: string, url: string): (r: Result<bool, UrlError>)
    ensures r.Ok? <==> Netloc(baseUrl).Ok? && Netloc(url).Ok?
    ensures r.Ok? ==> (r.value <==> exists k :: 0 <= k <= |Netloc(url).value| &&
                                      OccursAt(Netloc(url).value, Netloc(baseUrl).value, k))
    ensures r == Ok(true) ==> |Netloc(baseUrl).value| <= |Netloc(url).value|
  {
    match Netloc(baseUrl)
    case Err(e) => Err(e)
    case Ok(base) =>
      match Netloc(url)
      case Err(e) => Err(e)
      case Ok(domain) => Ok(Contains(domain, base))
  }

  // ---------------------------------------------------------------------
  // Properties
  // ---------------------------------------------------------------------

  /** The base URL itself is always accepted once it parses. */
  lemma BaseUrlIsValid(baseUrl: string)
    requires Netloc(baseUrl).Ok?
    ensures IsValidUrl(baseUrl, baseUrl) == Ok(true)
  {
    ContainsSelfAndEmpty(Netloc(baseUrl).value);
  }

  /** A host name: no character the parser treats specially. */
  predicate PlainHost(host: string) {
    forall k :: 0 <= k < |host| ==>
      !IsNetlocDelim(host[k]) && !IsUnsafe(host[k]) && host[k] != '[' && host[k] != ']'
  }

  /** A scheme: an ASCII letter, then scheme characters. */
  predicate PlainScheme(scheme: string) {
    && scheme != []
    && IsAsciiLetter(scheme[0])
    && forall k :: 0 <= k < |scheme| ==> IsSchemeChar(scheme[k])
  }

  /** A path, query or fragment: empty or starting at a delimiter, and
      without tab, CR or LF. */
  predicate PlainTail(tail: string) {
    && (tail == [] || IsNetlocDelim(tail[0]))
    && forall k :: 0 <= k < |tail| ==> !IsUnsafe(tail[k])
  }

  /** The netloc of `scheme://host/path` is `host`. */
  lemma NetlocOfAbsoluteUrl(scheme: string, host: string, tail: string)
    requires PlainScheme(scheme) && PlainHost(host) && PlainTail(tail)
    ensures Netloc(scheme + "://" + host + tail) == Ok(host)
  {
    var url := scheme + "://" + host + tail;
    var rest := "//" + host + tail;
    assert "://" == ":" + "//";
    assert url == scheme + ":" + rest;
    PrefixesOfAbsoluteUrl(scheme, host, tail);
    SchemeOfAbsoluteUrl(scheme, rest);
    NetlocOfHost(host, tail);
  }

  /** After the scheme, the netloc of `//host/path` is `host`. */
  lemma NetlocOfHost(host: string, tail: string)
    requires PlainHost(host) && PlainTail(tail)
    ensures forall k :: 0 <= k < |"//" + host + tail| ==> !IsUnsafe(("//" + host + tail)[k])
    ensures NetlocAfterScheme("//" + host + tail) == Ok(host)
  {
    var rest := "//" + host + tail;
    NetlocEndOfHost(host, tail);
    assert rest[2..2 + |host|] == host;
    forall k | 0 <= k < |rest| ensures !IsUnsafe(rest[k]) {
      if 2 <= k < 2 + |host| {
        assert rest[k] == host[k - 2];
      } else if 2 + |host| <= k {
        assert rest[k] == tail[k - 2 - |host|];
      }
    }
  }

  /** Stripping and deleting leave an absolute URL as it is. */
  lemma PrefixesOfAbsoluteUrl(scheme: string, host: string, tail: string)
    requires PlainScheme(scheme) && PlainHost(host) && PlainTail(tail)
    ensures var url := scheme + "://" + host + tail;
      RemoveUnsafe(StripLeadingControls(url)) == url
  {
    var url := scheme + "://" + host + tail;
    assert url[0] == scheme[0];
    assert StripLeadingControls(url) == url;
    forall k | 0 <= k < |url| ensures !IsUnsafe(url[k]) {
      var n := |scheme| + 3;
      if k < |scheme| {
        assert url[k] == scheme[k];
      } else if k < n {
      } else if k < n + |host| {
        assert url[k] == host[k - n];
      } else {
        assert url[k] == tail[k - n - |host|];
      }
    }
  }

  /** The scheme is split off at the first colon. */
  lemma SchemeOfAbsoluteUrl(scheme: string, rest: string)
    requires PlainScheme(scheme)
    ensures AfterScheme(scheme + ":" + rest) == rest
  {
    var url := scheme + ":" + rest;
    assert url[..|scheme| + 1] == scheme + ":";
    assert url[|scheme|..|scheme| + 1] == ":";
    forall k | 0 <= k < |scheme| ensures !OccursAt(url, ":", k) {
      assert url[k] == scheme[k];
      assert url[k..k + 1][0] == url[k];
    }
    IndexOfIs(url, ":", 0, |scheme|);
    assert forall k :: 0 <= k < |scheme| ==> url[k] == scheme[k];
    assert url[|scheme| + 1..] == rest;
  }

  /** The netloc of `//host/path` ends where the host does. */
  lemma NetlocEndOfHost(host: string, tail: string)
    requires PlainHost(host) && PlainTail(tail)
    ensures var rest := "//" + host + tail;
      NetlocEnd(rest, 2) == 2 + |host|
  {
    var rest := "//" + host + tail;
    assert forall k :: 2 <= k < 2 + |host| ==> rest[k] == host[k - 2];
    assert tail != [] ==> rest[2 + |host|] == tail[0];
  }

  /** With plain absolute URLs, validity is the substring test on the hosts. */
  lemma IsValidUrlOfAbsoluteUrls(scheme: string, baseHost: string, baseTail: string,
                                 scheme': string, host: string, tail: string)
    requires PlainScheme(scheme) && PlainHost(baseHost) && PlainTail(baseTail)
    requires PlainScheme(scheme') && PlainHost(host) && PlainTail(tail)
    ensures IsValidUrl(scheme + "://" + baseHost + baseTail, scheme' + "://" + host + tail)
            == Ok(Contains(host, baseHost))
  {
    NetlocOfAbsoluteUrl(scheme, baseHost, baseTail);
    NetlocOfAbsoluteUrl(scheme', host, tail);
  }

  /** A link without `//` after its scheme, such as a root-relative path,
      has an empty netloc and is rejected whenever the base has a host. */
  lemma RelativeLinkIsRejected(baseUrl: string, path: string)
    requires Netloc(baseUrl).Ok? && Netloc(baseUrl).value != []
    requires path != [] && path[0] == '/' && (|path| < 2 || path[1] != '/')
    requires forall k :: 0 <= k < |path| ==> !IsUnsafe(path[k]) && path[k] != ':'
    ensures IsValidUrl(baseUrl, path) == Ok(false)
  {
    assert StripLeadingControls(path) == path;
    assert RemoveUnsafe(path) == path;
    forall k | 0 <= k ensures !OccursAt(path, ":", k) {
      OccursCharAt(path, ':', k);
    }
    assert AfterScheme(path) == path;
    assert |path| >= 2 ==> path[..2][1] == path[1];
    assert Netloc(path) == Ok("");
  }
}

/** Concrete hosts against the base `https://docs.example.com/api`. */
module UrlsExamples {
  import opened Results
  import opened Text
  import opened Urls

  /** The example hosts hold no delimiter, bracket or control character. */
  lemma ExampleHostIsPlain(h: string)
    requires || h == "docs.example.com" || h == "other.example.com"
             || h == "DOCS.example.com" || h == "docs.example.com.evil.io"
    ensures PlainHost(h)
  {
    assert forall k :: 0 <= k < |h| ==> IsSchemeChar(h[k]);
  }

  /** Validity for two `https` URLs whose path is `/api`. */
  lemma HttpsValidity(base: string, url: string, host: string, other: string)
    requires PlainHost(host) && PlainHost(other)
    requires base == "https://" + host + "/api" && url == "https://" + other + "/api"
    ensures IsValidUrl(base, url) == Ok(Contains(other, host))
  {
    assert "https://" + host + "/api" == "https" + "://" + host + "/api";
    assert "https://" + other + "/api" == "https" + "://" + other + "/api";
    assert PlainScheme("https") && PlainTail("/api");
    IsValidUrlOfAbsoluteUrls("https", host, "/api", "https", other, "/api");
  }

  /** A page under the base host is accepted. */
  lemma SameHostAccepted(host: string, base: string, page: string)
    requires host == "docs.example.com"
    requires base == "https://" + host + "/api"
    requires page == "https://" + host + "/api/users"
    ensures IsValidUrl(base, page) == Ok(true)
  {
    ExampleHostIsPlain(host);
    assert base == "https" + "://" + host + "/api";
    assert page == "https" + "://" + host + "/api/users";
    assert PlainScheme("https") && PlainTail("/api") && PlainTail("/api/users");
    IsValidUrlOfAbsoluteUrls("https", host, "/api", "https", host, "/api/users");
    ContainsSelfAndEmpty(host);
  }

  /** A sibling host under the same parent domain is rejected. */
  lemma SiblingHostRejected(host: string, other: string, base: string, sibling: string)
    requires host == "docs.example.com" && other == "other.example.com"
    requires base == "https://" + host + "/api"
    requires sibling == "https://" + other + "/api"
    ensures IsValidUrl(base, sibling) == Ok(false)
  {
    ExampleHostIsPlain(host);
    ExampleHostIsPlain(other);
    HostsDiffer(other, host);
    HttpsValidity(base, sibling, host, other);
  }

  /** The comparison is case-sensitive: the base host in capitals is
      rejected. */
  lemma UpperCaseHostRejected(host: string, upper: string, base: string, page: string)
    requires host == "docs.example.com" && upper == "DOCS.example.com"
    requires base == "https://" + host + "/api"
    requires page == "https://" + upper + "/api"
    ensures IsValidUrl(base, page) == Ok(false)
  {
    ExampleHostIsPlain(host);
    ExampleHostIsPlain(upper);
    HostsDiffer(upper, host);
    HttpsValidity(base, page, host, upper);
  }

  /** A host that merely starts with the base host is accepted: the test is
      a substring test, not a domain comparison. */
  lemma LookalikeHostAccepted(host: string, lookalike: string, base: string, page: string)
    requires host == "docs.example.com" && lookalike == "docs.example.com.evil.io"
    requires base == "https://" + host + "/api"
    requires page == "https://" + lookalike + "/api"
    ensures IsValidUrl(base, page) == Ok(true)
  {
    ExampleHostIsPlain(host);
    ExampleHostIsPlain(lookalike);
    HostPrefix(lookalike, host);
    HttpsValidity(base, page, host, lookalike);
  }

  lemma HostsDiffer(hay: string, needle: string)
    requires hay == "other.example.com" || hay == "DOCS.example.com"
    requires needle == "docs.example.com"
    ensures !Contains(hay, needle)
  {
    assert hay[0] != needle[0];
    assert |hay| > |needle| ==> hay[1] != needle[0];
    NotContainedByFirstChar(hay, needle);
  }

  lemma HostPrefix(hay: string, needle: string)
    requires hay == "docs.example.com.evil.io"
    requires needle == "docs.example.com"
    ensures Contains(hay, needle)
  {
    assert hay[..|needle|] == needle;
    assert OccursAt(hay, needle, 0);
  }

  /** A needle whose first character differs from every character that
      could start an occurrence is not contained. */
  lemma NotContainedByFirstChar(hay: string, needle: string)
    requires needle != [] && |needle| <= |hay| <= |needle| + 1
    requires forall k :: 0 <= k <= |hay| - |needle| ==> hay[k] != needle[0]
    ensures !Contains(hay, needle)
  {
    forall k | 0 <= k <= |hay| ensures !OccursAt(hay, needle, k) {
      if k + |needle| <= |hay| {
        assert hay[k..k + |needle|][0] == hay[k];
      }
    }
  }
}
