/** URL preparation for a simulated request and resolution of relative link
    targets (`InteractsWithPages::prepareUrlForRequest`, `addRootToRelativeUrl`). */
module Urls {
  import opened Strings

  /** The URI after at most one leading `/` is dropped. */
  function WithoutLeadingSlash(uri: string): (r: string)
    ensures r == uri || (uri != [] && uri[0] == '/' && r == uri[1..])
  {
    if StartsWith(uri, "/") then uri[1..] else uri
  }

  /** `prepareUrlForRequest`: drop one leading `/`, then put `baseUrl . '/'` in
      front unless what is left starts with `http`. */
  function PrepareUrlForRequest(baseUrl: string, uri: string): (r: string)
    ensures !StartsWith(WithoutLeadingSlash(uri), "http") ==> r == baseUrl + "/" + WithoutLeadingSlash(uri)
    ensures StartsWith(WithoutLeadingSlash(uri), "http") ==> r == WithoutLeadingSlash(uri)
  {
    var rest := WithoutLeadingSlash(uri);
    if !StartsWith(rest, "http") then baseUrl + "/" + rest else rest
  }

  /** Only one slash is removed: the prepared URI always ends with the given URI
      less at most its first character, and a second leading slash survives. */
  lemma PrepareKeepsTail(baseUrl: string, uri: string)
    ensures var r := PrepareUrlForRequest(baseUrl, uri);
            EndsWith(r, uri) || (uri != [] && uri[0] == '/' && EndsWith(r, uri[1..]))
    ensures StartsWith(uri, "//") ==> PrepareUrlForRequest(baseUrl, uri) == baseUrl + uri
  {
    var r := PrepareUrlForRequest(baseUrl, uri);
    var rest := WithoutLeadingSlash(uri);
    assert EndsWith(r, rest) by {
      if !StartsWith(rest, "http") {
        assert r == (baseUrl + "/") + rest;
        assert r[|r| - |rest|..] == rest;
      }
    }
    if StartsWith(uri, "//") {
      assert rest == uri[1..] && rest[0] == '/';
      assert !StartsWith(rest, "http");
      assert baseUrl + "/" + uri[1..] == baseUrl + uri by {
        assert uri == "/" + uri[1..];
      }
    }
  }

  /** An absolute URI passes through unchanged. */
  lemma PrepareAbsolute(baseUrl: string, uri: string)
    requires StartsWith(uri, "http")
    ensures PrepareUrlForRequest(baseUrl, uri) == uri
  {
    assert uri[0] == 'h';
  }

  /** With the default empty base URL a relative URI is requested from the
      root: `/x` stays `/x`, and `x` becomes `/x`. */
  lemma PrepareDefaultBase(uri: string)
    requires !StartsWith(WithoutLeadingSlash(uri), "http")
    ensures PrepareUrlForRequest("", uri) == "/" + WithoutLeadingSlash(uri)
    ensures StartsWith(uri, "/") ==> PrepareUrlForRequest("", uri) == uri
  {
    if StartsWith(uri, "/") {
      assert uri == "/" + uri[1..];
    }
  }

  /** `makeRequest` prepares the URI and `call` prepares it again; with an empty
      base URL (the default) or an absolute one the second pass changes nothing. */
  lemma {:induction false} PrepareIdempotent(baseUrl: string, uri: string)
    requires baseUrl == [] || StartsWith(baseUrl, "http")
    ensures PrepareUrlForRequest(baseUrl, PrepareUrlForRequest(baseUrl, uri)) == PrepareUrlForRequest(baseUrl, uri)
  {
    var rest := WithoutLeadingSlash(uri);
    var r := PrepareUrlForRequest(baseUrl, uri);
    if StartsWith(rest, "http") {
      PrepareAbsolute(baseUrl, r);
    } else if baseUrl == [] {
      assert r == "/" + rest;
      assert WithoutLeadingSlash(r) == rest;
    } else {
      assert r[..4] == baseUrl[..4];
      PrepareAbsolute(baseUrl, r);
    }
  }

  /** With a relative base URL the double preparation of `makeRequest`
      followed by `call` repeats the base: with base `app`, `x` is requested
      as `app/app/x`. */
  lemma PrepareTwiceWithRelativeBase(baseUrl: string, uri: string)
    requires baseUrl != [] && baseUrl[0] != '/' && !StartsWith(baseUrl, "http")
    requires !StartsWith(WithoutLeadingSlash(uri), "http")
    ensures PrepareUrlForRequest(baseUrl, uri) == baseUrl + "/" + WithoutLeadingSlash(uri)
    ensures PrepareUrlForRequest(baseUrl, PrepareUrlForRequest(baseUrl, uri)) ==
              baseUrl + "/" + baseUrl + "/" + WithoutLeadingSlash(uri)
  {
    var r := PrepareUrlForRequest(baseUrl, uri);
    assert r == baseUrl + ("/" + WithoutLeadingSlash(uri));
    assert r[0] == baseUrl[0];
    assert WithoutLeadingSlash(r) == r;
    if |baseUrl| >= 4 {
      assert r[..4] == baseUrl[..4];
    } else {
      assert r[|baseUrl|] == '/';
    }
    assert !StartsWith(r, "http");
  }

  /** `addRootToRelativeUrl`: a URL starting with `http` or `https` is kept, any
      other goes through the router's URL builder `buildUrl`. */
  function AddRootToRelativeUrl(buildUrl: string -> string, url: string): string
  {
    if !(StartsWith(url, "http") || StartsWith(url, "https")) then buildUrl(url) else url
  }

  /** The `https` needle is subsumed by `http`: absolute URLs are exactly the
      ones starting with `http`, and only relative ones reach the builder. */
  lemma AddRootToRelativeUrlCases(buildUrl: string -> string, url: string)
    ensures StartsWith(url, "http") ==> AddRootToRelativeUrl(buildUrl, url) == url
    ensures !StartsWith(url, "http") ==> AddRootToRelativeUrl(buildUrl, url) == buildUrl(url)
  {
    if StartsWith(url, "https") {
      assert url[..4] == "https"[..4];
    }
  }
}
