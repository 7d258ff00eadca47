/** `CrawlerTrait`: synthesis of the request for `call`, the header-to-server
    variable transform, and the header and status checks. */
module Crawler {
  import opened Wrappers
  import opened Strings
  import opened Php
  import opened Http
  import Urls

  // ---------------------------------------------------------------- headers

  /** One header name in server-variable form: upper case, `-` as `_`, and the
      `HTTP_` prefix unless it is there already or the name is `CONTENT_TYPE`. */
  function ServerVarName(name: string): string
  {
    var n := ReplaceChar(ToUpper(name), '-', "_");
    if !StartsWith(n, "HTTP_") && n != "CONTENT_TYPE" then "HTTP_" + n else n
  }

  /** Pairs written into a map in order, so a later pair with the same name
      overwrites an earlier one. */
  function Assign(pairs: seq<(string, string)>): map<string, string>
  {
    if pairs == [] then map[]
    else
      var last := pairs[|pairs| - 1];
      Assign(pairs[..|pairs| - 1])[last.0 := last.1]
  }

  /** The headers with their names in server-variable form. */
  function Renamed(headers: seq<(string, string)>): (r: seq<(string, string)>)
    ensures |r| == |headers|
    ensures forall i :: 0 <= i < |headers| ==> r[i] == (ServerVarName(headers[i].0), headers[i].1)
  {
    seq(|headers|, i requires 0 <= i < |headers| => (ServerVarName(headers[i].0), headers[i].1))
  }

  /** The map `transformHeadersToServerVars` builds. */
  function HeaderVars(headers: seq<(string, string)>): map<string, string>
  {
    Assign(Renamed(headers))
  }

  /** `transformHeadersToServerVars`. */
  method TransformHeadersToServerVars(headers: seq<(string, string)>) returns (server: map<string, string>)
    ensures server == HeaderVars(headers)
  {
    ghost var pairs := Renamed(headers);
    server := map[];
    var k := 0;
    while k < |headers|
      invariant 0 <= k <= |headers|
      invariant server == Assign(pairs[..k])
    {
      var name := ServerVarName(headers[k].0);
      server := server[name := headers[k].1];
      k := k + 1;
      assert pairs[..k][..k - 1] == pairs[..k - 1];
    }
    assert pairs[..k] == pairs;
  }

  /** Pair `i` is the last one named `k`. */
  predicate LastWith(pairs: seq<(string, string)>, k: string, i: int)
  {
    0 <= i < |pairs| && pairs[i].0 == k &&
    forall j :: i < j < |pairs| ==> pairs[j].0 != k
  }

  /** The assigned map has exactly the names of the pairs. */
  lemma {:induction false} AssignKeys(pairs: seq<(string, string)>)
    ensures forall k :: k in Assign(pairs) <==> exists i :: 0 <= i < |pairs| && pairs[i].0 == k
    decreases |pairs|
  {
    if pairs != [] {
      var n := |pairs| - 1;
      var front := pairs[..n];
      AssignKeys(front);
      forall k ensures k in Assign(pairs) <==> exists i :: 0 <= i < |pairs| && pairs[i].0 == k {
        if k in Assign(front) {
          var i :| 0 <= i < |front| && front[i].0 == k;
          assert pairs[i] == front[i];
        }
        if exists i :: 0 <= i < |pairs| && pairs[i].0 == k {
          var i :| 0 <= i < |pairs| && pairs[i].0 == k;
          if i < n {
            assert front[i] == pairs[i];
          }
        }
      }
    }
  }

  /** Later pairs win: each name holds the value of the last pair with that name. */
  lemma {:induction false} AssignLastWins(pairs: seq<(string, string)>, k: string)
    requires k in Assign(pairs)
    ensures exists i :: LastWith(pairs, k, i) && Assign(pairs)[k] == pairs[i].1
    decreases |pairs|
  {
    var n := |pairs| - 1;
    var front := pairs[..n];
    if k == pairs[n].0 {
      assert LastWith(pairs, k, n);
    } else {
      AssignLastWins(front, k);
      var i :| LastWith(front, k, i) && Assign(front)[k] == front[i].1;
      assert pairs[i] == front[i];
      forall j | i < j < |pairs| ensures pairs[j].0 != k {
        if j < n {
          assert pairs[j] == front[j];
        }
      }
      assert LastWith(pairs, k, i);
    }
  }

  /** The shape of a transformed name. */
  predicate IsServerVarName(n: string)
  {
    IsUpper(n) && '-' !in n && (StartsWith(n, "HTTP_") || n == "CONTENT_TYPE")
  }

  lemma {:induction false} ReplaceKeepsUpper(s: string)
    requires IsUpper(s)
    ensures IsUpper(ReplaceChar(s, '-', "_")) && '-' !in ReplaceChar(s, '-', "_")
    decreases |s|
  {
    if s != [] {
      assert IsUpper(s[1..]) by {
        forall i | 0 <= i < |s[1..]| ensures !('a' <= s[1..][i] <= 'z') {
          assert s[1..][i] == s[i + 1];
        }
      }
      ReplaceKeepsUpper(s[1..]);
      var head := if s[0] == '-' then "_" else [s[0]];
      var r := head + ReplaceChar(s[1..], '-', "_");
      assert IsUpper(r) by {
        forall i | 0 <= i < |r| ensures !('a' <= r[i] <= 'z') {
          if i >= |head| {
            assert r[i] == ReplaceChar(s[1..], '-', "_")[i - |head|];
          }
        }
      }
    }
  }

  lemma UpperPrefix(n: string)
    requires IsUpper(n)
    ensures IsUpper("HTTP_" + n)
  {
    var r := "HTTP_" + n;
    forall i | 0 <= i < |r| ensures !('a' <= r[i] <= 'z') {
      if i >= 5 {
        assert r[i] == n[i - 5];
      }
    }
  }

  /** Every transformed name is upper case without `-`, and is `CONTENT_TYPE`
      or starts with `HTTP_`. */
  lemma ServerVarNameShape(name: string)
    ensures IsServerVarName(ServerVarName(name))
  {
    var u := ToUpper(name);
    assert IsUpper(u);
    ReplaceKeepsUpper(u);
    var n := ReplaceChar(u, '-', "_");
    if !StartsWith(n, "HTTP_") && n != "CONTENT_TYPE" {
      UpperPrefix(n);
      assert ('-' in "HTTP_" + n) ==> '-' in n;
      assert StartsWith("HTTP_" + n, "HTTP_");
    }
  }

  lemma {:induction false} ToUpperOfUpper(s: string)
    requires IsUpper(s)
    ensures ToUpper(s) == s
  {
  }

  /** The transform is idempotent on names: a server-variable name is left as it is. */
  lemma ServerVarNameIdempotent(name: string)
    ensures ServerVarName(ServerVarName(name)) == ServerVarName(name)
  {
    var n := ServerVarName(name);
    ServerVarNameShape(name);
    ToUpperOfUpper(n);
    assert ReplaceChar(n, '-', "_") == n;
  }

  /** The transformed map: its names are server-variable names, there is one
      for every header and no other, and each holds the value of the last
      header that maps to it. */
  lemma HeaderVarsSpec(headers: seq<(string, string)>, k: string)
    ensures k in HeaderVars(headers) <==> exists i :: 0 <= i < |headers| && ServerVarName(headers[i].0) == k
    ensures k in HeaderVars(headers) ==> IsServerVarName(k)
    ensures k in HeaderVars(headers) ==>
              exists i :: LastWith(Renamed(headers), k, i) && HeaderVars(headers)[k] == headers[i].1
  {
    var pairs := Renamed(headers);
    AssignKeys(pairs);
    if k in HeaderVars(headers) {
      AssignLastWins(pairs, k);
      var i :| 0 <= i < |pairs| && pairs[i].0 == k;
      ServerVarNameShape(headers[i].0);
    }
  }

  /** Pairs that all agree with a map and name each of its keys assign exactly that map. */
  lemma AssignAgreeing(pairs: seq<(string, string)>, m: map<string, string>)
    requires forall i :: 0 <= i < |pairs| ==> pairs[i].0 in m && m[pairs[i].0] == pairs[i].1
    requires forall k :: k in m ==> exists i :: 0 <= i < |pairs| && pairs[i].0 == k
    ensures Assign(pairs) == m
  {
    var a := Assign(pairs);
    AssignKeys(pairs);
    assert a.Keys == m.Keys by {
      forall k | k in a ensures k in m {
        var i :| 0 <= i < |pairs| && pairs[i].0 == k;
      }
    }
    forall k | k in m
      ensures a[k] == m[k]
    {
      AssignLastWins(pairs, k);
      var i :| LastWith(pairs, k, i) && a[k] == pairs[i].1;
    }
  }

  /** The transform is idempotent on its own output: headers listing the
      transformed map's entries transform back into that same map. */
  lemma HeaderVarsIdempotent(headers: seq<(string, string)>, again: seq<(string, string)>)
    requires forall i :: 0 <= i < |again| ==> again[i].0 in HeaderVars(headers) && HeaderVars(headers)[again[i].0] == again[i].1
    requires forall k :: k in HeaderVars(headers) ==> exists i :: 0 <= i < |again| && again[i].0 == k
    ensures HeaderVars(again) == HeaderVars(headers)
  {
    var m := HeaderVars(headers);
    var pairs := Renamed(again);
    forall i | 0 <= i < |again|
      ensures pairs[i] == again[i]
    {
      HeaderVarsSpec(headers, again[i].0);
      var n := again[i].0;
      ToUpperOfUpper(n);
      assert ReplaceChar(n, '-', "_") == n;
    }
    forall k | k in m
      ensures exists i :: 0 <= i < |pairs| && pairs[i].0 == k
    {
      var i :| 0 <= i < |again| && again[i].0 == k;
      assert pairs[i].0 == k;
    }
    AssignAgreeing(pairs, m);
  }

  // ---------------------------------------------------------------- call

  /** `!empty($uriParse['query'])`: absent, empty and `"0"` are all empty in PHP. */
  predicate QueryGiven(parts: UrlParts)
  {
    parts.query.Some? && parts.query.value != "" && parts.query.value != "0"
  }

  /** `ltrim($path, '/')`: every leading slash goes. */
  function TrimLeadingSlashes(s: string): (r: string)
    ensures r == [] || r[0] != '/'
    ensures EndsWith(s, r)
    ensures forall i :: 0 <= i < |s| - |r| ==> s[i] == '/'
  {
    if s != [] && s[0] == '/' then
      var r := TrimLeadingSlashes(s[1..]);
      assert s[|s| - |r|..] == s[1..][|s[1..]| - |r|..];
      r
    else
      assert s[|s| - |s|..] == s;
      s
  }

  /** The parameters `call` sends: for GET with a query, the parsed query with
      the caller's parameters merged over it. */
  function EffectiveParameters(requestMethod: string, parts: UrlParts, parseQuery: string -> seq<Entry>,
                               parameters: seq<Entry>): seq<Entry>
  {
    if requestMethod == "GET" && QueryGiven(parts) then ArrayMerge(parseQuery(parts.query.value), parameters)
    else parameters
  }

  /** The URI path, `""` when `parse_url` reports none. */
  function PathOf(parts: UrlParts): string
  {
    if parts.path.Some? then parts.path.value else ""
  }

  /** The server array of `call`: the stored server variables, the caller's on
      top, then the five derived entries. */
  function ServerFor(requestMethod: string, parts: UrlParts, serverVariables: map<string, string>,
                     server: map<string, string>): map<string, string>
  {
    var path := PathOf(parts);
    (serverVariables + server)
      ["REQUEST_METHOD" := requestMethod]
      ["QUERY_STRING" := if parts.query.Some? then parts.query.value else ""]
      ["REQUEST_URI" := path]
      ["PATH_INFO" := path]
      ["HTTP_HOST" := if parts.host.Some? then parts.host.value else ""]
  }

  /** The request `call` builds for the already prepared URI whose parts are `parts`.
      The base URL and path info are read back from the server array in the
      original; they are the path itself, as `BuildRequestServer` shows. */
  function BuildRequest(requestMethod: string, parts: UrlParts, parseQuery: string -> seq<Entry>,
                        parameters: seq<Entry>, cookies: seq<Entry>, files: seq<(string, Upload)>,
                        server: map<string, string>, content: string,
                        serverVariables: map<string, string>): Request
  {
    var params := EffectiveParameters(requestMethod, parts, parseQuery, parameters);
    var srv := ServerFor(requestMethod, parts, serverVariables, server);
    Request(srv, requestMethod,
            if requestMethod == "GET" then params else [],
            if requestMethod == "POST" then params else [],
            cookies, content, files,
            PathOf(parts),
            TrimLeadingSlashes(PathOf(parts)))
  }

  const DerivedKeys: set<string> := {"REQUEST_METHOD", "QUERY_STRING", "REQUEST_URI", "PATH_INFO", "HTTP_HOST"}

  /** The server array: the derived keys always hold the derived values (with
      `REQUEST_URI == PATH_INFO == path`), every other key comes from the
      caller's server array if it has it and from the stored variables if not. */
  lemma BuildRequestServer(requestMethod: string, parts: UrlParts, parseQuery: string -> seq<Entry>,
                           parameters: seq<Entry>, cookies: seq<Entry>, files: seq<(string, Upload)>,
                           server: map<string, string>, content: string, serverVariables: map<string, string>)
    ensures var r := BuildRequest(requestMethod, parts, parseQuery, parameters, cookies, files, server, content, serverVariables);
            var path := if parts.path.Some? then parts.path.value else "";
            && r.requestMethod == requestMethod
            && r.server["REQUEST_METHOD"] == requestMethod
            && r.server["QUERY_STRING"] == (if parts.query.Some? then parts.query.value else "")
            && r.server["REQUEST_URI"] == path && r.server["PATH_INFO"] == path
            && r.server["HTTP_HOST"] == (if parts.host.Some? then parts.host.value else "")
            && r.server.Keys == serverVariables.Keys + server.Keys + DerivedKeys
            && (forall k :: k in server && k !in DerivedKeys ==> r.server[k] == server[k])
            && (forall k :: k in serverVariables && k !in server && k !in DerivedKeys ==> r.server[k] == serverVariables[k])
            && r.baseUrl == path && r.pathinfo == TrimLeadingSlashes(path)
  {
  }

  /** Parameters reach the GET map only for GET and the POST map only for POST,
      so PUT and DELETE data is dropped. */
  lemma BuildRequestRouting(requestMethod: string, parts: UrlParts, parseQuery: string -> seq<Entry>,
                            parameters: seq<Entry>, cookies: seq<Entry>, files: seq<(string, Upload)>,
                            server: map<string, string>, content: string, serverVariables: map<string, string>)
    ensures var r := BuildRequest(requestMethod, parts, parseQuery, parameters, cookies, files, server, content, serverVariables);
            && (requestMethod != "GET" ==> r.get == [])
            && (requestMethod != "POST" ==> r.post == [])
            && (requestMethod == "POST" ==> r.post == parameters)
            && (requestMethod == "GET" && !QueryGiven(parts) ==> r.get == parameters)
  {
  }

  /** For GET the caller's parameters win over the query string on equal string
      keys, and query keys the caller does not set are kept. */
  lemma GetParametersOverrideQuery(parts: UrlParts, parseQuery: string -> seq<Entry>,
                                   parameters: seq<Entry>, cookies: seq<Entry>, files: seq<(string, Upload)>,
                                   server: map<string, string>, content: string, serverVariables: map<string, string>,
                                   s: string)
    requires QueryGiven(parts)
    requires DistinctKeys(parseQuery(parts.query.value)) && DistinctKeys(parameters)
    ensures var r := BuildRequest("GET", parts, parseQuery, parameters, cookies, files, server, content, serverVariables);
            Lookup(r.get, StrKey(s)) ==
              if Lookup(parameters, StrKey(s)).Some? then Lookup(parameters, StrKey(s))
              else Lookup(parseQuery(parts.query.value), StrKey(s))
  {
    ArrayMergeStrKey(parseQuery(parts.query.value), parameters, s);
  }

  /** Methods other than GET never read the query string into parameters: the
      request does not depend on how the query would parse. */
  lemma NonGetIgnoresQuery(requestMethod: string, parts: UrlParts, q1: string -> seq<Entry>, q2: string -> seq<Entry>,
                           parameters: seq<Entry>, cookies: seq<Entry>, files: seq<(string, Upload)>,
                           server: map<string, string>, content: string, serverVariables: map<string, string>)
    requires requestMethod != "GET"
    ensures BuildRequest(requestMethod, parts, q1, parameters, cookies, files, server, content, serverVariables) ==
            BuildRequest(requestMethod, parts, q2, parameters, cookies, files, server, content, serverVariables)
  {
  }

  // ---------------------------------------------------------------- checks

  /** `empty($headers[$name])` for a string header. */
  predicate EmptyHeader(headers: map<string, string>, name: string)
  {
    name !in headers || headers[name] == "" || headers[name] == "0"
  }

  /** `seeHeader($name, $value)`: the header must be present and non-empty
      under exactly that key and, when a value is given, equal to it. */
  function SeeHeader(headers: map<string, string>, name: string, value: Option<string>): (r: Outcome)
    ensures r.Pass? <==> !EmptyHeader(headers, name) && (value.None? || headers[name] == value.value)
  {
    if EmptyHeader(headers, name) then Fail("Header [" + name + "] not present on response.")
    else if value.Some? && headers[name] != value.value then
      Fail("Header [" + name + "] was found, but value [" + headers[name] + "] does not match [" + value.value + "].")
    else Pass
  }

  /** `seeStatusCode($status)`. */
  function SeeStatusCode(response: Response, status: int): (r: Outcome)
    ensures r.Pass? <==> response.code == status
  {
    if response.code == status then Pass else Fail("Failed asserting that two values are equal.")
  }
}
