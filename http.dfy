/** The request the harness hands to the application and the response it gets
    back, as far as the harness reads or writes them. */
module Http {
  import opened Wrappers
  import opened Php

  /** The parts `parse_url` reports; an absent part is `None`. */
  datatype UrlParts = UrlParts(
    scheme: Option<string>,
    host: Option<string>,
    port: Option<string>,
    path: Option<string>,
    query: Option<string>)

  /** One `$_FILES`-style slot as the form reports it. */
  datatype FileInfo = FileInfo(name: string, mimeType: string, tmpName: string, error: int, size: int)

  /** A file the request carries: the form's own slot, or the test file built
      from an attached upload. */
  datatype Upload = FormFile(info: FileInfo) | TestFile(path: string, isTest: bool)

  /** The framework request after `withServer`, `setMethod`, `withGet`,
      `withPost`, `withCookie`, `withInput`, `withFiles`, `setBaseUrl` and
      `setPathinfo`. */
  datatype Request = Request(
    server: map<string, string>,
    requestMethod: string,
    get: seq<Entry>,
    post: seq<Entry>,
    cookies: seq<Entry>,
    content: string,
    files: seq<(string, Upload)>,
    baseUrl: string,
    pathinfo: string)

  /** The response classes the harness tells apart: a view with its template
      variables, a redirect with its target, or any other response. */
  datatype ResponseKind = Plain | View(vars: seq<Entry>) | Redirect(target: string)

  datatype Response = Response(
    kind: ResponseKind,
    code: int,
    content: string,
    headers: map<string, string>,
    data: Value)
}
