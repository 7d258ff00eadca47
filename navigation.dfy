/** The request flow of `InteractsWithPages` as values: the request `call`
    sends for a URI, following redirects, the page-loaded check, form
    selection and the conversion of attached uploads. The stateful test case
    in module `Harness` is proved against these definitions. */
module Navigation {
  import opened Wrappers
  import opened Strings
  import opened Php
  import opened Http
  import opened Dom
  import opened Selectors
  import Urls
  import Crawler
  import Fields

  /** A value stored for a field: typed or selected text, or a checkbox state. */
  datatype Input = Text(s: string) | Flag(b: bool)

  /** A form as the DOM library reports it: requestMethod, target, file slots and values. */
  datatype Form = Form(requestMethod: string, uri: string, files: seq<(string, FileInfo)>, values: seq<Entry>)

  /** The routines the harness calls but does not define: the framework's
      dispatcher and `Request::url(true)`, `parse_url`, `parse_str`, the HTML
      parser, the DOM library's form and link handling, and the regular
      expression that pulls the error text out of an error page. Filling a
      form fails (the DOM library throws) for a name the form has no field
      for or a value a choice field does not offer. The form and link
      routines also receive the URI of the page the crawler was built for,
      against which a relative `action` or `href` resolves. */
  datatype Env = Env(
    dispatch: Request -> Response,
    requestUrl: Request -> string,
    parseUrl: string -> UrlParts,
    parseQuery: string -> seq<Entry>,
    parseHtml: string -> Document,
    buttonForm: (string, Document, string) -> Option<Form>,
    firstForm: (string, Document) -> Option<Form>,
    setValues: (Form, map<string, Input>) -> Result<Form>,
    formParameters: Form -> seq<Entry>,
    linkUri: (string, Element) -> string,
    errorDetail: string -> Option<string>)

  /** The request `call` builds: the URI is prepared against the base URL,
      split by `parse_url`, and turned into a request. */
  function CallRequest(env: Env, baseUrl: string, serverVariables: map<string, string>, requestMethod: string, uri: string,
                       parameters: seq<Entry>, cookies: seq<Entry>, files: seq<(string, Upload)>,
                       server: map<string, string>, content: string): Request
  {
    Crawler.BuildRequest(requestMethod, env.parseUrl(Urls.PrepareUrlForRequest(baseUrl, uri)), env.parseQuery,
                         parameters, cookies, files, server, content, serverVariables)
  }

  function PageLoadedMessage(uri: string, status: int): string
  {
    "A request to [" + uri + "] failed. Received status code [" + IntToString(status) + "]."
  }

  /** `$message ?: ...`: a missing, empty or `"0"` message is falsy. */
  predicate TruthyText(s: Option<string>)
  {
    s.Some? && s.value != "" && s.value != "0"
  }

  /** `assertPageLoaded($uri, $message)`. */
  function AssertPageLoaded(response: Response, uri: string, message: Option<string>): (r: Outcome)
    ensures r.Pass? <==> response.code == 200
    ensures r.Fail? && TruthyText(message) ==> r.message == message.value
    ensures r.Fail? && !TruthyText(message) ==> r.message == PageLoadedMessage(uri, response.code)
  {
    if response.code == 200 then Pass
    else Fail(if TruthyText(message) then message.value else PageLoadedMessage(uri, response.code))
  }

  /** Where a request ended: the last request sent and its response. */
  datatype Landing = Landing(request: Request, response: Response)

  /** `makeRequest`: prepare the URI, call, follow redirects (each one a
      nested `makeRequest`), then require status 200 for the prepared URI.
      `fuel` bounds the number of redirects followed. */
  function Visit(env: Env, baseUrl: string, serverVariables: map<string, string>, requestMethod: string, uri: string,
                 parameters: seq<Entry>, cookies: seq<Entry>, files: seq<(string, Upload)>, fuel: nat): (r: Result<Landing>)
    ensures r.Ok? ==> r.value.response.code == 200 && !r.value.response.kind.Redirect?
    decreases fuel, 1
  {
    var prepared := Urls.PrepareUrlForRequest(baseUrl, uri);
    var request := CallRequest(env, baseUrl, serverVariables, requestMethod, prepared, parameters, cookies, files, map[], "");
    match Follow(env, baseUrl, serverVariables, Landing(request, env.dispatch(request)), fuel)
    case Err(m) => Err(m)
    case Ok(landing) =>
      match AssertPageLoaded(landing.response, prepared, None)
      case Pass => Ok(landing)
      case Fail(m) => Err(m)
  }

  const TooManyRedirects := "Too many redirects."

  /** `followRedirects`: while the response is a redirect, visit its target with GET. */
  function Follow(env: Env, baseUrl: string, serverVariables: map<string, string>, landing: Landing, fuel: nat): (r: Result<Landing>)
    ensures r.Ok? ==> !r.value.response.kind.Redirect?
    ensures !landing.response.kind.Redirect? ==> r == Ok(landing)
    decreases fuel, 0
  {
    if !landing.response.kind.Redirect? then Ok(landing)
    else if fuel == 0 then Err(TooManyRedirects)
    else Visit(env, baseUrl, serverVariables, "GET", landing.response.kind.target, [], [], [], fuel - 1)
  }

  /** Without a redirect the visit lands on the first response, and succeeds
      iff that response has status 200. */
  lemma VisitDirect(env: Env, baseUrl: string, serverVariables: map<string, string>, requestMethod: string, uri: string,
                    parameters: seq<Entry>, cookies: seq<Entry>, files: seq<(string, Upload)>, fuel: nat)
    ensures var prepared := Urls.PrepareUrlForRequest(baseUrl, uri);
            var request := CallRequest(env, baseUrl, serverVariables, requestMethod, prepared, parameters, cookies, files, map[], "");
            var response := env.dispatch(request);
            var v := Visit(env, baseUrl, serverVariables, requestMethod, uri, parameters, cookies, files, fuel);
            !response.kind.Redirect? ==>
              (v.Ok? <==> response.code == 200) &&
              (v.Ok? ==> v.value == Landing(request, response)) &&
              (v.Err? ==> v.message == PageLoadedMessage(prepared, response.code))
  {
  }

  /** A redirect is followed by a fresh GET visit of its target without
      parameters, cookies or files, and the visit ends where that one ends. */
  lemma VisitRedirect(env: Env, baseUrl: string, serverVariables: map<string, string>, requestMethod: string, uri: string,
                      parameters: seq<Entry>, cookies: seq<Entry>, files: seq<(string, Upload)>, fuel: nat)
    ensures var prepared := Urls.PrepareUrlForRequest(baseUrl, uri);
            var request := CallRequest(env, baseUrl, serverVariables, requestMethod, prepared, parameters, cookies, files, map[], "");
            var response := env.dispatch(request);
            response.kind.Redirect? ==>
              Visit(env, baseUrl, serverVariables, requestMethod, uri, parameters, cookies, files, fuel) ==
              if fuel == 0 then Err(TooManyRedirects)
              else Visit(env, baseUrl, serverVariables, "GET", response.kind.target, [], [], [], fuel - 1)
  {
  }

  // ---------------------------------------------------------------- forms

  /** `if ($buttonText)`: null, `""` and `"0"` are falsy. */
  function GetForm(env: Env, pageUri: string, doc: Document, buttonText: Option<string>): (r: Result<Form>)
    ensures TruthyText(buttonText) ==> (r.Ok? <==> env.buttonForm(pageUri, doc, buttonText.value).Some?)
    ensures !TruthyText(buttonText) ==> (r.Ok? <==> env.firstForm(pageUri, doc).Some?)
    ensures r.Ok? ==> r.value == if TruthyText(buttonText) then env.buttonForm(pageUri, doc, buttonText.value).value else env.firstForm(pageUri, doc).value
  {
    var found := if TruthyText(buttonText) then env.buttonForm(pageUri, doc, buttonText.value) else env.firstForm(pageUri, doc);
    match found
    case Some(f) => Ok(f)
    case None => Err("Could not find a form that has submit button [" + (if buttonText.Some? then buttonText.value else "") + "].")
  }

  /** The first argument of `fillForm`: button text, or (when it is not a
      string) the inputs themselves. */
  datatype FormArgument = ButtonText(text: string) | InputsOnly(inputs: map<string, Input>)

  /** `fillForm($buttonText, $inputs)`. */
  function FillForm(env: Env, pageUri: string, doc: Document, first: FormArgument, inputs: map<string, Input>): (r: Result<Form>)
    ensures first.InputsOnly? ==> r == (match GetForm(env, pageUri, doc, None) case Ok(f) => env.setValues(f, first.inputs) case Err(m) => Err(m))
    ensures first.ButtonText? && GetForm(env, pageUri, doc, Some(first.text)).Err? ==> r == Err(GetForm(env, pageUri, doc, Some(first.text)).message)
  {
    var (button, values) := if first.InputsOnly? then (None, first.inputs) else (Some(first.text), inputs);
    match GetForm(env, pageUri, doc, button)
    case Ok(f) => env.setValues(f, values)
    case Err(m) => Err(m)
  }

  /** Passing the inputs first selects the page's first form and ignores the
      second argument; passing a truthy button text selects that button's form. */
  lemma FillFormOverload(env: Env, pageUri: string, doc: Document, m: map<string, Input>, other: map<string, Input>, text: string)
    ensures FillForm(env, pageUri, doc, InputsOnly(m), other) == FillForm(env, pageUri, doc, ButtonText(""), m)
    ensures TruthyText(Some(text)) && env.buttonForm(pageUri, doc, text).Some? ==>
              FillForm(env, pageUri, doc, ButtonText(text), m) == env.setValues(env.buttonForm(pageUri, doc, text).value, m)
  {
  }

  /** `convertUploadsForTesting`: every file slot keeps its name; a slot whose
      name has an attached upload becomes the test file built from the slot's
      `tmp_name`, the others keep the form's slot. */
  function ConvertUploadsForTesting(files: seq<(string, FileInfo)>, uploads: map<string, string>): (r: seq<(string, Upload)>)
    ensures |r| == |files|
    ensures forall i :: 0 <= i < |files| ==> r[i].0 == files[i].0
    ensures forall i :: 0 <= i < |files| ==>
              r[i].1 == if files[i].0 in uploads then TestFile(files[i].1.tmpName, true) else FormFile(files[i].1)
  {
    seq(|files|, i requires 0 <= i < |files| =>
      (files[i].0, if files[i].0 in uploads then TestFile(files[i].1.tmpName, true) else FormFile(files[i].1)))
  }

  /** The attached path never reaches the request (its basename is computed
      and discarded): only which names have an upload matters. */
  lemma UploadPathIgnored(files: seq<(string, FileInfo)>, u1: map<string, string>, u2: map<string, string>)
    requires u1.Keys == u2.Keys
    ensures ConvertUploadsForTesting(files, u1) == ConvertUploadsForTesting(files, u2)
  {
  }

  /** Uploads are keyed by the selector as given, so an upload attached
      through `#name` never matches a form slot named without `#`. */
  lemma HashUploadNeverMatches(files: seq<(string, FileInfo)>, uploads: map<string, string>)
    requires forall k :: k in uploads ==> StartsWith(k, "#")
    requires forall i :: 0 <= i < |files| ==> '#' !in files[i].0
    ensures forall i :: 0 <= i < |files| ==> ConvertUploadsForTesting(files, uploads)[i].1 == FormFile(files[i].1)
  {
    forall k | k in uploads
      ensures '#' in k
    {
      assert k[0] == '#';
    }
  }

  // ---------------------------------------------------------------- links

  /** The target `click($name)` visits: the first link with that text, or
      else the first anchor with that name or id, resolved against the URI of
      the page it was found on. */
  function ClickTarget(env: Env, pageUri: string, doc: Document, name: string): (r: Result<string>)
    ensures r.Err? <==> Fields.SelectLink(doc, name) == [] && Filter(doc, name, [Tag("a")]) == []
    ensures Fields.SelectLink(doc, name) != [] ==> r == Ok(env.linkUri(pageUri, Fields.SelectLink(doc, name)[0]))
    ensures forall i :: Fields.FirstLinkAt(doc, name, i) ==> r == Ok(env.linkUri(pageUri, doc[i]))
    ensures Fields.SelectLink(doc, name) == [] ==>
              forall i :: FirstMatchAt(doc, name, [Tag("a")], i) ==> r == Ok(env.linkUri(pageUri, doc[i]))
  {
    var byText := Fields.SelectLink(doc, name);
    if byText != [] then Ok(env.linkUri(pageUri, byText[0]))
    else
      var byName := Filter(doc, name, [Tag("a")]);
      if byName != [] then Ok(env.linkUri(pageUri, byName[0]))
      else Err("Could not find a link with a body, name, or ID attribute of [" + name + "].")
  }
}
