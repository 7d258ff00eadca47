/** The test case's own state and the operations that change it: stored
    inputs and uploads (`InteractsWithPages`), the server variables, current
    URI and last response (`CrawlerTrait`), and the page visits of `TestBase`. */
module Harness {
  import opened Wrappers
  import opened Php
  import opened Http
  import opened Dom
  import opened Selectors
  import Urls
  import Crawler
  import Navigation
  import PageChecks

  const MobileAgent := "Mozilla/5.0 (iPhone; CPU iPhone OS 11_0 like Mac OS X) AppleWebKit/604.1.38 (KHTML, like Gecko) Version/11.0 Mobile/15A372 Safari/604.1"
  const DesktopAgent := "Mozilla/5.0 (Macintosh; Intel Mac OS X 10_13_6) AppleWebKit/537.36 (KHTML, like Gecko) Chrome/68.0.3440.106 Safari/537.36"

  /** The User-Agent `pageGet` and `pagePost` install. */
  function UserAgent(isMobile: bool): string
  {
    if isMobile then MobileAgent else DesktopAgent
  }

  /** The server variables `pageGet` and `pagePost` install: the User-Agent only. */
  function PageServerVariables(isMobile: bool): map<string, string>
  {
    map["HTTP_USER_AGENT" := UserAgent(isMobile)]
  }

  /** A page request carries the installed User-Agent unless one of its
      headers maps to `HTTP_USER_AGENT`, in which case the header wins. */
  lemma PageRequestAgent(env: Navigation.Env, baseUrl: string, isMobile: bool, requestMethod: string, uri: string,
                         data: seq<Entry>, headers: seq<(string, string)>)
    ensures var r := Navigation.CallRequest(env, baseUrl, PageServerVariables(isMobile), requestMethod, uri, data, [], [],
                                            Crawler.HeaderVars(headers), "");
            && "HTTP_USER_AGENT" in r.server
            && ("HTTP_USER_AGENT" !in Crawler.HeaderVars(headers) ==> r.server["HTTP_USER_AGENT"] == UserAgent(isMobile))
            && ("HTTP_USER_AGENT" in Crawler.HeaderVars(headers) ==> r.server["HTTP_USER_AGENT"] == Crawler.HeaderVars(headers)["HTTP_USER_AGENT"])
  {
    Crawler.BuildRequestServer(requestMethod, env.parseUrl(Urls.PrepareUrlForRequest(baseUrl, uri)), env.parseQuery,
                               data, [], [], Crawler.HeaderVars(headers), "", PageServerVariables(isMobile));
  }

  class TestCase {
    const env: Navigation.Env
    const baseUrl: string
    const isMobile: bool
    var currentUri: string
    var serverVariables: map<string, string>
    var response: Option<Response>
    var lastRequest: Option<Request>
    var doc: Document
    /** The URI the crawler over `doc` was built with: relative links and
        form actions on the page resolve against it. */
    var pageUri: string
    var inputs: map<string, Navigation.Input>
    var uploads: map<string, string>

    constructor(env: Navigation.Env, baseUrl: string, isMobile: bool)
      ensures this.env == env && this.baseUrl == baseUrl && this.isMobile == isMobile
      ensures currentUri == "" && serverVariables == map[] && response == None && lastRequest == None
      ensures doc == [] && pageUri == "" && inputs == map[] && uploads == map[]
    {
      this.env := env;
      this.baseUrl := baseUrl;
      this.isMobile := isMobile;
      currentUri := "";
      serverVariables := map[];
      response := None;
      lastRequest := None;
      doc := [];
      pageUri := "";
      inputs := map[];
      uploads := map[];
    }

    // -------------------------------------------------------------- inputs

    /** `storeInput`: the element must match something on the page; the value
        is then stored under the name with `#` removed. */
    method StoreInput(element: string, text: Navigation.Input) returns (r: Outcome)
      modifies this`inputs
      ensures Filter(doc, element, Default) == [] ==> r.Fail? && inputs == old(inputs)
      ensures Filter(doc, element, Default) != [] ==> r.Pass? && inputs == old(inputs)[NameOf(element) := text]
    {
      if Filter(doc, element, Default) == [] {
        return Fail("Nothing matched the filter [" + element + "] CSS query provided for [" + currentUri + "].");
      }
      inputs := inputs[NameOf(element) := text];
      r := Pass;
    }

    /** `type($text, $element)`. */
    method Type(text: string, element: string) returns (r: Outcome)
      modifies this`inputs
      ensures Filter(doc, element, Default) == [] ==> r.Fail? && inputs == old(inputs)
      ensures Filter(doc, element, Default) != [] ==> r.Pass? && inputs == old(inputs)[NameOf(element) := Navigation.Text(text)]
    {
      r := StoreInput(element, Navigation.Text(text));
    }

    /** `check($element)`. */
    method Check(element: string) returns (r: Outcome)
      modifies this`inputs
      ensures Filter(doc, element, Default) == [] ==> r.Fail? && inputs == old(inputs)
      ensures Filter(doc, element, Default) != [] ==> r.Pass? && inputs == old(inputs)[NameOf(element) := Navigation.Flag(true)]
    {
      r := StoreInput(element, Navigation.Flag(true));
    }

    /** `uncheck($element)`. */
    method Uncheck(element: string) returns (r: Outcome)
      modifies this`inputs
      ensures Filter(doc, element, Default) == [] ==> r.Fail? && inputs == old(inputs)
      ensures Filter(doc, element, Default) != [] ==> r.Pass? && inputs == old(inputs)[NameOf(element) := Navigation.Flag(false)]
    {
      r := StoreInput(element, Navigation.Flag(false));
    }

    /** `select($option, $element)`. */
    method Select(option: string, element: string) returns (r: Outcome)
      modifies this`inputs
      ensures Filter(doc, element, Default) == [] ==> r.Fail? && inputs == old(inputs)
      ensures Filter(doc, element, Default) != [] ==> r.Pass? && inputs == old(inputs)[NameOf(element) := Navigation.Text(option)]
    {
      r := StoreInput(element, Navigation.Text(option));
    }

    /** `attach($absolutePath, $element)`: the upload is recorded under the
        element exactly as given, before the input check, so it stays even
        when nothing matches. */
    method Attach(absolutePath: string, element: string) returns (r: Outcome)
      modifies this`inputs, this`uploads
      ensures uploads == old(uploads)[element := absolutePath]
      ensures Filter(doc, element, Default) == [] ==> r.Fail? && inputs == old(inputs)
      ensures Filter(doc, element, Default) != [] ==> r.Pass? && inputs == old(inputs)[NameOf(element) := Navigation.Text(absolutePath)]
    {
      uploads := uploads[element := absolutePath];
      r := StoreInput(element, Navigation.Text(absolutePath));
    }

    /** `clearInputs`. */
    method ClearInputs()
      modifies this`inputs, this`uploads
      ensures inputs == map[] && uploads == map[]
    {
      inputs := map[];
      uploads := map[];
    }

    // -------------------------------------------------------------- requests

    /** `withServerVariables($server)`: the stored variables are replaced. */
    method WithServerVariables(server: map<string, string>)
      modifies this`serverVariables
      ensures serverVariables == server
    {
      serverVariables := server;
    }

    /** `call`: records the prepared URI, builds the request, dispatches it and
        keeps the response. */
    method Call(requestMethod: string, uri: string, parameters: seq<Entry>, cookies: seq<Entry>,
                files: seq<(string, Upload)>, server: map<string, string>, content: string)
      modifies this`currentUri, this`response, this`lastRequest
      ensures currentUri == Urls.PrepareUrlForRequest(baseUrl, uri)
      ensures lastRequest == Some(Navigation.CallRequest(env, baseUrl, serverVariables, requestMethod, uri, parameters, cookies, files, server, content))
      ensures response == Some(env.dispatch(lastRequest.value))
    {
      currentUri := Urls.PrepareUrlForRequest(baseUrl, uri);
      var parts := env.parseUrl(currentUri);
      var request := Crawler.BuildRequest(requestMethod, parts, env.parseQuery, parameters, cookies, files, server, content, serverVariables);
      lastRequest := Some(request);
      response := Some(env.dispatch(request));
    }

    /** `get($uri, $headers)`. */
    method Get(uri: string, headers: seq<(string, string)>)
      modifies this`currentUri, this`response, this`lastRequest
      ensures currentUri == Urls.PrepareUrlForRequest(baseUrl, uri)
      ensures lastRequest == Some(Navigation.CallRequest(env, baseUrl, serverVariables, "GET", uri, [], [], [], Crawler.HeaderVars(headers), ""))
      ensures response == Some(env.dispatch(lastRequest.value))
    {
      var server := Crawler.TransformHeadersToServerVars(headers);
      Call("GET", uri, [], [], [], server, "");
    }

    /** `post($uri, $data, $headers)`. */
    method Post(uri: string, data: seq<Entry>, headers: seq<(string, string)>)
      modifies this`currentUri, this`response, this`lastRequest
      ensures currentUri == Urls.PrepareUrlForRequest(baseUrl, uri)
      ensures lastRequest == Some(Navigation.CallRequest(env, baseUrl, serverVariables, "POST", uri, data, [], [], Crawler.HeaderVars(headers), ""))
      ensures response == Some(env.dispatch(lastRequest.value))
    {
      var server := Crawler.TransformHeadersToServerVars(headers);
      Call("POST", uri, data, [], [], server, "");
    }

    /** `put($uri, $data, $headers)`: the data reaches neither GET nor POST parameters. */
    method Put(uri: string, data: seq<Entry>, headers: seq<(string, string)>)
      modifies this`currentUri, this`response, this`lastRequest
      ensures currentUri == Urls.PrepareUrlForRequest(baseUrl, uri)
      ensures lastRequest == Some(Navigation.CallRequest(env, baseUrl, serverVariables, "PUT", uri, data, [], [], Crawler.HeaderVars(headers), ""))
      ensures lastRequest.value.get == [] && lastRequest.value.post == []
      ensures response == Some(env.dispatch(lastRequest.value))
    {
      var server := Crawler.TransformHeadersToServerVars(headers);
      Call("PUT", uri, data, [], [], server, "");
    }

    /** `delete($uri, $data, $headers)`: the data reaches neither GET nor POST parameters. */
    method Delete(uri: string, data: seq<Entry>, headers: seq<(string, string)>)
      modifies this`currentUri, this`response, this`lastRequest
      ensures currentUri == Urls.PrepareUrlForRequest(baseUrl, uri)
      ensures lastRequest == Some(Navigation.CallRequest(env, baseUrl, serverVariables, "DELETE", uri, data, [], [], Crawler.HeaderVars(headers), ""))
      ensures lastRequest.value.get == [] && lastRequest.value.post == []
      ensures response == Some(env.dispatch(lastRequest.value))
    {
      var server := Crawler.TransformHeadersToServerVars(headers);
      Call("DELETE", uri, data, [], [], server, "");
    }

    /** The state `makeRequest` leaves for the visit `v` it performed: it
        passes exactly when the visit landed, fails with the visit's message
        otherwise, and on success holds the landing request and response, the
        URI the framework reports for it and the parsed page. */
    predicate LandedAt(v: Result<Navigation.Landing>, r: Outcome)
      reads this
    {
      && (r.Pass? <==> v.Ok?)
      && (r.Fail? ==> r.message == v.message)
      && (r.Pass? ==> lastRequest == Some(v.value.request) && response == Some(v.value.response) &&
                      currentUri == env.requestUrl(v.value.request) &&
                      doc == env.parseHtml(v.value.response.content) && pageUri == currentUri)
    }

    /** `makeRequest`: the test case ends as the visit leaves it, with no
        stored inputs or uploads whatever the outcome. `fuel` bounds the
        redirects followed. */
    method MakeRequest(requestMethod: string, uri: string, parameters: seq<Entry>, cookies: seq<Entry>,
                       files: seq<(string, Upload)>, fuel: nat) returns (r: Outcome)
      modifies this`currentUri, this`response, this`lastRequest, this`doc, this`pageUri, this`inputs, this`uploads
      ensures LandedAt(Navigation.Visit(env, baseUrl, serverVariables, requestMethod, uri, parameters, cookies, files, fuel), r)
      ensures inputs == map[] && uploads == map[]
      decreases fuel, 1
    {
      var prepared := Urls.PrepareUrlForRequest(baseUrl, uri);
      Call(requestMethod, prepared, parameters, cookies, files, map[], "");
      ClearInputs();
      r := FollowRedirects(fuel);
      if r.Fail? {
        return;
      }
      r := Navigation.AssertPageLoaded(response.value, prepared, None);
      if r.Fail? {
        return;
      }
      currentUri := env.requestUrl(lastRequest.value);
      doc := env.parseHtml(response.value.content);
      pageUri := currentUri;
    }

    /** `followRedirects`: while the response is a redirect, visit its target. */
    method FollowRedirects(fuel: nat) returns (r: Outcome)
      requires response.Some? && lastRequest.Some?
      modifies this`currentUri, this`response, this`lastRequest, this`doc, this`pageUri, this`inputs, this`uploads
      ensures var f := Navigation.Follow(env, baseUrl, serverVariables, Navigation.Landing(old(lastRequest).value, old(response).value), fuel);
              && (r.Pass? <==> f.Ok?)
              && (r.Fail? ==> r.message == f.message)
              && (r.Pass? ==> lastRequest == Some(f.value.request) && response == Some(f.value.response))
              && (r.Pass? && !old(response).value.kind.Redirect? ==>
                    currentUri == old(currentUri) && doc == old(doc) && pageUri == old(pageUri) &&
                    inputs == old(inputs) && uploads == old(uploads))
              && (r.Pass? && old(response).value.kind.Redirect? ==>
                    currentUri == env.requestUrl(lastRequest.value) && doc == env.parseHtml(response.value.content) &&
                    pageUri == currentUri && inputs == map[] && uploads == map[])
      ensures old(inputs) == map[] && old(uploads) == map[] ==> inputs == map[] && uploads == map[]
      decreases fuel, 0
    {
      r := Pass;
      while response.value.kind.Redirect?
        invariant response.Some? && lastRequest.Some?
        invariant r.Pass?
        invariant (lastRequest == old(lastRequest) && response == old(response) && currentUri == old(currentUri) &&
                   doc == old(doc) && pageUri == old(pageUri) && inputs == old(inputs) && uploads == old(uploads))
               || (fuel > 0 && old(response).value.kind.Redirect? && !response.value.kind.Redirect? &&
                   Navigation.Visit(env, baseUrl, serverVariables, "GET", old(response).value.kind.target, [], [], [], fuel - 1)
                     == Ok(Navigation.Landing(lastRequest.value, response.value)) &&
                   currentUri == env.requestUrl(lastRequest.value) && doc == env.parseHtml(response.value.content) &&
                   pageUri == currentUri && inputs == map[] && uploads == map[])
        decreases if response.value.kind.Redirect? then 1 else 0
      {
        if fuel == 0 {
          return Fail(Navigation.TooManyRedirects);
        }
        r := MakeRequest("GET", response.value.kind.target, [], [], [], fuel - 1);
        if r.Fail? {
          return;
        }
      }
    }

    /** `visit($uri)`: a GET through `makeRequest`. */
    method Visit(uri: string, fuel: nat) returns (r: Outcome)
      modifies this`currentUri, this`response, this`lastRequest, this`doc, this`pageUri, this`inputs, this`uploads
      ensures LandedAt(Navigation.Visit(env, baseUrl, serverVariables, "GET", uri, [], [], [], fuel), r)
      ensures inputs == map[] && uploads == map[]
    {
      r := MakeRequest("GET", uri, [], [], [], fuel);
    }

    /** `makeRequestUsingForm($form, $uploads)`: the form's method, target and
        parameters, with the attached uploads converted. */
    method MakeRequestUsingForm(form: Navigation.Form, formUploads: map<string, string>, fuel: nat) returns (r: Outcome)
      modifies this`currentUri, this`response, this`lastRequest, this`doc, this`pageUri, this`inputs, this`uploads
      ensures LandedAt(Navigation.Visit(env, baseUrl, serverVariables, form.requestMethod, form.uri, env.formParameters(form), [],
                                        Navigation.ConvertUploadsForTesting(form.files, formUploads), fuel), r)
      ensures inputs == map[] && uploads == map[]
    {
      var files := Navigation.ConvertUploadsForTesting(form.files, formUploads);
      r := MakeRequest(form.requestMethod, form.uri, env.formParameters(form), [], files, fuel);
    }

    /** `submitForm($buttonText, $inputs, $uploads)`: a form that cannot be
        found or filled fails before any request and changes nothing. */
    method SubmitForm(first: Navigation.FormArgument, formInputs: map<string, Navigation.Input>,
                      formUploads: map<string, string>, fuel: nat) returns (r: Outcome)
      modifies this`currentUri, this`response, this`lastRequest, this`doc, this`pageUri, this`inputs, this`uploads
      ensures var f := Navigation.FillForm(env, old(pageUri), old(doc), first, formInputs);
              && (f.Err? ==> r == Fail(f.message) && unchanged(this))
              && (f.Ok? ==> LandedAt(Navigation.Visit(env, baseUrl, serverVariables, f.value.requestMethod, f.value.uri,
                                                      env.formParameters(f.value), [],
                                                      Navigation.ConvertUploadsForTesting(f.value.files, formUploads), fuel), r) &&
                            inputs == map[] && uploads == map[])
    {
      var form := Navigation.FillForm(env, pageUri, doc, first, formInputs);
      if form.Err? {
        return Fail(form.message);
      }
      r := MakeRequestUsingForm(form.value, formUploads, fuel);
    }

    /** `press($buttonText)`: submit the button's form with the stored inputs and uploads. */
    method Press(buttonText: string, fuel: nat) returns (r: Outcome)
      modifies this`currentUri, this`response, this`lastRequest, this`doc, this`pageUri, this`inputs, this`uploads
      ensures var f := Navigation.FillForm(env, old(pageUri), old(doc), Navigation.ButtonText(buttonText), old(inputs));
              && (f.Err? ==> r == Fail(f.message) && unchanged(this))
              && (f.Ok? ==> LandedAt(Navigation.Visit(env, baseUrl, serverVariables, f.value.requestMethod, f.value.uri,
                                                      env.formParameters(f.value), [],
                                                      Navigation.ConvertUploadsForTesting(f.value.files, old(uploads)), fuel), r) &&
                            inputs == map[] && uploads == map[])
    {
      r := SubmitForm(Navigation.ButtonText(buttonText), inputs, uploads, fuel);
    }

    /** `click($name)`: visit the target of the first matching link; with no
        matching link it fails before any request and changes nothing. */
    method Click(name: string, fuel: nat) returns (r: Outcome)
      modifies this`currentUri, this`response, this`lastRequest, this`doc, this`pageUri, this`inputs, this`uploads
      ensures var t := Navigation.ClickTarget(env, old(pageUri), old(doc), name);
              && (t.Err? ==> r == Fail(t.message) && unchanged(this))
              && (t.Ok? ==> LandedAt(Navigation.Visit(env, baseUrl, serverVariables, "GET", t.value, [], [], [], fuel), r) &&
                            inputs == map[] && uploads == map[])
    {
      var target := Navigation.ClickTarget(env, pageUri, doc, name);
      if target.Err? {
        return Fail(target.message);
      }
      r := Visit(target.value, fuel);
    }

    /** `seePageIs($uri)`: the page loaded and the current URI is the prepared one. */
    method SeePageIs(uri: string) returns (r: Outcome)
      requires response.Some?
      ensures r.Pass? <==> response.value.code == 200 && currentUri == Urls.PrepareUrlForRequest(baseUrl, uri)
    {
      var prepared := Urls.PrepareUrlForRequest(baseUrl, uri);
      r := Navigation.AssertPageLoaded(response.value, prepared, None);
      if r.Pass? && prepared != currentUri {
        r := Fail("Did not land on expected page [" + prepared + "].\n");
      }
    }

    // -------------------------------------------------------------- page checks

    /** The URL `Request::url(true)` reports for the last request. */
    function ReportedUrl(): string
      reads this
    {
      if lastRequest.Some? then env.requestUrl(lastRequest.value) else ""
    }

    /** `pageGet($urlPath, $headers)`: install the User-Agent, GET the page
        without following redirects, then run the page checks. */
    method PageGet(urlPath: string, headers: seq<(string, string)>) returns (r: Outcome)
      modifies this`serverVariables, this`currentUri, this`response, this`lastRequest
      ensures serverVariables == PageServerVariables(isMobile)
      ensures currentUri == Urls.PrepareUrlForRequest(baseUrl, urlPath)
      ensures lastRequest == Some(Navigation.CallRequest(env, baseUrl, serverVariables, "GET", urlPath, [], [], [], Crawler.HeaderVars(headers), ""))
      ensures response == Some(env.dispatch(lastRequest.value))
      ensures r == PageChecks.PageOutcome(response.value, env.requestUrl(lastRequest.value), env.errorDetail)
    {
      WithServerVariables(PageServerVariables(isMobile));
      Get(urlPath, headers);
      r := PageChecks.PageOutcome(response.value, ReportedUrl(), env.errorDetail);
    }

    /** `pagePost($urlPath, $data, $headers)`: as `pageGet`, with a POST. */
    method PagePost(urlPath: string, data: seq<Entry>, headers: seq<(string, string)>) returns (r: Outcome)
      modifies this`serverVariables, this`currentUri, this`response, this`lastRequest
      ensures serverVariables == PageServerVariables(isMobile)
      ensures currentUri == Urls.PrepareUrlForRequest(baseUrl, urlPath)
      ensures lastRequest == Some(Navigation.CallRequest(env, baseUrl, serverVariables, "POST", urlPath, data, [], [], Crawler.HeaderVars(headers), ""))
      ensures response == Some(env.dispatch(lastRequest.value))
      ensures r == PageChecks.PageOutcome(response.value, env.requestUrl(lastRequest.value), env.errorDetail)
    {
      WithServerVariables(PageServerVariables(isMobile));
      Post(urlPath, data, headers);
      r := PageChecks.PageOutcome(response.value, ReportedUrl(), env.errorDetail);
    }
  }
}
