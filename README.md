# iboxs-testing: a verified model of the functional-test harness

iboxs-testing drives an iboxs application from PHPUnit. A test visits a URI,
and the harness builds a framework request and dispatches it in process. It
follows redirects and parses the HTML that comes back. The test can then type
into fields, tick checkboxes, attach files and press buttons, and it asserts on
the page, the JSON body, the headers, the view variables and the session.

This project models the core of that harness in Dafny and proves what it
promises:

- `strings.dfy` (`Strings`): the string built-ins the harness uses. These are
  prefix and suffix tests, `str_replace` of single characters, the bracket
  escape, ASCII `strtoupper` and `implode`.
- `php.dfy` (`Php`): PHP values and ordered arrays, with `Lookup`, `Put` and
  `array_merge`.
- `urls.dfy` (`Urls`): `prepareUrlForRequest` and `addRootToRelativeUrl`.
- `dom.dfy`, `selectors.dfy` (`Dom`, `Selectors`): the page as a sequence of
  element records. Also the selector string of `filterByNameOrId`, and what that
  selector matches.
- `fields.dfy` (`Fields`): the checkbox, select, radio, input and textarea
  readers, `hasLink`, the `see` pattern and `hasInElement`.
- `http.dfy`, `crawler.dfy` (`Http`, `Crawler`): the request and response
  records, the header transform, the request that `call` builds, `seeHeader`
  and `seeStatusCode`.
- `json.dfy` (`Json`): a compact JSON encoder and `Arr::sortRecursive`. Also
  `formatToExpectedJson`, `seeJson`, `seeJsonContains` and `seeJsonEquals`.
- `assertions.dfy` (`Assertions`): status, view, redirect and session assertions.
- `navigation.dfy` (`Navigation`): the request flow as values. This covers
  `makeRequest` with redirect following, `assertPageLoaded`, `getForm`,
  `fillForm`, `convertUploadsForTesting` and the target of `click`.
- `pagechecks.dfy` (`PageChecks`): `responseEquals`, `isErrorContent`,
  `isJsonRetrun`, `error` and the outcome of `pageGet`/`pagePost`.
- `harness.dfy` (`Harness`): the class `TestCase`. It holds the state the
  traits share: stored inputs and uploads, server variables, current URI, last
  request and response, and the parsed page. Its methods change that state as
  the source does, and each method is proved against the `Navigation`
  definitions.

A failed PHPUnit assertion or a thrown exception is an `Outcome.Fail` or a
`Result.Err` carrying the message. A passing one is `Pass` or `Ok`. Routines the
harness calls but does not define are parameters. `Navigation.Env` bundles
those of the request flow:

- the framework dispatcher and `Request::url(true)`;
- `parse_url` and `parse_str`;
- the HTML parser;
- Symfony's form and link objects (finding, filling and encoding a form, and a
  link's URI), which resolve relative targets against the page's URI;
- the regular expression that extracts the error text of an error page.

The others are separate parameters of the members that use them:

- `htmlentities` and `preg_match` are `entities` and `matches` in `Fields`;
- `Route::buildUrl` is `buildUrl` in `Urls` and `Fields`;
- the JSON validity test is `isJson` in `Json` and `PageChecks`.

The code behaves as follows where a reader might expect otherwise:

- `filterByNameOrId` and `storeInput` remove every `#` from the token, not only
  a leading one.
- The bracket escape is applied only to the id half of the selector. The
  `name='…'` half keeps the raw name.
- `attach` records the upload under the selector exactly as given (with any
  `#`). It does so before the filter check.
- The uploaded test file is built from the form slot's `tmp_name` only. The
  basename of the attached path is computed and then thrown away.
- `makeRequest` clears inputs and uploads right after `call`. This happens
  before redirects are followed and before the page-load check, not only after
  a successful landing.
- Only POST requests receive the parameters as a body. PUT and DELETE data
  reaches neither the GET nor the POST map.
- The landing check requires status exactly 200, not any 2xx.
- The select reader takes the first `selected` option, and `isChecked` reads
  the first matching checkbox.
- `ltrim` removes every leading `/` from the path info.

## Model

| member | source | states |
|---|---|---|
| Urls.PrepareUrlForRequest | src/InteractsWithPages.php:674-685 | with at most one leading `/` dropped from the URI, what is left is returned as it is when it starts with `http`, and otherwise requested as `baseUrl . '/'` followed by it |
| Urls.PrepareKeepsTail | src/InteractsWithPages.php:676-679 | only one leading slash is dropped: the result ends with the URI less at most its first character, and `//x` becomes `baseUrl . '/x'` with one slash kept |
| Urls.PrepareAbsolute | src/InteractsWithPages.php:681-683 | a URI starting with `http` is returned unchanged |
| Urls.PrepareDefaultBase | src/TestBase.php:24 | with the default empty base URL a relative URI is requested from the root: `/x` stays `/x` and `x` becomes `/x` |
| Urls.PrepareIdempotent | src/InteractsWithPages.php:569 | with an empty or absolute base URL, preparing twice (in `makeRequest`, then in `call`) is the same as preparing once |
| Urls.PrepareTwiceWithRelativeBase | src/CrawlerTrait.php:96 | with any relative base URL (not starting with `/` or `http`) and any relative URI, one preparation gives `base/uri` and the double preparation of `makeRequest` then `call` gives `base/base/uri` |
| Urls.AddRootToRelativeUrlCases | src/InteractsWithPages.php:179-185 | URLs starting with `http` (which covers `https`) are kept; every other URL goes through the URL builder |
| Selectors.NameOf | src/InteractsWithPages.php:547 | the token with every `#` removed holds no `#`, keeps every other character as often as the token does, and is the token itself when it has no `#` |
| Selectors.Clauses | src/InteractsWithPages.php:549-555 | exactly one `T#id, T[name='name']` clause per candidate tag, in order |
| Selectors.HashIsIgnored | src/InteractsWithPages.php:545-557 | `#token` and `token` give the same selector string, and so does the token with its `#`s removed |
| Selectors.IdHalfEscapesBrackets | src/InteractsWithPages.php:548 | the id half holds no `#`, and unescaping its brackets gives back the raw name of the name half |
| Selectors.ArrayFieldName | src/InteractsWithPages.php:547 | for a bracketed field name `#n[]` (no `#` in `n`), the name half is `n[]` unchanged |
| Selectors.ArrayFieldId | src/InteractsWithPages.php:548 | for `#n[]` with a plain `n`, the id half is `n\[\]`: only the brackets are escaped |
| Selectors.Filter | src/InteractsWithPages.php:556 | for a token that is a CSS identifier (possibly with brackets), the filtered elements are exactly the page's elements of a candidate tag whose id or name is the stripped token, and the first of them is the page's first such element |
| Selectors.FilterIgnoresHash | src/InteractsWithPages.php:545-557 | filtering by `#email` and by `email` selects the same elements |
| Selectors.FilterSameName | src/InteractsWithPages.php:547 | tokens that agree once `#` is removed select the same elements |
| Strings.EscapeBracketsPerChar | src/InteractsWithPages.php:548 | the sequential `[` then `]` replacement escapes each bracket exactly once |
| Strings.UnescapeEscapeBrackets | src/InteractsWithPages.php:548 | the bracket escape loses nothing for input without a backslash |
| Strings.RemoveChar | src/InteractsWithPages.php:490 | the stripped string holds no `#`, is no longer, holds only characters of the input, and is the input itself when it holds no `#` |
| Strings.RemoveCharCounts | src/InteractsWithPages.php:490 | stripping keeps every other character exactly as often as the input holds it |
| Selectors.RemoveCharAppend | src/InteractsWithPages.php:547 | removing `#` works character by character in order: stripping a concatenation is concatenating the stripped parts |
| Fields.IsChecked | src/InteractsWithPages.php:250-258 | fails iff no checkbox has that name or id; otherwise the first matching checkbox decides, true iff it carries `checked` |
| Fields.GetSelectedValueFromSelect | src/InteractsWithPages.php:316-330 | fails iff the element is not a select; null iff no child option is selected; otherwise the value of the first selected option |
| Fields.GetCheckedValueFromRadioGroup | src/InteractsWithPages.php:336-347 | fails iff the group is empty or its first element is not `input[type=radio]`; null iff nothing is checked; otherwise the value of the first checked radio |
| Fields.GetSelectedValue | src/InteractsWithPages.php:295-310 | fails iff nothing has the name or id or the first match is neither a select nor a radio input; for a select, null iff no option is selected and otherwise the first selected option's value; for a radio group, null iff nothing in the group is checked and otherwise the first checked member's value |
| Fields.GetInputOrTextAreaValueCases | src/InteractsWithPages.php:432-446 | fails iff nothing matches; an input gives its `value` attribute, a textarea its text |
| Fields.HasLink | src/InteractsWithPages.php:151-172 | true iff a link has the text (in its body or in a child image's `alt`) and, unless the URL is null or empty (the loose `null ==`), one such link's `href` equals the URL after a relative URL is resolved |
| Fields.PregQuoteRoundTrip | src/InteractsWithPages.php:469 | quoting the text for a regular expression (a backslash before each special character, NUL written as `\000`) loses nothing |
| Fields.TextPatternCases | src/InteractsWithPages.php:67-70 | the pattern is the quoted raw text alone when escaping changes nothing, and `(raw\|escaped)` otherwise |
| Fields.See | src/InteractsWithPages.php:64-73 | passes iff the case-insensitive match of the pattern against the body differs from `negate` |
| Fields.SeePlainText | src/InteractsWithPages.php:66-71 | for text that `htmlentities` leaves unchanged, `see` matches the quoted text alone |
| Fields.NotSeeIsNegatedSee | src/InteractsWithPages.php:79-82 | for the same body and text exactly one of `see` and `notSee` passes |
| Fields.HasInElement | src/InteractsWithPages.php:466-480 | true iff some selected element's inner markup matches the case-insensitive pattern |
| Fields.AnyMarkupMatches | src/InteractsWithPages.php:474-479 | the loop returns true iff some element's inner markup matches the pattern |
| Crawler.TransformHeadersToServerVars | src/CrawlerTrait.php:297-309 | the loop builds exactly the map of the headers written in order |
| Crawler.ServerVarNameShape | src/CrawlerTrait.php:302-305 | every transformed name is upper-case, holds no `-`, and starts with `HTTP_` or is `CONTENT_TYPE` |
| Crawler.ServerVarNameIdempotent | src/CrawlerTrait.php:302-305 | transforming a transformed name changes nothing |
| Crawler.HeaderVarsSpec | src/CrawlerTrait.php:301-306 | the names are exactly the transformed header names; each holds the value of the last header with that name, unchanged |
| Crawler.AssignLastWins | src/CrawlerTrait.php:306 | when two headers write the same name, the later value is kept |
| Crawler.HeaderVarsIdempotent | src/CrawlerTrait.php:297-309 | transforming the entries of the transformed map gives back the same map |
| Crawler.BuildRequestServer | src/CrawlerTrait.php:109-130 | the five derived keys always hold the derived values, with `REQUEST_URI == PATH_INFO == path`; every other key comes from the caller's server array, else from the stored server variables; the base URL is the path and the path info is the path without leading slashes |
| Crawler.BuildRequestRouting | src/CrawlerTrait.php:121-130 | parameters reach GET only for GET and POST only for POST, so PUT and DELETE data is dropped |
| Crawler.GetParametersOverrideQuery | src/CrawlerTrait.php:104-107 | for GET with a query, the caller's value wins on an equal string key, and query keys the caller does not set are kept |
| Crawler.NonGetIgnoresQuery | src/CrawlerTrait.php:104 | a non-GET request does not depend on how the query string would parse |
| Crawler.TrimLeadingSlashes | src/CrawlerTrait.php:130 | the path info starts with no `/`, is a suffix of the path, and everything the path has before it is `/` |
| Crawler.SeeHeader | src/CrawlerTrait.php:250-261 | passes iff the header is present and non-empty under exactly that name and, when a value is given, equal to it |
| Crawler.SeeStatusCode | src/CrawlerTrait.php:239-243 | passes iff the status equals the expected one |
| Php.ArrayMergeStrKey | src/CrawlerTrait.php:106 | `array_merge` gives a string key the second array's value when it has one, the first array's otherwise |
| Php.Put | src/InteractsWithPages.php:491 | the stored key maps to the new value and every other key is unchanged |
| Json.FormatToExpectedJsonCases | src/CrawlerTrait.php:203-213 | a string key gives `"key":value` with one brace stripped from each end; key 0 gives `[value]`, which keeps its brackets; other integer keys are quoted |
| Json.KeySort | src/CrawlerTrait.php:162 | the sorted entries are a permutation of the input and, with distinct keys, strictly ordered by key |
| Json.SortedUnique | src/CrawlerTrait.php:162 | two strictly sorted permutations of the same entries are equal |
| Json.CanonOrderInsensitive | src/CrawlerTrait.php:161-166 | canonicalising an object does not depend on the order of its entries |
| Json.SeeJsonEquals | src/CrawlerTrait.php:159-168 | a body that is not a JSON array fails; otherwise passes iff the canonicalised expected and actual encodings are equal |
| Json.SeeJsonEqualsOrderInsensitive | src/CrawlerTrait.php:159-168 | a body holding the expected entries in any order passes `seeJsonEquals` |
| Json.CheckFragments | src/CrawlerTrait.php:187-193 | passes iff every expected top-level entry's fragment is a substring of the actual JSON (none is, with `negate`) |
| Json.SeeJsonContains | src/CrawlerTrait.php:175-195 | fails when the body decodes to null or false; otherwise passes iff every canonicalised expected fragment is found (or, negated, none is) |
| Json.SeeJson | src/CrawlerTrait.php:144-153 | without data it passes iff the body is JSON; with data it fails on a body that decodes to null or false and otherwise passes iff every canonicalised expected fragment is found (or, negated, none is) |
| Assertions.AssertResponseOk | src/AssertionsTrait.php:14-19 | passes iff the status is 200 |
| Assertions.AssertResponseStatus | src/AssertionsTrait.php:25-30 | passes iff the status equals the given code |
| Assertions.ViewHasScalar | src/AssertionsTrait.php:36-51 | fails with "The response was not a view." on another response; on a view, a null value asks for the key to be present, any other value for equality |
| Assertions.ViewHasAllEvery | src/AssertionsTrait.php:56-65 | a batch passes iff every binding passes, and a failing batch reports its first failing binding |
| Assertions.ViewHasNames | src/AssertionsTrait.php:58-61 | a batch of integer-keyed names passes on a view iff every name is a variable, and fails as "not a view" on another response |
| Assertions.AssertViewMissing | src/AssertionsTrait.php:70-77 | fails on a response that is not a view; on a view it passes iff the key is an integer or a string and is absent, and any other key fails |
| Assertions.AssertRedirectedTo | src/AssertionsTrait.php:83-86 | passes iff the response is a redirect |
| Assertions.RedirectArgumentsIgnored | src/AssertionsTrait.php:83-86 | the target and parameters given make no difference |
| Assertions.SessionHasScalar | src/AssertionsTrait.php:92-103 | a null value checks that the key is present, any other value that the stored value equals it |
| Assertions.SessionHasAllFlat | src/AssertionsTrait.php:108-117 | a flat batch passes iff every entry holds: an integer key means its value must be a present key, a string key means the stored value must equal the value |
| Navigation.AssertPageLoaded | src/InteractsWithPages.php:595-604 | passes iff the status is 200; the failure carries the given message if truthy, else the URI and status |
| Navigation.Visit | src/InteractsWithPages.php:567-575 | a successful request lands on a 200 response that is not a redirect |
| Navigation.Follow | src/InteractsWithPages.php:661-667 | following succeeds only on a response that is not a redirect, and a non-redirect response is kept as it is |
| Navigation.VisitDirect | src/InteractsWithPages.php:569-571 | without a redirect, the request lands on the first response and succeeds iff its status is 200 |
| Navigation.VisitRedirect | src/InteractsWithPages.php:661-667 | a redirect is followed by a GET of its target without parameters, cookies or files, and the request ends where that one ends |
| Navigation.GetForm | src/InteractsWithPages.php:526-538 | a truthy button text selects that button's form, anything else the page's first form, each looked up on the page at its URI; no form is an error |
| Navigation.FillForm | src/InteractsWithPages.php:513-520 | with the inputs passed first, the first form is filled with them; a button text whose form is missing fails with the form lookup's message; a failure of `setValues` is passed on unchanged |
| Navigation.FillFormOverload | src/InteractsWithPages.php:515-518 | passing the inputs first ignores the second argument; a truthy button text fills that button's form |
| Navigation.ConvertUploadsForTesting | src/InteractsWithPages.php:611-635 | every slot keeps its name; a slot with an upload becomes the test file built from its `tmp_name`, and the others are kept |
| Navigation.UploadPathIgnored | src/InteractsWithPages.php:633-634 | the attached path never reaches the request; only which names have an upload matters |
| Navigation.HashUploadNeverMatches | src/InteractsWithPages.php:611-623 | uploads attached through `#name` never match a form slot |
| Navigation.ClickTarget | src/InteractsWithPages.php:353-366 | fails iff no link has that text and no anchor has that name or id; otherwise the first link with the text wins, and without one the first anchor with that name or id, its URI resolved against the page's URI |
| Harness.PageRequestAgent | src/TestBase.php:44-52 | a page request carries the User-Agent chosen by `isMobile`, unless a header maps to `HTTP_USER_AGENT` |
| Harness.TestCase.StoreInput | src/InteractsWithPages.php:487-506 | nothing matching fails and leaves the inputs alone; otherwise the value is stored under the token without `#` and nothing else changes |
| Harness.TestCase.Type | src/InteractsWithPages.php:373-376 | stores the text under the stripped token |
| Harness.TestCase.Check | src/InteractsWithPages.php:382-385 | stores `true` under the stripped token |
| Harness.TestCase.Uncheck | src/InteractsWithPages.php:391-394 | stores `false` under the stripped token |
| Harness.TestCase.Select | src/InteractsWithPages.php:401-404 | stores the option under the stripped token |
| Harness.TestCase.Attach | src/InteractsWithPages.php:411-416 | the upload is recorded under the raw selector even when the input check then fails |
| Harness.TestCase.ClearInputs | src/InteractsWithPages.php:651-656 | inputs and uploads are empty |
| Harness.TestCase.WithServerVariables | src/CrawlerTrait.php:286-290 | the server variables are replaced, not merged |
| Harness.TestCase.Call | src/CrawlerTrait.php:94-137 | records the prepared URI, sends the request built from the stored server variables and keeps its response; the page and the URI it was loaded from stay as they were |
| Harness.TestCase.Get | src/CrawlerTrait.php:38-43 | sends a GET with the transformed headers as server array |
| Harness.TestCase.Post | src/CrawlerTrait.php:51-56 | sends a POST with the data and the transformed headers |
| Harness.TestCase.Put | src/CrawlerTrait.php:64-69 | sends a PUT whose data reaches neither parameter map |
| Harness.TestCase.Delete | src/CrawlerTrait.php:77-82 | sends a DELETE whose data reaches neither parameter map |
| Harness.TestCase.MakeRequest | src/InteractsWithPages.php:567-575 | succeeds iff the request lands, failing with the visit's message otherwise; on success the state holds the landing request and response, the URI the framework reports, the parsed page and, as the page's own URI, that same reported URI; inputs and uploads are empty whatever the outcome |
| Harness.TestCase.FollowRedirects | src/InteractsWithPages.php:661-667 | on a final response nothing changes; on a redirect the loop ends where a GET of the target ends, with that landing's URI and parsed page and no inputs or uploads; with none stored before, none are stored after |
| Harness.TestCase.Visit | src/InteractsWithPages.php:40-44 | the state a GET through `makeRequest` leaves: the landing request, response, reported URI and parsed page on success, the visit's message on failure, and no inputs or uploads |
| Harness.TestCase.MakeRequestUsingForm | src/InteractsWithPages.php:582-589 | the state `makeRequest` leaves for the form's method, URI and parameters with the converted uploads, and no inputs or uploads |
| Harness.TestCase.SubmitForm | src/InteractsWithPages.php:52-57 | the form is looked up on the page last loaded and resolved against that page's URI, which a plain call does not change; a form that cannot be found or filled fails with that message and nothing changed; otherwise the state `makeRequest` leaves for the filled form, with no inputs or uploads |
| Harness.TestCase.Press | src/InteractsWithPages.php:422-425 | submits the button's form, looked up on the page last loaded and resolved against that page's URI, filled with the stored inputs and uploads; a missing or unfillable form changes nothing, otherwise the state is the form request's landing with no inputs or uploads |
| Harness.TestCase.Click | src/InteractsWithPages.php:353-366 | the link is looked up on the page last loaded and resolved against that page's URI, which a plain call does not change; with no link to follow it fails with nothing changed; otherwise the state a GET of the link target through `makeRequest` leaves |
| Harness.TestCase.SeePageIs | src/InteractsWithPages.php:452-459 | passes iff the page loaded with status 200 and the current URI is the prepared one |
| Harness.TestCase.PageGet | src/TestBase.php:42-68 | installs only the User-Agent, records the prepared URI as the current one, sends one GET without following redirects, and its outcome is the page check of the response |
| Harness.TestCase.PagePost | src/TestBase.php:76-101 | as `pageGet`, with a POST carrying the data; the current URI is the prepared one |
| PageChecks.Strpos | src/TestBase.php:130 | the first offset of the needle: the needle is there and at no earlier offset, and there is none iff it does not occur |
| PageChecks.ResponseEquals | src/TestBase.php:155-163 | fails iff the data is an array with a non-null `code` that does not loosely equal 1 |
| PageChecks.IsErrorContent | src/TestBase.php:122-139 | returns true for no response; otherwise passes iff the marker is absent or found at offset 0 |
| PageChecks.IsErrorContentMarker | src/TestBase.php:130-138 | fails exactly when the marker occurs in the body but not at its start |
| PageChecks.IsJsonReturn | src/TestBase.php:107-116 | returns false for no response; otherwise passes iff the body is JSON |
| PageChecks.ErrorMessage | src/TestBase.php:170-177 | the message is the URL line, then the error-heading line, then the given message, and nothing else |
| PageChecks.PageOutcomePasses | src/TestBase.php:53-67 | passes iff the status is 301 or 302, or it is 200 with an envelope code loosely 1 (if any) and no error marker after offset 0 |

## Left out

- `RpcClientTrait`, `TestRpcBase`, `Service`, `command/Test.php` and the
  bootstrap hooks `setUp`, `tearDown`, `setUpBeforeClass` and
  `tearDownAfterClass` are not part of this model. They deal with network
  clients, console commands and one-time setup.
- `ApplicationTrait` (`seeInDatabase` and the session helpers) is not part of
  this model. It wraps the database query builder and the session facade.
- `seeCookie`, `seeController` and `seeAction` are left out. They only compare
  against the Cookie and Request facades.
- The assertion wrappers `seeInField`, `seeIsChecked`, `seeIsSelected`,
  `seeLink` and their negations are left out. They only call the modelled
  readers and compare the result.
- HTML parsing and CSS evaluation are replaced by a flat sequence of element
  records. The page's elements are listed in document order, and the
  name-or-id selector is given its meaning as a predicate (`Selectors.Filter`).
- `Form::getValues`, `setValues` and the `http_build_query`/`parse_str`
  round trip of `extractParametersFromForm` are parameters of `Navigation.Env`.
  `setValues` may fail, as the DOM library does for a name the form has no
  field for; which names those are is the parameter's business.
- Fields.HasLink: the link text and the image `alt` are compared as the
  parser gives them. XPath's `normalize-space` (collapsing runs of white
  space) is not applied, and the page's elements are matched one by one
  rather than through their ancestors. The `href` is compared with `==` as strings,
  while PHP's loose `==` also treats two numeric strings such as `1` and
  `01` as equal.
- Selectors.Filter: the token is assumed to be a CSS identifier, possibly
  with brackets. The source pastes it into a CSS selector, so a token holding
  `.`, `:`, white space, `,`, `>`, `+`, `~` or a quote means something else
  there (`user.name` selects id `user` with class `name`); the model still
  compares the id and name with the token.
- The console writes of `errorCapture` and `pageGet` are not modelled. They
  print and assert nothing.
- Resetting the middleware before each dispatch (`App::delete('middleware')`)
  is left out, because the dispatcher is a parameter.
- The scheme and port that `call` computes are not modelled, because they are
  never used.
- Harness.TestCase.MakeRequest: the source follows redirects without a bound.
  The `fuel` parameter bounds the number followed, and running out fails with
  "Too many redirects.". The bound is the model's own.
- Navigation.Visit: the same redirect bound applies.
- Json.KeySort: keys are ordered by a model order (integer keys first, then
  strings by character code), not by PHP's `ksort` comparison. Lists keep
  their order, because sorting the values of lists is not modelled.
- Json.SeeJsonEquals: inherits the Json.KeySort gap. A body `[2,1]` against
  an expected `[1,2]` passes in PHP, which sorts both lists, and fails here.
- Json.SeeJsonContains: inherits the Json.KeySort gap. The body and the
  expected fragments keep their lists in their original order where PHP sorts
  both, so a fragment whose list is ordered differently from the body's is not
  found here.
- Json.SeeJson: inherits the Json.KeySort gap through Json.SeeJsonEquals and
  Json.SeeJsonContains.
- Json.Encode: the encoder has no string escaping, `\/` escaping or Unicode
  escapes. Numbers are integers only.
- Assertions.ViewHasScalar: `assertEquals` is modelled as structural equality
  of values, not PHP's loose comparison. Keys that are numeric strings are not
  converted to integers.
- Assertions.SessionHasScalar: session keys are the string form of the key.
  The session is the `Session` pair of `has` and `get`, and dotted names are
  not interpreted. `assertEquals` is modelled as structural equality of
  values, not PHP's loose comparison.
- PageChecks.ResponseEquals: the loose `1 == code` is modelled for integers,
  booleans and the string `"1"` only, not for other numeric strings such as
  `"1.0"`.
- The `assertEquals` loose comparisons of `assertResponseStatus`,
  `seeStatusCode` and `seeHeader` are modelled as equality of integers and
  strings.
- Strings.ToUpper: only ASCII letters are upper-cased, as `strtoupper` does
  from PHP 8.2 on. Earlier versions follow the locale, which is not modelled.
- The inputs and uploads are Dafny maps, so the insertion order of the PHP
  arrays is not kept. The form receives them as a mapping.
- Failures are returned as values. The exception classes PHPUnit and the
  harness throw, and their full message texts, are not modelled.
