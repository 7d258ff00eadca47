/** `TestBase`: the checks `pageGet` and `pagePost` run on a response, and the
    error-message builder they share. */
module PageChecks {
  import opened Wrappers
  import opened Strings
  import opened Php
  import opened Http

  /** `strpos($s, $sub)`: the first offset of `sub` in `s`, if any. */
  function Strpos(s: string, sub: string): (r: Option<nat>)
    ensures r.Some? ==> r.value + |sub| <= |s| && s[r.value..r.value + |sub|] == sub
    ensures r.Some? ==> forall j :: 0 <= j < r.value ==> !StartsWith(s[j..], sub)
    ensures r.None? <==> !Occurs(s, sub)
    decreases |s|
  {
    if StartsWith(s, sub) then Some(0)
    else if s == [] then None
    else
      match Strpos(s[1..], sub)
      case None => None
      case Some(i) =>
        StrposShift(s, sub, i);
        Some(i + 1)
  }

  /** A first match at `i` in the tail is a first match at `i + 1` in `s`
      when `s` itself does not start with `sub`. */
  lemma StrposShift(s: string, sub: string, i: nat)
    requires s != [] && !StartsWith(s, sub)
    requires i + |sub| <= |s[1..]| && s[1..][i..i + |sub|] == sub
    requires forall j :: 0 <= j < i ==> !StartsWith(s[1..][j..], sub)
    ensures i + 1 + |sub| <= |s| && s[i + 1..i + 1 + |sub|] == sub
    ensures forall j :: 0 <= j < i + 1 ==> !StartsWith(s[j..], sub)
  {
    assert s[i + 1..i + 1 + |sub|] == s[1..][i..i + |sub|];
    forall j | 0 <= j < i + 1
      ensures !StartsWith(s[j..], sub)
    {
      if j > 0 {
        assert s[j..] == s[1..][j - 1..];
      }
    }
  }

  /** `error($msg)`: the page URL, then the message. */
  function ErrorMessage(url: string, msg: string): (r: string)
    ensures StartsWith(r, "访问地址：" + url + "\n") && EndsWith(r, msg)
    ensures |r| == |url| + |msg| + 12
    ensures r[|url| + 6..|url| + 12] == "错误信息：\n"
  {
    "访问地址：" + url + "\n" + "错误信息：\n" + msg
  }

  /** The result of a check that either returns a value without asserting
      anything, or asserts. */
  datatype Check = Returned(value: bool) | Asserted(outcome: Outcome)

  /** The loose `1 == $code` of `assertEquals(1, $code)` for the values a
      JSON envelope carries. */
  predicate LooselyOne(v: Value)
  {
    match v
    case Int(n) => n == 1
    case Bool(b) => b
    case Str(s) => s == "1"
    case _ => false
  }

  /** `isset($data['code'])`: present and not null. */
  function CodeOf(data: Value): (r: Option<Value>)
    ensures r.Some? ==> data.Arr? && !r.value.Null? && Lookup(data.entries, StrKey("code")) == r
    ensures data.Arr? && Lookup(data.entries, StrKey("code")).Some? && !Lookup(data.entries, StrKey("code")).value.Null? ==> r.Some?
  {
    if data.Arr? then
      match Lookup(data.entries, StrKey("code"))
      case Some(c) => if c.Null? then None else Some(c)
      case None => None
    else None
  }

  /** `responseEquals`: only array data with a non-null `code` is checked,
      and then the code must loosely equal 1. */
  function ResponseEquals(data: Value, url: string): (r: Outcome)
    ensures r.Fail? <==> CodeOf(data).Some? && !LooselyOne(CodeOf(data).value)
  {
    match CodeOf(data)
    case Some(c) => if LooselyOne(c) then Pass else Fail(ErrorMessage(url, "返回Response对象：" + ScalarString(data)))
    case None => Pass
  }

  const SystemMessageMarker := ".system-message .success,.system-message .error"

  /** `isErrorContent`: no response returns true; otherwise the offset of
      the error-page marker is compared loosely with `false`, so only a marker
      found after offset 0 fails. `detail` stands for the regular expression
      that extracts the error text from the page. */
  function IsErrorContent(response: Option<Response>, url: string, detail: string -> Option<string>): (r: Check)
    ensures response.None? <==> r == Returned(true)
    ensures response.Some? ==>
              r.Asserted? && (r.outcome.Pass? <==> Strpos(response.value.content, SystemMessageMarker) in {None, Some(0)})
  {
    match response
    case None => Returned(true)
    case Some(resp) =>
      match Strpos(resp.content, SystemMessageMarker)
      case None => Asserted(Pass)
      case Some(i) =>
        if i == 0 then Asserted(Pass)
        else
          var message := "地址 " + url + " 页面提示错误";
          var full := match detail(resp.content) case Some(d) => message + " ，错误提示：" + d case None => message;
          Asserted(Fail(ErrorMessage(url, full)))
  }

  /** The marker fails the check exactly when it occurs but not at the start. */
  lemma IsErrorContentMarker(resp: Response, url: string, detail: string -> Option<string>)
    ensures IsErrorContent(Some(resp), url, detail).outcome.Fail? <==>
              Occurs(resp.content, SystemMessageMarker) && !StartsWith(resp.content, SystemMessageMarker)
  {
    var p := Strpos(resp.content, SystemMessageMarker);
    if p == Some(0) {
      assert resp.content[0..|SystemMessageMarker|] == SystemMessageMarker;
      assert resp.content[..|SystemMessageMarker|] == resp.content[0..|SystemMessageMarker|];
    }
    if p.Some? && p.value > 0 {
      assert resp.content[0..] == resp.content;
    }
  }

  /** `isJsonRetrun`: no response returns false; otherwise the body must be JSON. */
  function IsJsonReturn(response: Option<Response>, url: string, isJson: string -> bool): (r: Check)
    ensures response.None? <==> r == Returned(false)
    ensures response.Some? ==> r.Asserted? && (r.outcome.Pass? <==> isJson(response.value.content))
  {
    match response
    case None => Returned(false)
    case Some(resp) => if isJson(resp.content) then Asserted(Pass) else Asserted(Fail(" 地址 " + url + " 返回的数据不是JSON格式数据"))
  }

  /** What `pageGet` and `pagePost` assert once the response is in: nothing for
      301 and 302; otherwise `responseEquals`, status 200, then `isErrorContent`,
      stopping at the first failure. */
  function PageOutcome(resp: Response, url: string, detail: string -> Option<string>): Outcome
  {
    if resp.code in {301, 302} then Pass
    else
      Then(ResponseEquals(resp.data, url),
           Then(if resp.code == 200 then Pass else Fail(ErrorMessage(url, "GET 请求状态不正确，不是预期的 200")),
                IsErrorContent(Some(resp), url, detail).outcome))
  }

  /** A page check passes iff the response redirects, or it is a 200 whose
      envelope code (if any) is loosely 1 and whose body shows no error marker
      past offset 0. */
  lemma PageOutcomePasses(resp: Response, url: string, detail: string -> Option<string>)
    ensures PageOutcome(resp, url, detail).Pass? <==>
              resp.code in {301, 302} ||
              (resp.code == 200 && ResponseEquals(resp.data, url).Pass? &&
               !(Occurs(resp.content, SystemMessageMarker) && !StartsWith(resp.content, SystemMessageMarker)))
    ensures PageOutcome(resp, url, detail).Pass? ==> resp.code in {200, 301, 302}
  {
    IsErrorContentMarker(resp, url, detail);
  }
}
