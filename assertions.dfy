/** `AssertionsTrait`: status, view, redirect and session assertions over the
    last response and an abstract session store. */
module Assertions {
  import opened Wrappers
  import opened Php
  import opened Http

  const NotAView := "The response was not a view."

  /** The session facade: `Session::has` and `Session::get`. */
  datatype Session = Session(has: string -> bool, get: string -> Value)

  /** `assertResponseOk`. */
  function AssertResponseOk(response: Response): (r: Outcome)
    ensures r.Pass? <==> response.code == 200
  {
    if response.code == 200 then Pass
    else Fail("Expected status code 200, got " + Strings.IntToString(response.code) + ".")
  }

  /** `assertResponseStatus($code)`. */
  function AssertResponseStatus(response: Response, code: int): (r: Outcome)
    ensures r.Pass? <==> response.code == code
  {
    if code == response.code then Pass
    else Fail("Expected status code " + Strings.IntToString(code) + ", got " + Strings.IntToString(response.code) + ".")
  }

  // ---------------------------------------------------------------- views

  /** A scalar used as an array key; only integers and strings are keys. */
  function AsKey(key: Value): (r: Option<Key>)
    ensures r.Some? <==> key.Int? || key.Str?
  {
    match key
    case Int(n) => Some(IntKey(n))
    case Str(s) => Some(StrKey(s))
    case _ => None
  }

  /** `getVars($key)`: the variable, or null when there is none. */
  function VarOf(vars: seq<Entry>, key: Value): (r: Value)
    ensures AsKey(key).Some? && Lookup(vars, AsKey(key).value).Some? ==> r == Lookup(vars, AsKey(key).value).value
  {
    match AsKey(key)
    case Some(k) => (match Lookup(vars, k) case Some(v) => v case None => Null)
    case None => Null
  }

  /** `assertViewHas` for a key that is not an array. */
  function ViewHasScalar(response: Response, key: Value, value: Value): (r: Outcome)
    ensures !response.kind.View? ==> r == Fail(NotAView)
    ensures response.kind.View? && value.Null? ==>
              (r.Pass? <==> AsKey(key).Some? && Lookup(response.kind.vars, AsKey(key).value).Some?)
    ensures response.kind.View? && !value.Null? ==> (r.Pass? <==> VarOf(response.kind.vars, key) == value)
  {
    if !response.kind.View? then Fail(NotAView)
    else if value.Null? then
      match AsKey(key)
      case None => Fail("Argument #1 of assertArrayHasKey must be an integer or a string.")
      case Some(k) => if Lookup(response.kind.vars, k).Some? then Pass else Fail("Failed asserting that an array has the key.")
    else if VarOf(response.kind.vars, key) == value then Pass
    else Fail("Failed asserting that two values are equal.")
  }

  /** `assertViewHas($key, $value)`: an array key is a batch of bindings. */
  function ViewHas(response: Response, key: Value, value: Value): Outcome
    decreases key
  {
    if key.Arr? then ViewHasAll(response, key.entries) else ViewHasScalar(response, key, value)
  }

  /** One binding of a batch: an integer key makes its value a key that must
      be present, a string key asks for that variable to equal the value. */
  function ViewHasEntry(response: Response, e: Entry): Outcome
    decreases e
  {
    match e.key
    case IntKey(_) => ViewHas(response, e.val, Null)
    case StrKey(s) => ViewHasScalar(response, Str(s), e.val)
  }

  /** `assertViewHasAll($bindings)`: the bindings in order, stopping at the first failure. */
  function ViewHasAll(response: Response, bindings: seq<Entry>): Outcome
    decreases bindings
  {
    if bindings == [] then Pass else Then(ViewHasEntry(response, bindings[0]), ViewHasAll(response, bindings[1..]))
  }

  /** A batch passes iff every binding passes, and a failing batch reports the
      first failing binding. */
  lemma {:induction false} ViewHasAllEvery(response: Response, bindings: seq<Entry>)
    ensures ViewHasAll(response, bindings).Pass? <==> forall i :: 0 <= i < |bindings| ==> ViewHasEntry(response, bindings[i]).Pass?
    ensures ViewHasAll(response, bindings).Fail? ==>
              exists i :: 0 <= i < |bindings| && ViewHasAll(response, bindings) == ViewHasEntry(response, bindings[i]) &&
                          forall j :: 0 <= j < i ==> ViewHasEntry(response, bindings[j]).Pass?
    decreases |bindings|
  {
    if bindings != [] {
      ViewHasAllEvery(response, bindings[1..]);
      if ViewHasEntry(response, bindings[0]).Pass? && ViewHasAll(response, bindings).Fail? {
        var i :| 0 <= i < |bindings[1..]| && ViewHasAll(response, bindings[1..]) == ViewHasEntry(response, bindings[1..][i]) &&
                 forall j :: 0 <= j < i ==> ViewHasEntry(response, bindings[1..][j]).Pass?;
        assert bindings[1..][i] == bindings[i + 1];
        forall j | 0 <= j < i + 1 ensures ViewHasEntry(response, bindings[j]).Pass? {
          if j > 0 {
            assert bindings[j] == bindings[1..][j - 1];
          }
        }
      }
      assert bindings[0] == bindings[..1][0];
      forall i | 1 <= i < |bindings| ensures bindings[i] == bindings[1..][i - 1] { }
    }
  }

  /** A batch of plain names on a view passes iff every name is a variable of
      the view; any scalar binding fails on a response that is not a view. */
  lemma ViewHasNames(response: Response, bindings: seq<Entry>)
    requires forall i :: 0 <= i < |bindings| ==> bindings[i].key.IntKey? && bindings[i].val.Str?
    ensures response.kind.View? ==>
              (ViewHas(response, Arr(bindings), Null).Pass? <==>
               forall i :: 0 <= i < |bindings| ==> Lookup(response.kind.vars, StrKey(bindings[i].val.s)).Some?)
    ensures !response.kind.View? && bindings != [] ==> ViewHas(response, Arr(bindings), Null) == Fail(NotAView)
  {
    ViewHasAllEvery(response, bindings);
    if !response.kind.View? && bindings != [] {
      assert ViewHasEntry(response, bindings[0]) == Fail(NotAView);
    }
  }

  /** `assertViewMissing($key)`. */
  function AssertViewMissing(response: Response, key: Value): (r: Outcome)
    ensures !response.kind.View? ==> r == Fail(NotAView)
    ensures response.kind.View? && AsKey(key).Some? ==> (r.Pass? <==> Lookup(response.kind.vars, AsKey(key).value).None?)
    ensures response.kind.View? && AsKey(key).None? ==> r.Fail?
  {
    if !response.kind.View? then Fail(NotAView)
    else
      match AsKey(key)
      case None => Fail("Argument #1 of assertArrayNotHasKey must be an integer or a string.")
      case Some(k) => if Lookup(response.kind.vars, k).None? then Pass else Fail("Failed asserting that an array does not have the key.")
  }

  /** `assertRedirectedTo($uri, $params)`: only the response class is checked. */
  function AssertRedirectedTo(response: Response, uri: string, params: seq<Entry>): (r: Outcome)
    ensures r.Pass? <==> response.kind.Redirect?
  {
    if response.kind.Redirect? then Pass else Fail("Failed asserting that the response is a redirect.")
  }

  /** The target and parameters given to `assertRedirectedTo` make no difference. */
  lemma RedirectArgumentsIgnored(response: Response, uri1: string, params1: seq<Entry>, uri2: string, params2: seq<Entry>)
    ensures AssertRedirectedTo(response, uri1, params1) == AssertRedirectedTo(response, uri2, params2)
  {
  }

  // ---------------------------------------------------------------- session

  /** `assertSessionHas` for a key that is not an array. */
  function SessionHasScalar(session: Session, key: Value, value: Value): (r: Outcome)
    ensures value.Null? ==> (r.Pass? <==> session.has(ScalarString(key)))
    ensures !value.Null? ==> (r.Pass? <==> session.get(ScalarString(key)) == value)
  {
    var name := ScalarString(key);
    if value.Null? then (if session.has(name) then Pass else Fail("Session missing key: " + name))
    else if session.get(name) == value then Pass
    else Fail("Failed asserting that two values are equal.")
  }

  /** `assertSessionHas($key, $value)`: an array key is a batch of bindings. */
  function SessionHas(session: Session, key: Value, value: Value): Outcome
    decreases key
  {
    if key.Arr? then SessionHasAll(session, key.entries) else SessionHasScalar(session, key, value)
  }

  /** One binding of a batch, dispatched as for views. */
  function SessionHasEntry(session: Session, e: Entry): Outcome
    decreases e
  {
    match e.key
    case IntKey(_) => SessionHas(session, e.val, Null)
    case StrKey(s) => SessionHasScalar(session, Str(s), e.val)
  }

  /** `assertSessionHasAll($bindings)`. */
  function SessionHasAll(session: Session, bindings: seq<Entry>): Outcome
    decreases bindings
  {
    if bindings == [] then Pass else Then(SessionHasEntry(session, bindings[0]), SessionHasAll(session, bindings[1..]))
  }

  /** What a flat batch means: an entry with an integer key asks for its value
      to be a present session key; one with a string key asks for the stored
      value to equal it (or, for a null value, for the key to be present). */
  predicate SessionEntryHolds(session: Session, e: Entry)
  {
    match e.key
    case IntKey(_) => session.has(ScalarString(e.val))
    case StrKey(s) => if e.val.Null? then session.has(s) else session.get(s) == e.val
  }

  /** A batch with no nested arrays passes iff every entry holds. */
  lemma {:induction false} SessionHasAllFlat(session: Session, bindings: seq<Entry>)
    requires forall i :: 0 <= i < |bindings| ==> !bindings[i].val.Arr?
    ensures SessionHasAll(session, bindings).Pass? <==> forall i :: 0 <= i < |bindings| ==> SessionEntryHolds(session, bindings[i])
    decreases |bindings|
  {
    if bindings != [] {
      SessionHasAllFlat(session, bindings[1..]);
      assert SessionHasEntry(session, bindings[0]).Pass? <==> SessionEntryHolds(session, bindings[0]);
      forall i | 1 <= i < |bindings| ensures bindings[i] == bindings[1..][i - 1] { }
    }
  }
}
