/** JSON checks of `CrawlerTrait`: the compact encoding of PHP values, the
    recursive key sort used to canonicalise them, `formatToExpectedJson`,
    `seeJson`, `seeJsonEquals` and `seeJsonContains`. */
module Json {
  import opened Wrappers
  import opened Strings
  import opened Php

  // ---------------------------------------------------------------- encoding

  /** A PHP array is encoded as a JSON list exactly when its keys are 0, 1, … in order. */
  predicate IsList(es: seq<Entry>)
  {
    forall i :: 0 <= i < |es| ==> es[i].key == IntKey(i)
  }

  function KeyString(k: Key): string
  {
    match k
    case IntKey(i) => IntToString(i)
    case StrKey(s) => s
  }

  function Quote(s: string): string
  {
    "\"" + s + "\""
  }

  /** `json_encode` without pretty printing. */
  function Encode(v: Value): (r: string)
    ensures r != []
    decreases v
  {
    match v
    case Null => "null"
    case Bool(b) => if b then "true" else "false"
    case Int(n) => IntToString(n)
    case Str(s) => Quote(s)
    case Arr(es) =>
      if IsList(es) then
        "[" + Join(",", seq(|es|, i requires 0 <= i < |es| => Encode(es[i].val))) + "]"
      else
        "{" + Join(",", seq(|es|, i requires 0 <= i < |es| => Quote(KeyString(es[i].key)) + ":" + Encode(es[i].val))) + "}"
  }

  // ---------------------------------------------------------------- key order

  /** Lexicographic order on strings. */
  predicate StrLess(a: string, b: string)
    decreases |a|
  {
    if a == [] then b != []
    else b != [] && (a[0] < b[0] || (a[0] == b[0] && StrLess(a[1..], b[1..])))
  }

  lemma {:induction false} StrLessIrreflexive(a: string)
    ensures !StrLess(a, a)
    decreases |a|
  {
    if a != [] {
      StrLessIrreflexive(a[1..]);
    }
  }

  lemma {:induction false} StrLessTransitive(a: string, b: string, c: string)
    requires StrLess(a, b) && StrLess(b, c)
    ensures StrLess(a, c)
    decreases |a|
  {
    if a != [] && a[0] == b[0] && b[0] == c[0] {
      StrLessTransitive(a[1..], b[1..], c[1..]);
    }
  }

  lemma {:induction false} StrLessTotal(a: string, b: string)
    requires a != b
    ensures StrLess(a, b) || StrLess(b, a)
    decreases |a|
  {
    if a != [] && b != [] && a[0] == b[0] {
      assert a == [a[0]] + a[1..] && b == [b[0]] + b[1..];
      StrLessTotal(a[1..], b[1..]);
    }
  }

  /** The model's order on array keys: integers first, numerically, then strings. */
  predicate KeyLess(a: Key, b: Key)
  {
    match (a, b)
    case (IntKey(x), IntKey(y)) => x < y
    case (IntKey(_), StrKey(_)) => true
    case (StrKey(_), IntKey(_)) => false
    case (StrKey(x), StrKey(y)) => StrLess(x, y)
  }

  lemma KeyLessStrict(a: Key, b: Key, c: Key)
    ensures !KeyLess(a, a)
    ensures KeyLess(a, b) && KeyLess(b, c) ==> KeyLess(a, c)
    ensures a != b ==> KeyLess(a, b) || KeyLess(b, a)
  {
    if a.StrKey? {
      StrLessIrreflexive(a.s);
    }
    if a.StrKey? && b.StrKey? && c.StrKey? && KeyLess(a, b) && KeyLess(b, c) {
      StrLessTransitive(a.s, b.s, c.s);
    }
    if a.StrKey? && b.StrKey? && a != b {
      StrLessTotal(a.s, b.s);
    }
  }

  predicate StrictlySorted(es: seq<Entry>)
  {
    forall i, j :: 0 <= i < j < |es| ==> KeyLess(es[i].key, es[j].key)
  }

  function Keys(es: seq<Entry>): set<Key>
  {
    set e | e in es :: e.key
  }

  // ---------------------------------------------------------------- key sort

  /** Insertion of one entry into a key-sorted array. */
  function Insert(e: Entry, s: seq<Entry>): (r: seq<Entry>)
    ensures multiset(r) == multiset(s) + multiset{e}
    ensures StrictlySorted(s) && e.key !in Keys(s) ==> StrictlySorted(r)
    decreases |s|
  {
    if s == [] then [e]
    else if KeyLess(e.key, s[0].key) then
      InsertFront(e, s);
      [e] + s
    else
      var rest := Insert(e, s[1..]);
      assert s == [s[0]] + s[1..];
      InsertAfterHead(e, s, rest);
      [s[0]] + rest
  }

  lemma InsertFront(e: Entry, s: seq<Entry>)
    requires s != [] && KeyLess(e.key, s[0].key)
    ensures StrictlySorted(s) ==> StrictlySorted([e] + s)
  {
    if StrictlySorted(s) {
      forall j | 0 < j < |s| + 1
        ensures KeyLess(e.key, ([e] + s)[j].key)
      {
        if j > 1 {
          KeyLessStrict(e.key, s[0].key, s[j - 1].key);
        }
      }
    }
  }

  lemma InsertAfterHead(e: Entry, s: seq<Entry>, rest: seq<Entry>)
    requires s != [] && !KeyLess(e.key, s[0].key)
    requires multiset(rest) == multiset(s[1..]) + multiset{e}
    requires StrictlySorted(s[1..]) && e.key !in Keys(s[1..]) ==> StrictlySorted(rest)
    ensures StrictlySorted(s) && e.key !in Keys(s) ==> StrictlySorted([s[0]] + rest)
  {
    if StrictlySorted(s) && e.key !in Keys(s) {
      assert Keys(s[1..]) <= Keys(s);
      KeyLessStrict(e.key, s[0].key, s[0].key);
      assert e.key != s[0].key by { assert s[0] in s; }
      assert KeyLess(s[0].key, e.key);
      forall x | x in rest
        ensures KeyLess(s[0].key, x.key)
      {
        assert x in multiset(rest);
        if x != e {
          assert x in multiset(s[1..]);
          var j :| 0 <= j < |s[1..]| && s[1..][j] == x;
          assert s[j + 1] == x;
        }
      }
      var r := [s[0]] + rest;
      forall i, j | 0 <= i < j < |r|
        ensures KeyLess(r[i].key, r[j].key)
      {
        if i == 0 {
          assert r[j] in rest;
        } else {
          assert r[i] == rest[i - 1] && r[j] == rest[j - 1];
        }
      }
    }
  }

  /** `ksort`: entries ordered by key. */
  function KeySort(es: seq<Entry>): (r: seq<Entry>)
    ensures multiset(r) == multiset(es)
    ensures DistinctKeys(es) ==> StrictlySorted(r)
    decreases |es|
  {
    if es == [] then []
    else
      var rest := KeySort(es[1..]);
      assert es == [es[0]] + es[1..];
      HeadKeyFresh(es, rest);
      Insert(es[0], rest)
  }

  lemma HeadKeyFresh(es: seq<Entry>, rest: seq<Entry>)
    requires es != [] && multiset(rest) == multiset(es[1..])
    ensures DistinctKeys(es) ==> DistinctKeys(es[1..]) && es[0].key !in Keys(rest)
  {
    if DistinctKeys(es) {
      forall x | x in rest
        ensures x.key != es[0].key
      {
        assert x in multiset(es[1..]);
        var j :| 0 <= j < |es[1..]| && es[1..][j] == x;
        assert es[j + 1] == x;
      }
    }
  }

  lemma MultisetCancel(x: Entry, p: multiset<Entry>, q: multiset<Entry>)
    requires multiset{x} + p == multiset{x} + q
    ensures p == q
  {
    assert p == (multiset{x} + p) - multiset{x};
    assert q == (multiset{x} + q) - multiset{x};
  }

  /** Two non-empty strictly sorted arrays with the same entries start alike:
      each head is the least key of the other. */
  lemma SortedSameHead(a: seq<Entry>, b: seq<Entry>)
    requires a != [] && b != []
    requires StrictlySorted(a) && StrictlySorted(b)
    requires multiset(a) == multiset(b)
    ensures a[0] == b[0]
  {
    assert a[0] in multiset(b);
    var j :| 0 <= j < |b| && b[j] == a[0];
    assert b[0] in multiset(a);
    var i :| 0 <= i < |a| && a[i] == b[0];
    if i > 0 && j > 0 {
      KeyLessStrict(a[0].key, a[i].key, a[0].key);
    }
  }

  /** Two strictly sorted arrays with the same entries are the same array. */
  lemma {:induction false} SortedUnique(a: seq<Entry>, b: seq<Entry>)
    requires StrictlySorted(a) && StrictlySorted(b)
    requires multiset(a) == multiset(b)
    ensures a == b
    decreases |a|
  {
    if a == [] {
      assert |b| == |multiset(b)| == 0;
    } else {
      assert b != [] by { assert |b| == |multiset(b)| == |multiset(a)| == |a|; }
      SortedSameHead(a, b);
      assert a == [a[0]] + a[1..] && b == [b[0]] + b[1..];
      assert multiset(a) == multiset{a[0]} + multiset(a[1..]);
      assert multiset(b) == multiset{b[0]} + multiset(b[1..]);
      MultisetCancel(a[0], multiset(a[1..]), multiset(b[1..]));
      SortedUnique(a[1..], b[1..]);
    }
  }

  // ---------------------------------------------------------------- canonical form

  /** `Arr::sortRecursive`: nested arrays first, then an associative array is
      sorted by key; a list keeps its order. */
  function Canon(v: Value): (r: Value)
    ensures r.Arr? <==> v.Arr?
    decreases v, 1
  {
    match v
    case Arr(es) =>
      var mapped := seq(|es|, i requires 0 <= i < |es| => CanonEntry(es[i]));
      Arr(if IsList(es) then mapped else KeySort(mapped))
    case _ => v
  }

  function CanonEntry(e: Entry): (r: Entry)
    ensures r.key == e.key
    decreases e, 0
  {
    Entry(e.key, Canon(e.val))
  }

  function MapCanon(es: seq<Entry>): (r: seq<Entry>)
    ensures |r| == |es|
    ensures forall i :: 0 <= i < |es| ==> r[i] == CanonEntry(es[i])
  {
    seq(|es|, i requires 0 <= i < |es| => CanonEntry(es[i]))
  }

  /** `array_map` over a sequence. */
  function MapSeq<T, U>(f: T -> U, s: seq<T>): (r: seq<U>)
    ensures |r| == |s|
  {
    seq(|s|, i requires 0 <= i < |s| => f(s[i]))
  }

  lemma MapSeqAppend<T, U>(f: T -> U, x: seq<T>, y: seq<T>)
    ensures MapSeq(f, x + y) == MapSeq(f, x) + MapSeq(f, y)
  {
  }

  /** Mapping a function over two permutations of one sequence gives two
      permutations of one sequence. */
  lemma {:induction false} MapSeqPermutation<T, U>(f: T -> U, a: seq<T>, b: seq<T>)
    requires multiset(a) == multiset(b)
    ensures multiset(MapSeq(f, a)) == multiset(MapSeq(f, b))
    decreases |a|
  {
    if a == [] {
      assert |b| == |multiset(b)| == 0;
    } else {
      assert a[0] in multiset(b);
      var j :| 0 <= j < |b| && b[j] == a[0];
      var b' := b[..j] + b[j + 1..];
      var a' := a[1..];
      assert multiset(a') == multiset(b') by {
        SplitAt(b, j);
        SplitHead(a);
      }
      MapSeqPermutation(f, a', b');
      MapSeqPermutationStep(f, a, b, j);
    }
  }

  /** The inductive step: pairing the head of `a` with its copy at `j` in `b`. */
  lemma MapSeqPermutationStep<T, U>(f: T -> U, a: seq<T>, b: seq<T>, j: nat)
    requires a != [] && j < |b| && b[j] == a[0]
    requires multiset(MapSeq(f, a[1..])) == multiset(MapSeq(f, b[..j] + b[j + 1..]))
    ensures multiset(MapSeq(f, a)) == multiset(MapSeq(f, b))
  {
    MapSeqHead(f, a);
    MapSeqRemove(f, b, j);
  }

  lemma MapSeqHead<T, U>(f: T -> U, a: seq<T>)
    requires a != []
    ensures multiset(MapSeq(f, a)) == multiset{f(a[0])} + multiset(MapSeq(f, a[1..]))
  {
    assert a == [a[0]] + a[1..];
    MapSeqAppend(f, [a[0]], a[1..]);
  }

  /** Mapping commutes with taking out the element at `j`. */
  lemma MapSeqRemove<T, U>(f: T -> U, b: seq<T>, j: nat)
    requires j < |b|
    ensures multiset(MapSeq(f, b)) == multiset{f(b[j])} + multiset(MapSeq(f, b[..j] + b[j + 1..]))
  {
    var mb := MapSeq(f, b);
    SplitAt(mb, j);
    assert mb[..j] == MapSeq(f, b[..j]);
    assert mb[j + 1..] == MapSeq(f, b[j + 1..]);
    MapSeqAppend(f, b[..j], b[j + 1..]);
  }

  lemma SplitHead<T>(a: seq<T>)
    requires a != []
    ensures multiset(a[1..]) == multiset(a) - multiset{a[0]}
  {
    assert a == [a[0]] + a[1..];
  }

  /** Taking out the element at `j` takes it out of the multiset. */
  lemma SplitAt<T>(b: seq<T>, j: nat)
    requires j < |b|
    ensures multiset(b) == multiset{b[j]} + multiset(b[..j] + b[j + 1..])
    ensures multiset(b[..j] + b[j + 1..]) == multiset(b) - multiset{b[j]}
  {
    assert b == b[..j] + [b[j]] + b[j + 1..];
  }

  lemma MapCanonPermutation(a: seq<Entry>, b: seq<Entry>)
    requires multiset(a) == multiset(b)
    ensures multiset(MapCanon(a)) == multiset(MapCanon(b))
  {
    assert MapCanon(a) == MapSeq(CanonEntry, a);
    assert MapCanon(b) == MapSeq(CanonEntry, b);
    MapSeqPermutation(CanonEntry, a, b);
  }

  lemma ListIsStrictlySorted(es: seq<Entry>)
    requires IsList(es)
    ensures StrictlySorted(es)
  {
  }

  lemma MapCanonDistinct(es: seq<Entry>)
    requires DistinctKeys(es)
    ensures DistinctKeys(MapCanon(es)) && IsList(MapCanon(es)) == IsList(es)
  {
  }

  /** Whatever the array's shape, its canonical entries are the key-sorted
      canonical entries. */
  lemma CanonIsKeySorted(es: seq<Entry>)
    requires DistinctKeys(es)
    ensures Canon(Arr(es)) == Arr(KeySort(MapCanon(es)))
  {
    var m := MapCanon(es);
    assert Canon(Arr(es)).entries == if IsList(es) then m else KeySort(m);
    MapCanonDistinct(es);
    if IsList(es) {
      ListIsStrictlySorted(m);
      SortedUnique(m, KeySort(m));
    }
  }

  /** Canonicalisation forgets the order of a PHP array's entries. */
  lemma CanonOrderInsensitive(a: seq<Entry>, b: seq<Entry>)
    requires DistinctKeys(a) && DistinctKeys(b)
    requires multiset(a) == multiset(b)
    ensures Canon(Arr(a)) == Canon(Arr(b))
  {
    CanonIsKeySorted(a);
    CanonIsKeySorted(b);
    MapCanonPermutation(a, b);
    MapCanonDistinct(a);
    MapCanonDistinct(b);
    SortedUnique(KeySort(MapCanon(a)), KeySort(MapCanon(b)));
  }

  // ---------------------------------------------------------------- fragments

  /** `formatToExpectedJson`: the encoding of `[$key => $value]` with one leading
      `{` and one trailing `}` removed when present. */
  function FormatToExpectedJson(k: Key, v: Value): string
  {
    Unbrace(Encode(Arr([Entry(k, v)])))
  }

  /** One leading `{` and one trailing `}` removed, each when present. */
  function Unbrace(encoded: string): string
  {
    var s1 := if StartsWith(encoded, "{") then encoded[1..] else encoded;
    if EndsWith(s1, "}") then s1[..|s1| - 1] else s1
  }

  lemma UnbraceObject(member: string)
    ensures Unbrace("{" + member + "}") == member
  {
    var enc := "{" + member + "}";
    assert StartsWith(enc, "{");
    assert enc[1..] == member + "}";
    assert EndsWith(member + "}", "}");
    assert (member + "}")[..|member + "}"| - 1] == member;
  }

  lemma UnbraceList(item: string)
    ensures Unbrace("[" + item + "]") == "[" + item + "]"
  {
    var enc := "[" + item + "]";
    assert enc[..1] == "[";
    assert !StartsWith(enc, "{");
    assert enc[|enc| - 1] == ']';
  }

  /** The encoding of a one-entry array: a list for key 0, an object otherwise. */
  lemma EncodeSingle(k: Key, v: Value)
    ensures k == IntKey(0) ==> Encode(Arr([Entry(k, v)])) == "[" + Encode(v) + "]"
    ensures k != IntKey(0) ==> Encode(Arr([Entry(k, v)])) == "{" + Quote(KeyString(k)) + ":" + Encode(v) + "}"
  {
    var es := [Entry(k, v)];
    if k == IntKey(0) {
      assert IsList(es);
      var inner := seq(|es|, i requires 0 <= i < |es| => Encode(es[i].val));
      assert inner == [Encode(v)];
    } else {
      assert !IsList(es);
      var inner := seq(|es|, i requires 0 <= i < |es| => Quote(KeyString(es[i].key)) + ":" + Encode(es[i].val));
      assert inner == [Quote(KeyString(k)) + ":" + Encode(v)];
    }
  }

  /** A string key gives the member text `"key":value`; key 0 makes a one-element
      list, so the fragment keeps its brackets; another integer key is quoted. */
  lemma FormatToExpectedJsonCases(k: Key, v: Value)
    ensures k.StrKey? ==> FormatToExpectedJson(k, v) == Quote(k.s) + ":" + Encode(v)
    ensures k == IntKey(0) ==> FormatToExpectedJson(k, v) == "[" + Encode(v) + "]"
    ensures k.IntKey? && k.i != 0 ==> FormatToExpectedJson(k, v) == Quote(IntToString(k.i)) + ":" + Encode(v)
  {
    EncodeSingle(k, v);
    if k == IntKey(0) {
      UnbraceList(Encode(v));
    } else {
      UnbraceObject(Quote(KeyString(k)) + ":" + Encode(v));
    }
  }

  // ---------------------------------------------------------------- assertions

  /** The failure `seeJsonEquals` reports for such a body. */
  const NotAnArray := "The response body is not a JSON array."

  /** `seeJsonEquals($data)`: the decoded body and the expected array encode to
      the same text once both are canonicalised. A body that does not decode to
      an array makes the sort throw. */
  function SeeJsonEquals(decoded: Option<Value>, expected: seq<Entry>): (r: Outcome)
    ensures decoded.None? || !decoded.value.Arr? ==> r == Fail(NotAnArray)
    ensures r.Pass? <==> decoded.Some? && decoded.value.Arr? && Encode(Canon(Arr(expected))) == Encode(Canon(decoded.value))
  {
    if decoded.None? || !decoded.value.Arr? then
      Fail(NotAnArray)
    else if Encode(Canon(Arr(expected))) == Encode(Canon(decoded.value)) then
      Pass
    else
      Fail("Failed asserting that two strings are equal.")
  }

  /** `seeJsonEquals` accepts a body holding the expected members in any order,
      e.g. `{"b":2,"a":1}` against `['a' => 1, 'b' => 2]`. */
  lemma SeeJsonEqualsOrderInsensitive(body: seq<Entry>, expected: seq<Entry>)
    requires DistinctKeys(body) && DistinctKeys(expected)
    requires multiset(body) == multiset(expected)
    ensures SeeJsonEquals(Some(Arr(body)), expected).Pass?
  {
    CanonOrderInsensitive(body, expected);
  }

  /** `(array)$actual`: a scalar becomes a one-element list. */
  function ToArray(v: Value): Value
  {
    if v.Arr? then v else Arr([Entry(IntKey(0), v)])
  }

  /** The check `seeJsonContains` makes for one expected entry. */
  predicate FragmentFound(actual: string, e: Entry)
  {
    Contains(actual, FormatToExpectedJson(e.key, e.val))
  }

  /** `json_decode` gave null (invalid JSON) or false: the fragment checks never run. */
  predicate DecodesToNothing(decoded: Option<Value>)
  {
    decoded == None || decoded == Some(Null) || decoded == Some(Bool(false))
  }

  /** Every expected entry's fragment is found, or with `negate` none is. */
  predicate AllFragments(actual: string, expected: seq<Entry>, negate: bool)
  {
    forall i :: 0 <= i < |expected| ==> FragmentFound(actual, expected[i]) != negate
  }

  /** The encoded canonical body every fragment is searched in. */
  function ActualJson(decoded: Value): string
  {
    Encode(Canon(ToArray(decoded)))
  }

  /** The loop of `seeJsonContains`: one assertion per expected entry, in
      order; the first failing one stops with its message. */
  method CheckFragments(actual: string, expected: seq<Entry>, negate: bool) returns (r: Outcome)
    ensures r.Pass? <==> AllFragments(actual, expected, negate)
  {
    var k := 0;
    while k < |expected|
      invariant 0 <= k <= |expected|
      invariant forall i :: 0 <= i < k ==> FragmentFound(actual, expected[i]) != negate
    {
      var fragment := FormatToExpectedJson(expected[k].key, expected[k].val);
      if Contains(actual, fragment) == negate {
        assert FragmentFound(actual, expected[k]) == negate;
        return Fail((if negate then "Found unexpected" else "Unable to find") +
                    " JSON fragment [" + fragment + "] within [" + actual + "].");
      }
      k := k + 1;
    }
    return Pass;
  }

  /** `seeJsonContains($data, $negate)`: one assertion per top-level entry of
      the sorted expected array, that its fragment is (or with `negate`, is
      not) a substring of the canonical body. */
  method SeeJsonContains(decoded: Option<Value>, data: seq<Entry>, negate: bool) returns (r: Outcome)
    ensures DecodesToNothing(decoded) ==> r.Fail?
    ensures r.Pass? <==>
              !DecodesToNothing(decoded) && AllFragments(ActualJson(decoded.value), Canon(Arr(data)).entries, negate)
  {
    if DecodesToNothing(decoded) {
      return Fail("Invalid JSON was returned from the route. Perhaps an exception was thrown?");
    }
    var actual := ActualJson(decoded.value);
    var expected := Canon(Arr(data)).entries;
    r := CheckFragments(actual, expected, negate);
  }

  /** `seeJson($data, $negate)`: with no data only the body's JSON validity
      (`isJson`, the external `assertJson`) is checked. */
  method SeeJson(data: Option<seq<Entry>>, negate: bool, isJson: bool, decoded: Option<Value>) returns (r: Outcome)
    ensures data.None? ==> (r.Pass? <==> isJson)
    ensures data.Some? && DecodesToNothing(decoded) ==> r.Fail?
    ensures data.Some? ==>
              (r.Pass? <==> !DecodesToNothing(decoded) && AllFragments(ActualJson(decoded.value), Canon(Arr(data.value)).entries, negate))
  {
    if data.None? {
      return if isJson then Pass else Fail("JSON was not returned.");
    }
    r := SeeJsonContains(decoded, data.value, negate);
  }
}
