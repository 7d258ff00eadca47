/** `InteractsWithPages::filterByNameOrId`: the CSS selector built from a
    name-or-id token, and the set of elements that selector picks out. */
module Selectors {
  import opened Wrappers
  import opened Strings
  import opened Dom

  /** The tag fragments the harness filters with: `*`, a plain tag such as
      `a`, `input` or `textarea`, and `input[type='checkbox']`. */
  datatype Candidate = AnyTag | Tag(name: string) | TypedInput(inputType: string)

  function CandidateCss(c: Candidate): string
  {
    match c
    case AnyTag => "*"
    case Tag(n) => n
    case TypedInput(t) => "input[type='" + t + "']"
  }

  /** The token with every `#` removed: the value matched against `name`. */
  function NameOf(token: string): (r: string)
    ensures '#' !in r
    ensures forall x :: x != '#' ==> multiset(r)[x] == multiset(token)[x]
    ensures '#' !in token ==> r == token
  {
    RemoveCharCounts(token, '#');
    RemoveChar(token, '#')
  }

  /** The id half: the stripped token with `[` and `]` escaped. */
  function IdOf(token: string): string
  {
    EscapeBrackets(NameOf(token))
  }

  /** One candidate's pair `T#id, T[name='name']`. */
  function Clause(c: Candidate, token: string): string
  {
    var t := CandidateCss(c);
    t + "#" + IdOf(token) + ", " + t + "[name='" + NameOf(token) + "']"
  }

  function Clauses(cands: seq<Candidate>, token: string): (r: seq<string>)
    ensures |r| == |cands|
    ensures forall i :: 0 <= i < |cands| ==> r[i] == Clause(cands[i], token)
  {
    if cands == [] then [] else [Clause(cands[0], token)] + Clauses(cands[1..], token)
  }

  /** `filterByNameOrId($name, $elements)`: the pairs of all candidates joined by `, `. */
  function FilterByNameOrId(token: string, cands: seq<Candidate>): string
  {
    Join(", ", Clauses(cands, token))
  }

  /** The default candidate list is `['*']`. */
  const Default: seq<Candidate> := [AnyTag]

  lemma {:induction false} RemoveCharIdempotent(s: string, c: char)
    ensures RemoveChar(RemoveChar(s, c), c) == RemoveChar(s, c)
    decreases |s|
  {
    if s != [] {
      RemoveCharIdempotent(s[1..], c);
      var head := if s[0] == c then [] else [s[0]];
      var rest := RemoveChar(s[1..], c);
      RemoveCharAppend(head, rest, c);
    }
  }

  lemma {:induction false} RemoveCharAppend(a: string, b: string, c: char)
    ensures RemoveChar(a + b, c) == RemoveChar(a, c) + RemoveChar(b, c)
    decreases |a|
  {
    if a == [] {
      assert a + b == b;
    } else {
      assert (a + b)[1..] == a[1..] + b;
      RemoveCharAppend(a[1..], b, c);
    }
  }

  lemma {:induction false} ClausesSameName(cands: seq<Candidate>, t1: string, t2: string)
    requires NameOf(t1) == NameOf(t2)
    ensures Clauses(cands, t1) == Clauses(cands, t2)
    decreases |cands|
  {
    if cands != [] {
      ClausesSameName(cands[1..], t1, t2);
    }
  }

  /** `#email` and `email` give the same selector: only the token with its `#`
      removed reaches the selector string. */
  lemma HashIsIgnored(token: string, cands: seq<Candidate>)
    ensures FilterByNameOrId("#" + token, cands) == FilterByNameOrId(token, cands)
    ensures FilterByNameOrId(NameOf(token), cands) == FilterByNameOrId(token, cands)
  {
    RemoveCharAppend("#", token, '#');
    RemoveCharIdempotent(token, '#');
    ClausesSameName(cands, "#" + token, token);
    ClausesSameName(cands, NameOf(token), token);
  }

  /** The id half escapes brackets and nothing else: unescaping it gives back the
      raw name used in the `name='…'` half (for tokens without backslashes). */
  lemma IdHalfEscapesBrackets(token: string)
    requires '\\' !in token
    ensures '#' !in IdOf(token)
    ensures UnescapeBrackets(IdOf(token)) == NameOf(token)
  {
    var n := NameOf(token);
    UnescapeEscapeBrackets(n);
    EscapeBracketsPerChar(n);
    EachKeepsOtherChars(n);
  }

  lemma {:induction false} EachKeepsOtherChars(s: string)
    requires '#' !in s
    ensures '#' !in EscapeEachBracket(s)
    decreases |s|
  {
    if s != [] {
      EachKeepsOtherChars(s[1..]);
    }
  }

  /** A bracketed field name such as `#a[]`: the name half keeps `a[]` raw … */
  lemma ArrayFieldName(n: string)
    requires '#' !in n
    ensures NameOf("#" + n + "[]") == n + "[]"
  {
    assert "#" + n + "[]" == "#" + (n + "[]");
    RemoveCharAppend("#", n + "[]", '#');
  }

  /** … while the id half escapes it to `a\\[\\]`. */
  lemma ArrayFieldId(n: string)
    requires '#' !in n && '[' !in n && ']' !in n
    ensures IdOf("#" + n + "[]") == n + "\\[\\]"
  {
    ArrayFieldName(n);
    ReplaceCharAppend(n, "[]", '[', "\\[");
    ReplaceCharAppend(n, "\\[]", ']', "\\]");
    EscapeOpenLiteral();
    EscapeCloseLiteral();
  }

  lemma EscapeOpenLiteral()
    ensures ReplaceChar("[]", '[', "\\[") == "\\[]"
  {
    assert "[]" == ['['] + "]";
    ReplaceCharAppend(['['], "]", '[', "\\[");
  }

  lemma EscapeCloseLiteral()
    ensures ReplaceChar("\\[]", ']', "\\]") == "\\[\\]"
  {
    assert "\\[]" == "\\[" + "]";
    ReplaceCharAppend("\\[", "]", ']', "\\]");
  }

  /** What one candidate fragment matches. */
  predicate MatchesCandidate(e: Element, c: Candidate)
  {
    match c
    case AnyTag => true
    case Tag(n) => e.tag == n
    case TypedInput(t) => e.tag == "input" && Attr(e, "type") == Some(t)
  }

  /** The meaning of the selector string on one element: some candidate tag
      matches and the element's id or name is the stripped token. */
  predicate MatchesNameOrId(e: Element, token: string, cands: seq<Candidate>)
  {
    (exists c :: c in cands && MatchesCandidate(e, c)) &&
    (Attr(e, "id") == Some(NameOf(token)) || Attr(e, "name") == Some(NameOf(token)))
  }

  /** `doc[i]` is the first element of the document the selector matches. */
  predicate FirstMatchAt(doc: Document, token: string, cands: seq<Candidate>, i: int)
  {
    0 <= i < |doc| && MatchesNameOrId(doc[i], token, cands) &&
    forall j :: 0 <= j < i ==> !MatchesNameOrId(doc[j], token, cands)
  }

  /** `$this->crawler->filter(filterByNameOrId(...))`: the matching elements in
      document order, so the first one is the document's first match. */
  function Filter(doc: Document, token: string, cands: seq<Candidate>): (r: Document)
    ensures |r| <= |doc|
    ensures forall e :: e in r <==> e in doc && MatchesNameOrId(e, token, cands)
    ensures forall i :: FirstMatchAt(doc, token, cands, i) ==> r != [] && r[0] == doc[i]
  {
    if doc == [] then []
    else
      assert forall i :: FirstMatchAt(doc, token, cands, i) && 0 < i ==> FirstMatchAt(doc[1..], token, cands, i - 1);
      (if MatchesNameOrId(doc[0], token, cands) then [doc[0]] else []) + Filter(doc[1..], token, cands)
  }

  /** Resolving `#email` and `email` selects the same elements. */
  lemma FilterIgnoresHash(doc: Document, token: string, cands: seq<Candidate>)
    ensures Filter(doc, "#" + token, cands) == Filter(doc, token, cands)
  {
    RemoveCharAppend("#", token, '#');
    assert NameOf("#" + token) == NameOf(token);
    FilterSameName(doc, "#" + token, token, cands);
  }

  lemma {:induction false} FilterSameName(doc: Document, t1: string, t2: string, cands: seq<Candidate>)
    requires NameOf(t1) == NameOf(t2)
    ensures Filter(doc, t1, cands) == Filter(doc, t2, cands)
    decreases |doc|
  {
    if doc != [] {
      FilterSameName(doc[1..], t1, t2, cands);
    }
  }
}
