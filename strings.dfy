/** String helpers mirroring the PHP built-ins and `iboxs\helper\Str` calls
    the harness makes, over strings as sequences of characters. */
module Strings {

  /** `Str::startsWith($s, $p)` for a single needle. */
  predicate StartsWith(s: string, p: string)
  {
    |p| <= |s| && s[..|p|] == p
  }

  /** `Str::endsWith($s, $p)` for a single needle. */
  predicate EndsWith(s: string, p: string)
  {
    |p| <= |s| && s[|s| - |p|..] == p
  }

  /** `sub` occurs in `s` at some offset (`strpos($s, $sub) !== false`). */
  predicate Occurs(s: string, sub: string)
    decreases |s|
  {
    StartsWith(s, sub) || (|s| > 0 && Occurs(s[1..], sub))
  }

  /** `Str::contains($s, $needle)`: an empty needle is never contained. */
  predicate Contains(s: string, needle: string)
  {
    needle != [] && Occurs(s, needle)
  }

  lemma {:induction false} OccursAt(s: string, sub: string, i: nat)
    requires i + |sub| <= |s| && s[i..i + |sub|] == sub
    ensures Occurs(s, sub)
    decreases i
  {
    if i > 0 {
      assert s[1..][i - 1..i - 1 + |sub|] == sub;
      OccursAt(s[1..], sub, i - 1);
    }
  }

  /** `str_replace($c, '', $s)`: every occurrence of `c` removed. */
  function RemoveChar(s: string, c: char): (r: string)
    ensures c !in r
    ensures |r| <= |s|
    ensures forall x :: x in r ==> x in s
    ensures c !in s ==> r == s
  {
    if s == [] then []
    else (if s[0] == c then [] else [s[0]]) + RemoveChar(s[1..], c)
  }

  /** Removing `c` keeps every other character exactly as often as before. */
  lemma {:induction false} RemoveCharCounts(s: string, c: char)
    ensures forall x :: x != c ==> multiset(RemoveChar(s, c))[x] == multiset(s)[x]
    decreases |s|
  {
    if s != [] {
      RemoveCharCounts(s[1..], c);
      var head := if s[0] == c then [] else [s[0]];
      assert s == [s[0]] + s[1..];
      assert multiset(RemoveChar(s, c)) == multiset(head) + multiset(RemoveChar(s[1..], c));
    }
  }

  /** `str_replace($c, $with, $s)` for a single character needle. */
  function ReplaceChar(s: string, c: char, with: string): (r: string)
    ensures c !in s ==> r == s
  {
    if s == [] then []
    else (if s[0] == c then with else [s[0]]) + ReplaceChar(s[1..], c, with)
  }

  /** Escape of one bracket: `[` becomes `\[`, `]` becomes `\]`. */
  function EscapeBracketChar(x: char): string
  {
    if x == '[' || x == ']' then ['\\', x] else [x]
  }

  /** `str_replace(['[', ']'], ['\\[', '\\]'], $s)`: two passes over the subject,
      first for `[`, then for `]`. */
  function EscapeBrackets(s: string): string
  {
    ReplaceChar(ReplaceChar(s, '[', "\\["), ']', "\\]")
  }

  function EscapeEachBracket(s: string): string
  {
    if s == [] then [] else EscapeBracketChar(s[0]) + EscapeEachBracket(s[1..])
  }

  /** Inverse of the bracket escape: a backslash before a bracket is dropped. */
  function UnescapeBrackets(s: string): string
    decreases |s|
  {
    if s == [] then []
    else if |s| >= 2 && s[0] == '\\' && (s[1] == '[' || s[1] == ']') then [s[1]] + UnescapeBrackets(s[2..])
    else [s[0]] + UnescapeBrackets(s[1..])
  }

  lemma {:induction false} ReplaceCharAppend(a: string, b: string, c: char, with: string)
    ensures ReplaceChar(a + b, c, with) == ReplaceChar(a, c, with) + ReplaceChar(b, c, with)
    decreases |a|
  {
    if a != [] {
      assert (a + b)[1..] == a[1..] + b;
      ReplaceCharAppend(a[1..], b, c, with);
    } else {
      assert a + b == b;
    }
  }

  /** The two sequential passes escape each bracket exactly once: the `\[` that
      the first pass inserts holds no `]` for the second pass to touch. */
  lemma {:induction false} EscapeBracketsPerChar(s: string)
    ensures EscapeBrackets(s) == EscapeEachBracket(s)
    decreases |s|
  {
    if s != [] {
      EscapeBracketsPerChar(s[1..]);
      var head := if s[0] == '[' then "\\[" else [s[0]];
      assert ReplaceChar(s, '[', "\\[") == head + ReplaceChar(s[1..], '[', "\\[");
      ReplaceCharAppend(head, ReplaceChar(s[1..], '[', "\\["), ']', "\\]");
      if s[0] == '[' {
        assert ReplaceChar(head, ']', "\\]") == "\\[" by {
          assert head == ['\\'] + ['['];
          ReplaceCharAppend(['\\'], ['['], ']', "\\]");
        }
      } else {
        assert ReplaceChar(head, ']', "\\]") == EscapeBracketChar(s[0]);
      }
    }
  }

  /** The bracket escape loses nothing when the input holds no backslash. */
  lemma {:induction false} UnescapeEscapeBrackets(s: string)
    requires '\\' !in s
    ensures UnescapeBrackets(EscapeBrackets(s)) == s
    decreases |s|
  {
    EscapeBracketsPerChar(s);
    EachRoundTrip(s);
  }

  lemma {:induction false} EachRoundTrip(s: string)
    requires '\\' !in s
    ensures UnescapeBrackets(EscapeEachBracket(s)) == s
    decreases |s|
  {
    if s != [] {
      EachRoundTrip(s[1..]);
      var e := EscapeEachBracket(s);
      assert e == EscapeBracketChar(s[0]) + EscapeEachBracket(s[1..]);
      if s[0] == '[' || s[0] == ']' {
        assert e[2..] == EscapeEachBracket(s[1..]);
      } else {
        assert e[1..] == EscapeEachBracket(s[1..]);
      }
    }
  }

  /** `strtoupper`: ASCII letters only, as PHP does it from version 8.2 on. */
  function UpperChar(x: char): (r: char)
    ensures 'a' <= r <= 'z' ==> false
  {
    if 'a' <= x <= 'z' then (x as int - 'a' as int + 'A' as int) as char else x
  }

  function ToUpper(s: string): (r: string)
    ensures |r| == |s|
    ensures forall i :: 0 <= i < |s| ==> r[i] == UpperChar(s[i])
  {
    if s == [] then [] else [UpperChar(s[0])] + ToUpper(s[1..])
  }

  predicate IsUpper(s: string)
  {
    forall i :: 0 <= i < |s| ==> !('a' <= s[i] <= 'z')
  }

  /** `implode($sep, $parts)`. */
  function Join(sep: string, parts: seq<string>): string
  {
    if parts == [] then []
    else if |parts| == 1 then parts[0]
    else parts[0] + sep + Join(sep, parts[1..])
  }

  /** Decimal rendering of a natural number, as PHP prints integers. */
  function NatToString(n: nat): (r: string)
    ensures r != []
    decreases n
  {
    var digit := ['0' + (n % 10) as char];
    if n < 10 then digit else NatToString(n / 10) + digit
  }

  /** Decimal rendering of any integer. */
  function IntToString(i: int): string
  {
    if i < 0 then "-" + NatToString(-i) else NatToString(i)
  }
}
