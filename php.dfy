/** The PHP values the harness passes around: scalars and ordered arrays whose
    keys are integers or strings. A PHP array is kept as a sequence of entries
    in insertion order. */
module Php {
  import opened Wrappers
  import Strings

  datatype Key = IntKey(i: int) | StrKey(s: string)

  datatype Value =
    | Null
    | Bool(b: bool)
    | Int(n: int)
    | Str(s: string)
    | Arr(entries: seq<Entry>)

  datatype Entry = Entry(key: Key, val: Value)

  /** A PHP array never holds the same key twice. */
  predicate DistinctKeys(es: seq<Entry>)
  {
    forall i, j :: 0 <= i < j < |es| ==> es[i].key != es[j].key
  }

  /** `$array[$k]` when `isset`, in the array's order. */
  function Lookup(es: seq<Entry>, k: Key): (r: Option<Value>)
    ensures r.None? <==> forall i :: 0 <= i < |es| ==> es[i].key != k
    ensures r.Some? ==> exists i :: 0 <= i < |es| && es[i] == Entry(k, r.value)
  {
    if es == [] then None
    else if es[0].key == k then Some(es[0].val)
    else
      var r := Lookup(es[1..], k);
      assert r.Some? ==> exists i :: 0 <= i < |es[1..]| && es[1..][i] == Entry(k, r.value);
      r
  }

  /** `$array[$k] = $v`: an existing key keeps its position, a new key is appended. */
  function Put(es: seq<Entry>, k: Key, v: Value): (r: seq<Entry>)
    ensures Lookup(r, k) == Some(v)
    ensures forall k' :: k' != k ==> Lookup(r, k') == Lookup(es, k')
    ensures DistinctKeys(es) ==> DistinctKeys(r)
    ensures forall i :: 0 <= i < |r| ==> r[i].key == k || r[i] in es
    ensures |r| == |es| || |r| == |es| + 1
  {
    if es == [] then [Entry(k, v)]
    else if es[0].key == k then [Entry(k, v)] + es[1..]
    else [es[0]] + Put(es[1..], k, v)
  }

  /** Number of integer-keyed entries. */
  function IntCount(es: seq<Entry>): nat
  {
    if es == [] then 0 else (if es[0].key.IntKey? then 1 else 0) + IntCount(es[1..])
  }

  /** The work loop of `array_merge`: integer keys are renumbered from `next`
      and appended, string keys are written with `Put`, so a later value
      overwrites an earlier one in place. */
  function MergeInto(acc: seq<Entry>, next: int, es: seq<Entry>): seq<Entry>
    decreases |es|
  {
    if es == [] then acc
    else if es[0].key.IntKey? then MergeInto(acc + [Entry(IntKey(next), es[0].val)], next + 1, es[1..])
    else MergeInto(Put(acc, es[0].key, es[0].val), next, es[1..])
  }

  /** `array_merge($a, $b)`. */
  function ArrayMerge(a: seq<Entry>, b: seq<Entry>): seq<Entry>
  {
    MergeInto(MergeInto([], 0, a), IntCount(a), b)
  }

  lemma {:induction false} LookupAppendIntKey(acc: seq<Entry>, n: int, v: Value, s: string)
    ensures Lookup(acc + [Entry(IntKey(n), v)], StrKey(s)) == Lookup(acc, StrKey(s))
  {
    var r := acc + [Entry(IntKey(n), v)];
    assert forall i :: 0 <= i < |acc| ==> r[i] == acc[i];
    if Lookup(acc, StrKey(s)).Some? {
      LookupPrefix(acc, [Entry(IntKey(n), v)], StrKey(s));
    }
  }

  lemma {:induction false} LookupPrefix(a: seq<Entry>, b: seq<Entry>, k: Key)
    requires Lookup(a, k).Some?
    ensures Lookup(a + b, k) == Lookup(a, k)
    decreases |a|
  {
    if a[0].key != k {
      assert (a + b)[1..] == a[1..] + b;
      LookupPrefix(a[1..], b, k);
    }
  }

  /** A string key of a merged range ends with the value the range gives it,
      and keeps the accumulator's value when the range does not mention it. */
  lemma {:induction false} MergeIntoStrKey(acc: seq<Entry>, next: int, es: seq<Entry>, s: string)
    requires DistinctKeys(es)
    ensures Lookup(MergeInto(acc, next, es), StrKey(s)) ==
            if Lookup(es, StrKey(s)).Some? then Lookup(es, StrKey(s)) else Lookup(acc, StrKey(s))
    decreases |es|
  {
    if es != [] {
      assert DistinctKeys(es[1..]);
      if es[0].key.IntKey? {
        LookupAppendIntKey(acc, next, es[0].val, s);
        MergeIntoStrKey(acc + [Entry(IntKey(next), es[0].val)], next + 1, es[1..], s);
      } else {
        MergeIntoStrKey(Put(acc, es[0].key, es[0].val), next, es[1..], s);
        if es[0].key == StrKey(s) {
          assert Lookup(es[1..], StrKey(s)).None?;
        }
      }
    }
  }

  /** `array_merge`: for a string key the second array wins, otherwise the first
      array's value (or absence) is kept. */
  lemma ArrayMergeStrKey(a: seq<Entry>, b: seq<Entry>, s: string)
    requires DistinctKeys(a) && DistinctKeys(b)
    ensures Lookup(ArrayMerge(a, b), StrKey(s)) ==
            if Lookup(b, StrKey(s)).Some? then Lookup(b, StrKey(s)) else Lookup(a, StrKey(s))
  {
    MergeIntoStrKey(MergeInto([], 0, a), IntCount(a), b, s);
    MergeIntoStrKey([], 0, a, s);
  }

  /** PHP's conversion of a scalar to the string it is used as when it becomes
      an array key or is interpolated. */
  function ScalarString(v: Value): string
  {
    match v
    case Null => ""
    case Bool(b) => if b then "1" else ""
    case Int(n) => Strings.IntToString(n)
    case Str(s) => s
    case Arr(_) => "Array"
  }
}
