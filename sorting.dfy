/** A sort by a string key, ordering keys as Python compares strings. */
module Sorting {
  import opened Text

  predicate SortedBy<T>(xs: seq<T>, key: T -> string) {
    forall i, j :: 0 <= i < j < |xs| ==> LexLeq(key(xs[i]), key(xs[j]))
  }

  /** A sorted sequence stays sorted with a head whose key is at most every key in it. */
  lemma SortedCons<T>(h: T, rest: seq<T>, key: T -> string)
    requires SortedBy(rest, key)
    requires forall j :: 0 <= j < |rest| ==> LexLeq(key(h), key(rest[j]))
    ensures SortedBy([h] + rest, key)
  {
    var r := [h] + rest;
    forall i, j | 0 <= i < j < |r| ensures LexLeq(key(r[i]), key(r[j])) {
      assert r[j] == rest[j - 1];
      if i > 0 { assert r[i] == rest[i - 1]; }
    }
  }

  /** Inserts `x` before the first element whose key is not below `x`'s. */
  function InsertBy<T>(x: T, xs: seq<T>, key: T -> string): (r: seq<T>)
    requires SortedBy(xs, key)
    ensures SortedBy(r, key)
    ensures multiset(r) == multiset(xs) + multiset{x}
    ensures |r| == |xs| + 1
    ensures forall i :: 0 <= i < |r| ==> r[i] == x || r[i] in xs
    ensures x in r && forall i :: 0 <= i < |xs| ==> xs[i] in r
  {
    if xs == [] then [x]
    else if LexLeq(key(x), key(xs[0])) then
      assert forall j :: 0 <= j < |xs| ==> LexLeq(key(x), key(xs[j])) by {
        forall j | 0 <= j < |xs| ensures LexLeq(key(x), key(xs[j])) {
          if j > 0 { LexLeqTransitive(key(x), key(xs[0]), key(xs[j])); }
        }
      }
      SortedCons(x, xs, key);
      [x] + xs
    else
      assert xs == [xs[0]] + xs[1..];
      var rest := InsertBy(x, xs[1..], key);
      assert LexLeq(key(xs[0]), key(x)) by { LexLessTotal(key(x), key(xs[0])); }
      assert forall j :: 0 <= j < |rest| ==> LexLeq(key(xs[0]), key(rest[j])) by {
        forall j | 0 <= j < |rest| ensures LexLeq(key(xs[0]), key(rest[j])) {
          if rest[j] != x {
            assert rest[j] in xs[1..];
            var k :| 0 <= k < |xs[1..]| && xs[1..][k] == rest[j];
            assert xs[k + 1] == rest[j];
          }
        }
      }
      SortedCons(xs[0], rest, key);
      [xs[0]] + rest
  }

  /** Insertion sort: sorted by key, with the same elements. */
  function SortBy<T>(xs: seq<T>, key: T -> string): (r: seq<T>)
    ensures SortedBy(r, key)
    ensures multiset(r) == multiset(xs)
    ensures |r| == |xs|
    ensures forall i :: 0 <= i < |r| ==> r[i] in xs
    ensures forall i :: 0 <= i < |xs| ==> xs[i] in r
  {
    if xs == [] then []
    else
      assert xs == [xs[0]] + xs[1..];
      InsertBy(xs[0], SortBy(xs[1..], key), key)
  }
}
