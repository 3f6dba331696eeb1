/** Kotlin's `distinctBy`, `distinct` and `associateBy` on lists, and the
    subsequence relation that says they keep the input's order. */
module Sequences {
  import opened Sorting

  /** `r` is obtained from `s` by deleting elements. */
  predicate IsSubsequence<T(==)>(r: seq<T>, s: seq<T>)
    decreases |s|
  {
    r == [] || (s != [] && ((r[0] == s[0] && IsSubsequence(r[1..], s[1..])) || IsSubsequence(r, s[1..])))
  }

  lemma {:induction false} SubsequenceElements<T>(r: seq<T>, s: seq<T>)
    requires IsSubsequence(r, s)
    ensures forall x :: x in r ==> x in s
    decreases |s|
  {
    if r != [] {
      if r[0] == s[0] && IsSubsequence(r[1..], s[1..]) {
        SubsequenceElements(r[1..], s[1..]);
        assert r == [r[0]] + r[1..];
      } else {
        SubsequenceElements(r, s[1..]);
      }
    }
  }

  /** Deleting elements keeps an ordering. */
  lemma {:induction false} SubsequenceSorted<T>(r: seq<T>, s: seq<T>, key: T -> string, descending: bool)
    requires IsSubsequence(r, s) && SortedBy(s, key, descending)
    ensures SortedBy(r, key, descending)
    decreases |s|
  {
    if r != [] {
      assert SortedBy(s[1..], key, descending);
      if r[0] == s[0] && IsSubsequence(r[1..], s[1..]) {
        SubsequenceSorted(r[1..], s[1..], key, descending);
        SubsequenceElements(r[1..], s[1..]);
        forall i, j | 0 <= i < j < |r| ensures Precedes(key, descending, r[i], r[j]) {
          if i == 0 {
            assert r[j] == r[1..][j - 1];
            assert r[j] in s[1..];
          } else {
            assert r[i] == r[1..][i - 1] && r[j] == r[1..][j - 1];
          }
        }
      } else {
        SubsequenceSorted(r, s[1..], key, descending);
      }
    }
  }

  /** `s.distinctBy(key)` with the keys in `seen` already taken: keeps the first
      element of each key, in order. */
  function DistinctBy<T, K>(s: seq<T>, key: T -> K, seen: set<K>): (r: seq<T>)
    ensures IsSubsequence(r, s)
    ensures forall i :: 0 <= i < |r| ==> key(r[i]) !in seen
    ensures forall i, j :: 0 <= i < j < |r| ==> key(r[i]) != key(r[j])
    ensures forall x :: x in s && key(x) !in seen ==> exists y :: y in r && key(y) == key(x)
  {
    if s == [] then []
    else if key(s[0]) in seen then
      var r := DistinctBy(s[1..], key, seen);
      assert forall x :: x in s && key(x) !in seen ==> x in s[1..];
      r
    else
      var rest := DistinctBy(s[1..], key, seen + {key(s[0])});
      var r := [s[0]] + rest;
      assert r[1..] == rest;
      assert forall i :: 1 <= i < |r| ==> r[i] == rest[i - 1];
      assert forall x :: x in s && key(x) !in seen && key(x) != key(s[0]) ==> x in s[1..];
      r
  }

  /** `distinctBy` keeps each key's FIRST element. */
  lemma {:induction false} DistinctByKeepsFirst<T, K>(s: seq<T>, key: T -> K, seen: set<K>, i: nat)
    requires i < |s| && key(s[i]) !in seen
    requires forall j :: 0 <= j < i ==> key(s[j]) != key(s[i])
    ensures s[i] in DistinctBy(s, key, seen)
  {
    if i == 0 {
    } else if key(s[0]) in seen {
      DistinctByKeepsFirst(s[1..], key, seen, i - 1);
    } else {
      DistinctByKeepsFirst(s[1..], key, seen + {key(s[0])}, i - 1);
    }
  }

  /** Kotlin `distinct()` on strings. */
  function Distinct(s: seq<string>): seq<string> {
    DistinctBy(s, (x: string) => x, {})
  }

  /** `distinct()` yields each value of the input exactly once, in the order
      of first appearance. */
  lemma DistinctCorrect(s: seq<string>)
    ensures IsSubsequence(Distinct(s), s)
    ensures forall i, j :: 0 <= i < j < |Distinct(s)| ==> Distinct(s)[i] != Distinct(s)[j]
    ensures forall x :: x in Distinct(s) <==> x in s
  {
    var r := Distinct(s);
    SubsequenceElements(r, s);
    forall x | x in s ensures x in r {
      var y :| y in r && y == x;
    }
  }

  /** `s.associateBy(key)`: later elements overwrite earlier ones. */
  function AssociateBy<T, K>(s: seq<T>, key: T -> K): (m: map<K, T>)
    ensures forall i :: 0 <= i < |s| ==> key(s[i]) in m
    ensures forall k :: k in m ==>
              exists i :: 0 <= i < |s| && m[k] == s[i] && key(s[i]) == k
                          && (forall j :: i < j < |s| ==> key(s[j]) != k)
  {
    if s == [] then map[]
    else
      var init := s[..|s| - 1];
      var last := s[|s| - 1];
      var m0 := AssociateBy(init, key);
      assert forall i :: 0 <= i < |init| ==> init[i] == s[i];
      m0[key(last) := last]
  }
}
