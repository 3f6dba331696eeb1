/** Kotlin's `sortedBy { key }` and `sortedByDescending { key }` for string
    keys: a stable sort, modelled as insertion sort. */
module Sorting {
  import opened Text

  /** May `x` stand before `y` in the output? */
  predicate Precedes<T>(key: T -> string, descending: bool, x: T, y: T) {
    if descending then LexLe(key(y), key(x)) else LexLe(key(x), key(y))
  }

  /** Every earlier element may stand before every later one. */
  predicate SortedBy<T>(s: seq<T>, key: T -> string, descending: bool) {
    forall i, j :: 0 <= i < j < |s| ==> Precedes(key, descending, s[i], s[j])
  }

  lemma PrecedesTotal<T>(key: T -> string, descending: bool, x: T, y: T)
    ensures Precedes(key, descending, x, y) || Precedes(key, descending, y, x)
  {
    LexLeTotal(key(x), key(y));
  }

  lemma PrecedesTransitive<T>(key: T -> string, descending: bool, x: T, y: T, z: T)
    requires Precedes(key, descending, x, y) && Precedes(key, descending, y, z)
    ensures Precedes(key, descending, x, z)
  {
    if descending { LexLeTransitive(key(z), key(y), key(x)); }
    else { LexLeTransitive(key(x), key(y), key(z)); }
  }

  /** Places `x` before the first element it may precede. */
  function Insert<T>(x: T, s: seq<T>, key: T -> string, descending: bool): seq<T> {
    if s == [] then [x]
    else if Precedes(key, descending, x, s[0]) then [x] + s
    else [s[0]] + Insert(x, s[1..], key, descending)
  }

  /** `s.sortedBy(key)` (or `sortedByDescending`). */
  function SortBy<T>(s: seq<T>, key: T -> string, descending: bool): seq<T> {
    if s == [] then [] else Insert(s[0], SortBy(s[1..], key, descending), key, descending)
  }

  lemma {:induction false} InsertPermutes<T>(x: T, s: seq<T>, key: T -> string, descending: bool)
    ensures multiset(Insert(x, s, key, descending)) == multiset(s) + multiset{x}
  {
    if s != [] && !Precedes(key, descending, x, s[0]) {
      InsertPermutes(x, s[1..], key, descending);
      assert s == [s[0]] + s[1..];
    }
  }

  lemma {:induction false} InsertSorted<T>(x: T, s: seq<T>, key: T -> string, descending: bool)
    requires SortedBy(s, key, descending)
    ensures SortedBy(Insert(x, s, key, descending), key, descending)
  {
    if s == [] {
    } else if Precedes(key, descending, x, s[0]) {
      var r := [x] + s;
      forall i, j | 0 <= i < j < |r| ensures Precedes(key, descending, r[i], r[j]) {
        if i == 0 && j > 1 { PrecedesTransitive(key, descending, x, s[0], s[j - 1]); }
      }
    } else {
      PrecedesTotal(key, descending, x, s[0]);
      InsertSorted(x, s[1..], key, descending);
      InsertPermutes(x, s[1..], key, descending);
      var tail := Insert(x, s[1..], key, descending);
      var r := [s[0]] + tail;
      forall i, j | 0 <= i < j < |r| ensures Precedes(key, descending, r[i], r[j]) {
        if i == 0 {
          assert r[j] in multiset(tail);
          assert r[j] == x || r[j] in s[1..];
        }
      }
    }
  }

  /** The result of `sortedBy` is ordered by the key and is a permutation of
      its input. */
  lemma {:induction false} SortByCorrect<T>(s: seq<T>, key: T -> string, descending: bool)
    ensures SortedBy(SortBy(s, key, descending), key, descending)
    ensures multiset(SortBy(s, key, descending)) == multiset(s)
  {
    if s != [] {
      SortByCorrect(s[1..], key, descending);
      InsertSorted(s[0], SortBy(s[1..], key, descending), key, descending);
      InsertPermutes(s[0], SortBy(s[1..], key, descending), key, descending);
      assert s == [s[0]] + s[1..];
    }
  }

  /** The elements of `s` whose key is `k`, in their order in `s`. */
  function KeyClass<T>(s: seq<T>, key: T -> string, k: string): seq<T> {
    if s == [] then [] else (if key(s[0]) == k then [s[0]] else []) + KeyClass(s[1..], key, k)
  }

  /** `x` goes in front of every element with its own key. */
  lemma {:induction false} InsertKeyClass<T>(x: T, s: seq<T>, key: T -> string, descending: bool, k: string)
    ensures KeyClass(Insert(x, s, key, descending), key, k)
            == (if key(x) == k then [x] else []) + KeyClass(s, key, k)
  {
    if s == [] {
    } else if Precedes(key, descending, x, s[0]) {
      var r := [x] + s;
      assert r[0] == x && r[1..] == s;
    } else {
      LexLeReflexive(key(x));
      assert key(s[0]) != key(x);
      InsertKeyClass(x, s[1..], key, descending, k);
      var r := [s[0]] + Insert(x, s[1..], key, descending);
      assert r[0] == s[0] && r[1..] == Insert(x, s[1..], key, descending);
    }
  }

  /** `sortedBy` is stable: the elements with any one key keep their input
      order. */
  lemma {:induction false} SortByStable<T>(s: seq<T>, key: T -> string, descending: bool, k: string)
    ensures KeyClass(SortBy(s, key, descending), key, k) == KeyClass(s, key, k)
  {
    if s != [] {
      SortByStable(s[1..], key, descending, k);
      InsertKeyClass(s[0], SortBy(s[1..], key, descending), key, descending, k);
    }
  }

  /** `s.count { p(it) }` */
  function CountWhere<T>(s: seq<T>, p: T -> bool): (n: nat)
    ensures n <= |s|
  {
    if s == [] then 0 else (if p(s[0]) then 1 else 0) + CountWhere(s[1..], p)
  }

  lemma {:induction false} CountWhereInsert<T>(x: T, s: seq<T>, key: T -> string, descending: bool, p: T -> bool)
    ensures CountWhere(Insert(x, s, key, descending), p) == CountWhere(s, p) + (if p(x) then 1 else 0)
  {
    if s != [] && !Precedes(key, descending, x, s[0]) {
      CountWhereInsert(x, s[1..], key, descending, p);
      var r := Insert(x, s, key, descending);
      assert r[1..] == Insert(x, s[1..], key, descending);
    } else if s != [] {
      assert ([x] + s)[1..] == s;
    }
  }

  lemma {:induction false} CountWhereAppend<T>(a: seq<T>, b: seq<T>, p: T -> bool)
    ensures CountWhere(a + b, p) == CountWhere(a, p) + CountWhere(b, p)
  {
    if a == [] {
      assert a + b == b;
    } else {
      assert (a + b)[1..] == a[1..] + b;
      CountWhereAppend(a[1..], b, p);
    }
  }

  /** Counting the elements that satisfy `p` gives the same number before and
      after sorting. */
  lemma {:induction false} CountWhereSortBy<T>(s: seq<T>, key: T -> string, descending: bool, p: T -> bool)
    ensures CountWhere(SortBy(s, key, descending), p) == CountWhere(s, p)
  {
    if s != [] {
      CountWhereSortBy(s[1..], key, descending, p);
      CountWhereInsert(s[0], SortBy(s[1..], key, descending), key, descending, p);
    }
  }
}
