/**
 `list.sort(key=…, reverse=True)`: descending by key, equal keys in their old order.
 */
module StableSort {

  /** Place `x` after every entry whose key is at least as large. */
  function Insert<T>(key: T -> real, s: seq<T>, x: T): (r: seq<T>)
    ensures |r| == |s| + 1
  {
    if s == [] || key(s[|s| - 1]) >= key(x) then s + [x]
    else Insert(key, s[..|s| - 1], x) + [s[|s| - 1]]
  }

  function Sort<T>(key: T -> real, s: seq<T>): (r: seq<T>)
    ensures |r| == |s|
  {
    if s == [] then [] else Insert(key, Sort(key, s[..|s| - 1]), s[|s| - 1])
  }

  ghost predicate Descending<T>(key: T -> real, s: seq<T>) {
    forall i, j | 0 <= i < j < |s| :: key(s[i]) >= key(s[j])
  }

  lemma {:induction false} InsertSorts<T>(key: T -> real, s: seq<T>, x: T)
    requires Descending(key, s)
    ensures Descending(key, Insert(key, s, x))
    ensures forall i | 0 <= i < |Insert(key, s, x)| :: Insert(key, s, x)[i] == x || Insert(key, s, x)[i] in s
  {
    if s != [] && key(s[|s| - 1]) < key(x) {
      InsertSorts(key, s[..|s| - 1], x);
    }
  }

  lemma {:induction false} InsertKeepsAll<T>(key: T -> real, s: seq<T>, x: T)
    ensures multiset(Insert(key, s, x)) == multiset(s) + multiset{x}
  {
    if s != [] && key(s[|s| - 1]) < key(x) {
      var front, last := s[..|s| - 1], s[|s| - 1];
      assert s == front + [last];
      InsertKeepsAll(key, front, x);
    }
  }

  lemma {:induction false} SortSorts<T>(key: T -> real, s: seq<T>)
    ensures Descending(key, Sort(key, s)) && multiset(Sort(key, s)) == multiset(s)
  {
    if s != [] {
      var n := |s| - 1;
      SortSorts(key, s[..n]);
      InsertSorts(key, Sort(key, s[..n]), s[n]);
      InsertKeepsAll(key, Sort(key, s[..n]), s[n]);
      assert s == s[..n] + [s[n]];
    }
  }

  lemma SortMembers<T>(key: T -> real, s: seq<T>, x: T)
    ensures x in Sort(key, s) <==> x in s
  {
    SortSorts(key, s);
    assert x in multiset(Sort(key, s)) <==> x in multiset(s);
  }

  /** The entries whose key is `k`, in order. */
  function WithKey<T>(key: T -> real, s: seq<T>, k: real): seq<T> {
    if s == [] then []
    else WithKey(key, s[..|s| - 1], k) + if key(s[|s| - 1]) == k then [s[|s| - 1]] else []
  }

  lemma {:induction false} InsertIsStable<T>(key: T -> real, s: seq<T>, x: T, k: real)
    requires Descending(key, s)
    ensures WithKey(key, Insert(key, s, x), k) == WithKey(key, s, k) + if key(x) == k then [x] else []
  {
    var n := |s| - 1;
    if s == [] || key(s[n]) >= key(x) {
      assert (s + [x])[..|s|] == s;
    } else {
      var front, r := s[..n], Insert(key, s[..n], x);
      InsertIsStable(key, front, x, k);
      assert (r + [s[n]])[..|r|] == r;
      assert key(s[n]) == k ==> key(x) != k;
    }
  }

  /** Entries with equal keys stay in their old order. */
  lemma {:induction false} SortIsStable<T>(key: T -> real, s: seq<T>, k: real)
    ensures WithKey(key, Sort(key, s), k) == WithKey(key, s, k)
  {
    if s != [] {
      var n := |s| - 1;
      SortIsStable(key, s[..n], k);
      SortSorts(key, s[..n]);
      InsertIsStable(key, Sort(key, s[..n]), s[n], k);
    }
  }

  ghost predicate DistinctBy<T, U>(f: T -> U, s: seq<T>) {
    forall i, j | 0 <= i < j < |s| :: f(s[i]) != f(s[j])
  }

  lemma {:induction false} InsertKeepsDistinct<T, U>(key: T -> real, f: T -> U, s: seq<T>, x: T)
    requires DistinctBy(f, s)
    requires forall i | 0 <= i < |s| :: f(s[i]) != f(x)
    ensures DistinctBy(f, Insert(key, s, x))
    ensures forall i | 0 <= i < |Insert(key, s, x)| :: Insert(key, s, x)[i] == x || Insert(key, s, x)[i] in s
  {
    if s != [] && key(s[|s| - 1]) < key(x) {
      var front, last := s[..|s| - 1], s[|s| - 1];
      InsertKeepsDistinct(key, f, front, x);
      forall y | y in front
        ensures f(y) != f(last)
      {
        var i :| 0 <= i < |front| && front[i] == y;
        assert s[i] == y;
      }
    }
  }

  /** Sorting keeps apart what was apart. */
  lemma {:induction false} SortKeepsDistinct<T, U>(key: T -> real, f: T -> U, s: seq<T>)
    requires DistinctBy(f, s)
    ensures DistinctBy(f, Sort(key, s))
  {
    if s != [] {
      var n := |s| - 1;
      SortKeepsDistinct(key, f, s[..n]);
      forall i | 0 <= i < n
        ensures f(Sort(key, s[..n])[i]) != f(s[n])
      {
        SortMembers(key, s[..n], Sort(key, s[..n])[i]);
      }
      InsertKeepsDistinct(key, f, Sort(key, s[..n]), s[n]);
    }
  }
}
