/** Sorting by a real-valued key, as the engine uses its library sort. */
module Sorting {

  ghost predicate SortedBy<T>(key: T -> real, s: seq<T>)
  {
    forall i, j :: 0 <= i < j < |s| ==> key(s[i]) <= key(s[j])
  }

  lemma EmptySorted<T>(key: T -> real, s: seq<T>)
    requires s == []
    ensures SortedBy(key, s)
  {
  }

  lemma InsertedPermutes<T>(s: seq<T>, n: nat, r: seq<T>, at: nat)
    requires n < |s| && at <= |r| && multiset(r) == multiset(s[..n])
    ensures multiset(r[..at] + [s[n]] + r[at..]) == multiset(s[..n + 1])
  {
    assert s[..n + 1] == s[..n] + [s[n]];
    assert r == r[..at] + r[at..];
  }

  lemma InsertedSorted<T>(key: T -> real, r: seq<T>, x: T, at: nat)
    requires SortedBy(key, r) && at <= |r|
    requires forall i :: 0 <= i < at ==> key(r[i]) <= key(x)
    requires forall i :: at <= i < |r| ==> key(x) < key(r[i])
    ensures SortedBy(key, r[..at] + [x] + r[at..])
  {
    var t := r[..at] + [x] + r[at..];
    assert forall i :: 0 <= i < |t| ==> t[i] == if i < at then r[i] else if i == at then x else r[i - 1];
  }

  /** Any order is allowed between elements of equal key. */
  method SortBy<T>(key: T -> real, s: seq<T>) returns (r: seq<T>)
    ensures SortedBy(key, r)
    ensures multiset(r) == multiset(s)
  {
    hide SortedBy;
    r := [];
    EmptySorted(key, r);
    for n := 0 to |s|
      invariant SortedBy(key, r)
      invariant multiset(r) == multiset(s[..n])
    {
      var at := InsertionPoint(key, r, s[n]);
      InsertedPermutes(s, n, r, at);
      InsertedSorted(key, r, s[n], at);
      r := r[..at] + [s[n]] + r[at..];
    }
    assert s[..|s|] == s;
  }

  method InsertionPoint<T>(key: T -> real, s: seq<T>, x: T) returns (at: nat)
    requires SortedBy(key, s)
    ensures at <= |s|
    ensures forall i :: 0 <= i < at ==> key(s[i]) <= key(x)
    ensures forall i :: at <= i < |s| ==> key(x) < key(s[i])
  {
    at := |s|;
    while at > 0 && key(x) < key(s[at - 1])
      invariant at <= |s|
      invariant forall i :: at <= i < |s| ==> key(x) < key(s[i])
    {
      at := at - 1;
    }
  }
}
