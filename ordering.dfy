/**
 * Orderings by an integer key: Python's `max(xs, key=...)`, `list.sort(key=...,
 * reverse=True)` (in place) and `sorted(xs, key=..., reverse=True)`.
 */
module Ordering {

  /** `s` is ordered non-increasing by `key`. */
  ghost predicate SortedDesc<T>(s: seq<T>, key: T -> int) {
    forall i, j :: 0 <= i < j < |s| ==> key(s[i]) >= key(s[j])
  }

  /** `max(s, key=key)` as an index: Python keeps the first element of largest
      key, replacing it only by a strictly larger one. */
  function FirstMaxIndex<T>(s: seq<T>, key: T -> int): (m: nat)
    requires |s| > 0
    ensures m < |s|
    ensures forall j :: 0 <= j < |s| ==> key(s[j]) <= key(s[m])
    ensures forall j :: 0 <= j < m ==> key(s[j]) < key(s[m])
  {
    if |s| == 1 then 0
    else
      var best := FirstMaxIndex(s[..|s| - 1], key);
      if key(s[|s| - 1]) > key(s[best]) then |s| - 1 else best
  }

  /** `a.sort(key=key, reverse=True)`, as an insertion sort that moves an element
      left only past strictly smaller keys. */
  method SortDescendingInPlace<T>(a: array<T>, key: T -> int)
    modifies a
    ensures SortedDesc(a[..], key)
    ensures multiset(a[..]) == old(multiset(a[..]))
  {
    var i := 0;
    while i < a.Length
      invariant 0 <= i <= a.Length
      invariant SortedDesc(a[..i], key)
      invariant multiset(a[..]) == old(multiset(a[..]))
    {
      SiftLeft(a, i, key);
      i := i + 1;
    }
    assert a[..] == a[..a.Length];
  }

  /** All pairs within `a[..i+1]` are in order except those ending at `j`. */
  ghost predicate SortedExceptAt<T>(a: seq<T>, i: nat, j: nat, key: T -> int)
    requires i < |a|
  {
    forall p, q :: 0 <= p < q <= i && q != j ==> key(a[p]) >= key(a[q])
  }

  /** One insertion step: `a[i]` moves left into the sorted prefix `a[..i]`. */
  method SiftLeft<T>(a: array<T>, i: nat, key: T -> int)
    requires i < a.Length && SortedDesc(a[..i], key)
    modifies a
    ensures SortedDesc(a[..i + 1], key)
    ensures multiset(a[..]) == old(multiset(a[..]))
    ensures a[i + 1..] == old(a[i + 1..])
  {
    var j := i;
    while j > 0 && key(a[j - 1]) < key(a[j])
      invariant 0 <= j <= i
      invariant SortedExceptAt(a[..], i, j, key)
      invariant multiset(a[..]) == old(multiset(a[..]))
      invariant a[i + 1..] == old(a[i + 1..])
    {
      Swap(a, j - 1, j);
      j := j - 1;
    }
  }

  method Swap<T>(a: array<T>, i: nat, j: nat)
    requires i < j < a.Length
    modifies a
    ensures a[..] == old(a[..])[i := old(a[j])][j := old(a[i])]
    ensures multiset(a[..]) == old(multiset(a[..]))
  {
    a[i], a[j] := a[j], a[i];
  }

  /** Inserts `x` into `s` before the first element whose key is not larger. */
  function InsertDesc<T>(x: T, s: seq<T>, key: T -> int): (r: seq<T>)
    ensures multiset(r) == multiset(s) + multiset{x}
  {
    if s == [] || key(s[0]) <= key(x) then [x] + s
    else
      assert s == [s[0]] + s[1..];
      [s[0]] + InsertDesc(x, s[1..], key)
  }

  lemma {:induction false} InsertDescSorted<T>(x: T, s: seq<T>, key: T -> int)
    requires SortedDesc(s, key)
    ensures SortedDesc(InsertDesc(x, s, key), key)
  {
    if s != [] && key(s[0]) > key(x) {
      var rest := InsertDesc(x, s[1..], key);
      InsertDescSorted(x, s[1..], key);
      forall e | e in rest ensures key(s[0]) >= key(e) {
        assert e in multiset(rest);
        if e != x {
          assert e in multiset(s[1..]);
          var k :| 0 <= k < |s[1..]| && s[1..][k] == e;
          assert s[k + 1] == e;
        }
      }
      var r := [s[0]] + rest;
      forall i, j | 0 <= i < j < |r| ensures key(r[i]) >= key(r[j]) {
        if i == 0 { assert r[j] in rest; } else { assert r[i] == rest[i - 1] && r[j] == rest[j - 1]; }
      }
    }
  }

  /** `sorted(s, key=key, reverse=True)`. */
  function SortDesc<T>(s: seq<T>, key: T -> int): (r: seq<T>)
    ensures multiset(r) == multiset(s)
    ensures |r| == |s|
  {
    if s == [] then []
    else
      assert s == [s[0]] + s[1..];
      InsertDesc(s[0], SortDesc(s[1..], key), key)
  }

  lemma {:induction false} SortDescSorted<T>(s: seq<T>, key: T -> int)
    ensures SortedDesc(SortDesc(s, key), key)
  {
    if s != [] {
      SortDescSorted(s[1..], key);
      InsertDescSorted(s[0], SortDesc(s[1..], key), key);
    }
  }

  /** Truncating a sorted sequence keeps its largest elements: nothing dropped
      has a larger key than anything kept. */
  lemma SortedPrefixHoldsLargest<T>(s: seq<T>, key: T -> int, k: nat)
    requires SortedDesc(s, key) && k <= |s|
    ensures multiset(s[..k]) <= multiset(s)
    ensures forall x, y :: x in multiset(s) - multiset(s[..k]) && y in s[..k] ==> key(y) >= key(x)
  {
    assert s == s[..k] + s[k..];
    assert multiset(s) == multiset(s[..k]) + multiset(s[k..]);
    forall x, y | x in multiset(s) - multiset(s[..k]) && y in s[..k] ensures key(y) >= key(x) {
      assert x in multiset(s[k..]);
      var m :| 0 <= m < |s[k..]| && s[k..][m] == x;
      var n :| 0 <= n < k && s[..k][n] == y;
      assert s[n] == y && s[k + m] == x;
    }
  }
}
