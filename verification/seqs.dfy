/** Sequence helpers shared by the stores and views: order-preserving
    filtering and a stable insertion sort by a caller-supplied comparison
    (the model of `Array.prototype.filter` and `Array.prototype.sort`). */
module Seqs {

  /** `a` is `b` with some elements left out, the rest kept in order. */
  predicate IsSubsequence<T(==)>(a: seq<T>, b: seq<T>)
  {
    if a == [] then true
    else if b == [] then false
    else if a[0] == b[0] then IsSubsequence(a[1..], b[1..])
    else IsSubsequence(a, b[1..])
  }

  /** `s.filter(p)`: keeps, in order, exactly the elements satisfying `p`,
      each as many times as it occurs in `s`. */
  function Filter<T(==,!new)>(p: T -> bool, s: seq<T>): (r: seq<T>)
    ensures |r| <= |s|
    ensures forall x :: x in r <==> x in s && p(x)
    ensures forall x :: multiset(r)[x] == if p(x) then multiset(s)[x] else 0
    ensures IsSubsequence(r, s)
  {
    if s == [] then []
    else
      var rest := Filter(p, s[1..]);
      assert s == [s[0]] + s[1..];
      if p(s[0]) then [s[0]] + rest else rest
  }

  /** The outputs of `f` for the elements of `s`, concatenated in order:
      every output comes from some element. */
  function Collect<T, U(==)>(f: T -> seq<U>, s: seq<T>): (r: seq<U>)
    ensures forall u :: u in r ==> exists i :: 0 <= i < |s| && u in f(s[i])
  {
    if s == [] then []
    else
      var n := |s| - 1;
      var init := Collect(f, s[..n]);
      assert forall i :: 0 <= i < n ==> s[..n][i] == s[i];
      init + f(s[n])
  }

  /** Collecting over a concatenation concatenates the collections. */
  lemma {:induction false} CollectConcat<T, U>(f: T -> seq<U>, a: seq<T>, b: seq<T>)
    ensures Collect(f, a + b) == Collect(f, a) + Collect(f, b)
  {
    if b == [] {
      assert a + b == a;
    } else {
      var n := |b| - 1;
      assert (a + b)[..|a| + n] == a + b[..n];
      CollectConcat(f, a, b[..n]);
    }
  }

  /** The collection is empty exactly when every element's output is. */
  lemma {:induction false} CollectEmpty<T, U>(f: T -> seq<U>, s: seq<T>)
    ensures Collect(f, s) == [] <==> forall i :: 0 <= i < |s| ==> f(s[i]) == []
  {
    if s != [] {
      var n := |s| - 1;
      CollectEmpty(f, s[..n]);
      assert forall i :: 0 <= i < n ==> s[..n][i] == s[i];
    }
  }

  /** `le` is total and transitive on the values in `dom`. */
  ghost predicate TotalPreorder<T(!new)>(le: (T, T) -> bool, dom: set<T>)
  {
    && (forall a, b :: a in dom && b in dom ==> le(a, b) || le(b, a))
    && (forall a, b, c :: a in dom && b in dom && c in dom && le(a, b) && le(b, c) ==> le(a, c))
  }

  /** Every element is `le` every later element. */
  ghost predicate Sorted<T>(le: (T, T) -> bool, s: seq<T>)
  {
    forall i, j :: 0 <= i < j < |s| ==> le(s[i], s[j])
  }

  /** Inserts `x` in front of the first element it is `le`. */
  function Insert<T>(le: (T, T) -> bool, x: T, s: seq<T>): (r: seq<T>)
    ensures |r| == |s| + 1
    ensures multiset(r) == multiset(s) + multiset{x}
  {
    if s == [] || le(x, s[0]) then [x] + s
    else
      assert s == [s[0]] + s[1..];
      [s[0]] + Insert(le, x, s[1..])
  }

  /** Stable insertion sort: `[...s].sort(cmp)` where `le(a, b)` means
      `cmp(a, b) <= 0`. The input sequence itself is a value and is not changed. */
  function SortBy<T>(le: (T, T) -> bool, s: seq<T>): (r: seq<T>)
    ensures |r| == |s|
    ensures multiset(r) == multiset(s)
  {
    if s == [] then []
    else
      assert s == [s[0]] + s[1..];
      Insert(le, s[0], SortBy(le, s[1..]))
  }

  lemma {:induction false} InsertSorted<T(!new)>(le: (T, T) -> bool, dom: set<T>, x: T, s: seq<T>)
    requires TotalPreorder(le, dom)
    requires x in dom && forall y :: y in s ==> y in dom
    requires Sorted(le, s)
    ensures Sorted(le, Insert(le, x, s))
  {
    if s == [] || le(x, s[0]) {
    } else {
      var tail := Insert(le, x, s[1..]);
      InsertSorted(le, dom, x, s[1..]);
      assert le(s[0], x);
      forall y | y in tail ensures le(s[0], y) {
        assert y in multiset(tail);
        assert y == x || y in multiset(s[1..]);
      }
      var r := [s[0]] + tail;
      forall i, j | 0 <= i < j < |r| ensures le(r[i], r[j]) {
        if i == 0 { assert r[j] in tail; }
      }
    }
  }

  /** With a comparison that is a total preorder on the elements, the sort
      result is ordered. */
  lemma {:induction false} SortBySorted<T(!new)>(le: (T, T) -> bool, dom: set<T>, s: seq<T>)
    requires TotalPreorder(le, dom)
    requires forall y :: y in s ==> y in dom
    ensures Sorted(le, SortBy(le, s))
  {
    if s != [] {
      SortBySorted(le, dom, s[1..]);
      forall y | y in SortBy(le, s[1..]) ensures y in dom {
        assert y in multiset(SortBy(le, s[1..]));
      }
      InsertSorted(le, dom, s[0], SortBy(le, s[1..]));
    }
  }
}
