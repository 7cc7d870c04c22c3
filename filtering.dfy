/** Order-preserving filtering of sequences: the meaning of appending the
    elements that pass a test, and of std::remove_if followed by erase. */
module Filtering {

  /** The elements of `s` that satisfy `f`, in their original order. */
  function Filter<T(!new)>(f: T -> bool, s: seq<T>): (r: seq<T>)
    ensures |r| <= |s|
  {
    if s == [] then []
    else Filter(f, s[..|s| - 1]) + (if f(s[|s| - 1]) then [s[|s| - 1]] else [])
  }

  /** Every kept element passes the test, and each value occurs in the result
      as often as in the input when it passes, and not at all otherwise. */
  lemma {:induction false} FilterContents<T(!new)>(f: T -> bool, s: seq<T>)
    ensures forall k :: 0 <= k < |Filter(f, s)| ==> f(Filter(f, s)[k])
    ensures forall x :: multiset(Filter(f, s))[x] == if f(x) then multiset(s)[x] else 0
    decreases |s|
  {
    if s != [] {
      var init, x := s[..|s| - 1], s[|s| - 1];
      assert s == init + [x];
      FilterContents(f, init);
    }
  }

  /** `r` can be obtained from `s` by deleting elements. */
  predicate SubsequenceOf<T(==)>(r: seq<T>, s: seq<T>)
    decreases |s|
  {
    if s == [] then r == []
    else
      SubsequenceOf(r, s[..|s| - 1])
      || (r != [] && r[|r| - 1] == s[|s| - 1] && SubsequenceOf(r[..|r| - 1], s[..|s| - 1]))
  }

  /** The kept elements stay in their original relative order. */
  lemma {:induction false} FilterIsSubsequence<T(!new)>(f: T -> bool, s: seq<T>)
    ensures SubsequenceOf(Filter(f, s), s)
    decreases |s|
  {
    if s != [] {
      var init := s[..|s| - 1];
      FilterIsSubsequence(f, init);
      var x := s[|s| - 1];
      assert s == init + [x];
      FilterSnoc(f, init, x);
      var r := Filter(f, s);
      if f(x) {
        assert r == Filter(f, init) + [x];
        assert r[..|r| - 1] == Filter(f, init);
        assert r != [] && r[|r| - 1] == s[|s| - 1];
      } else {
        assert r == Filter(f, init);
      }
      assert s[..|s| - 1] == init;
    }
  }

  /** Filtering one more element appends it exactly when it passes. */
  lemma FilterSnoc<T(!new)>(f: T -> bool, s: seq<T>, x: T)
    ensures Filter(f, s + [x]) == Filter(f, s) + (if f(x) then [x] else [])
  {
    assert (s + [x])[..|s|] == s;
  }

  /** When every element passes, the filter is the identity. */
  lemma {:induction false} FilterKeepsAll<T(!new)>(f: T -> bool, s: seq<T>)
    requires forall k :: 0 <= k < |s| ==> f(s[k])
    ensures Filter(f, s) == s
    decreases |s|
  {
    if s != [] {
      var init, x := s[..|s| - 1], s[|s| - 1];
      assert s == init + [x];
      FilterSnoc(f, init, x);
      FilterKeepsAll(f, init);
    }
  }

  /** Filtering twice with the same test removes nothing more. */
  lemma FilterIdempotent<T(!new)>(f: T -> bool, s: seq<T>)
    ensures Filter(f, Filter(f, s)) == Filter(f, s)
  {
    FilterContents(f, s);
    FilterKeepsAll(f, Filter(f, s));
  }

  /** The negation of a test. */
  function Not<T>(pred: T -> bool): T -> bool
  {
    x => !pred(x)
  }

  /** std::remove_if followed by erase: moves the elements that fail `pred`
      to the front of `a`, keeping their order, and returns the new end. */
  method RemoveIf<T(!new)>(a: array<T>, pred: T -> bool) returns (end: nat)
    modifies a
    ensures end <= a.Length
    ensures a[..end] == Filter(Not(pred), old(a[..]))
  {
    ghost var s := a[..];
    end := 0;
    for r := 0 to a.Length
      invariant end <= r
      invariant a[..end] == Filter(Not(pred), s[..r])
      invariant forall k :: r <= k < a.Length ==> a[k] == s[k]
    {
      assert s[..r + 1] == s[..r] + [s[r]];
      FilterSnoc(Not(pred), s[..r], s[r]);
      var x := a[r];
      if !pred(x) {
        a[end] := x;
        assert a[..end + 1] == a[..end] + [x];
        end := end + 1;
      }
    }
    assert s[..a.Length] == s;
  }
}
