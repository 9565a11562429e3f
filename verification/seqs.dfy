/** Order-preserving filtering, the model of `Array.prototype.filter`. */
module Seqs {

  function Filter<T>(s: seq<T>, keep: T -> bool): (r: seq<T>)
    ensures |r| <= |s|
    ensures forall i :: 0 <= i < |r| ==> r[i] in s && keep(r[i])
    ensures forall i :: 0 <= i < |s| && keep(s[i]) ==> s[i] in r
  {
    if s == [] then []
    else
      assert s == [s[0]] + s[1..];
      (if keep(s[0]) then [s[0]] else []) + Filter(s[1..], keep)
  }

  /** The first element is kept exactly when it passes. */
  lemma FilterCons<T>(x: T, s: seq<T>, keep: T -> bool)
    ensures Filter([x] + s, keep) == (if keep(x) then [x] else []) + Filter(s, keep)
  {
    assert ([x] + s)[1..] == s;
  }

  /** Filtering distributes over concatenation, so it keeps the relative order
      of the elements it retains. */
  lemma {:induction false} FilterAppend<T>(a: seq<T>, b: seq<T>, keep: T -> bool)
    ensures Filter(a + b, keep) == Filter(a, keep) + Filter(b, keep)
  {
    if a == [] {
      assert a + b == b;
    } else {
      assert (a + b)[1..] == a[1..] + b;
      FilterAppend(a[1..], b, keep);
    }
  }

  /** Filtering with a predicate every element meets changes nothing. */
  lemma {:induction false} FilterAll<T>(s: seq<T>, keep: T -> bool)
    requires forall i :: 0 <= i < |s| ==> keep(s[i])
    ensures Filter(s, keep) == s
  {
    if s != [] {
      FilterAll(s[1..], keep);
    }
  }

  /** The multiset of the kept elements is exactly the multiset of the elements
      of `s` that satisfy `keep`, each with its multiplicity. */
  lemma {:induction false} FilterCount<T>(s: seq<T>, keep: T -> bool, x: T)
    ensures multiset(Filter(s, keep))[x] == if keep(x) then multiset(s)[x] else 0
  {
    if s != [] {
      FilterCount(s[1..], keep, x);
      assert s == [s[0]] + s[1..];
      if keep(s[0]) {
        assert Filter(s, keep) == [s[0]] + Filter(s[1..], keep);
      } else {
        assert Filter(s, keep) == Filter(s[1..], keep);
      }
    }
  }

  /** `Array.prototype.map`. */
  function Map<T, U>(s: seq<T>, f: T -> U): (r: seq<U>)
    ensures |r| == |s|
    ensures forall k :: 0 <= k < |s| ==> r[k] == f(s[k])
  {
    seq(|s|, k requires 0 <= k < |s| => f(s[k]))
  }

  /** Mapping distributes over concatenation. */
  lemma MapAppend<T, U>(a: seq<T>, b: seq<T>, f: T -> U)
    ensures Map(a + b, f) == Map(a, f) + Map(b, f)
  {
  }
}
