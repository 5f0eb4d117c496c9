/** Small shared vocabulary: an optional value and a JavaScript-style "is this field given" test. */
module Basics {

  /** `null` / `undefined` in the source become `None`. */
  datatype Option<+T> = None | Some(value: T)

  /** A numeric request field passes the source's `!x` test only when it is present and not 0. */
  predicate GivenId(x: Option<int>)
  {
    x.Some? && x.value != 0
  }

  /** A string request field passes the source's `!s` test only when it is present and not empty. */
  predicate GivenText(s: Option<string>)
  {
    s.Some? && s.value != ""
  }

  /** The elements that satisfy p, in their order: the source's `Array.prototype.filter`. */
  function Filter<T>(s: seq<T>, p: T -> bool): seq<T>
    decreases |s|
  {
    if |s| == 0 then [] else (if p(s[0]) then [s[0]] else []) + Filter(s[1..], p)
  }

  /** The filtered sequence holds exactly the elements that satisfy p, and is no longer than the input. */
  lemma {:induction false} FilterExact<T>(s: seq<T>, p: T -> bool)
    ensures forall x :: x in Filter(s, p) <==> x in s && p(x)
    ensures |Filter(s, p)| <= |s|
    decreases |s|
  {
    if |s| > 0 {
      FilterExact(s[1..], p);
      assert s == [s[0]] + s[1..];
    }
  }

  /** The left-to-right sum of f over the elements, starting from 0: the source's `reduce` with `+`. */
  function SumOf<T>(s: seq<T>, f: T -> int): int
    decreases |s|
  {
    if |s| == 0 then 0 else SumOf(s[..|s| - 1], f) + f(s[|s| - 1])
  }

  lemma SumOfAppend<T>(a: seq<T>, x: T, f: T -> int)
    ensures SumOf(a + [x], f) == SumOf(a, f) + f(x)
  {
    assert (a + [x])[..|a|] == a;
  }

  /** Replacing one element changes the sum by the difference of the two terms. */
  lemma {:induction false} SumOfUpdate<T>(a: seq<T>, i: int, x: T, f: T -> int)
    requires 0 <= i < |a|
    ensures SumOf(a[i := x], f) == SumOf(a, f) - f(a[i]) + f(x)
    decreases |a|
  {
    var n := |a| - 1;
    if i < n {
      assert a[i := x][..n] == a[..n][i := x];
      SumOfUpdate(a[..n], i, x, f);
    } else {
      assert a[i := x][..n] == a[..n];
    }
  }

  /** Removing one element takes its term out of the sum. */
  lemma {:induction false} SumOfRemove<T>(a: seq<T>, i: int, f: T -> int)
    requires 0 <= i < |a|
    ensures SumOf(a[..i] + a[i + 1..], f) == SumOf(a, f) - f(a[i])
    decreases |a|
  {
    var n := |a| - 1;
    var b := a[..i] + a[i + 1..];
    if i < n {
      assert b[..|b| - 1] == a[..n][..i] + a[..n][i + 1..];
      assert b[|b| - 1] == a[n];
      SumOfRemove(a[..n], i, f);
    } else {
      assert b == a[..n];
    }
  }

  lemma {:induction false} SumOfZeros<T>(a: seq<T>, f: T -> int)
    requires forall i :: 0 <= i < |a| ==> f(a[i]) == 0
    ensures SumOf(a, f) == 0
    decreases |a|
  {
    if |a| > 0 {
      SumOfZeros(a[..|a| - 1], f);
    }
  }

  /** Filtering with two tests that agree on every element gives the same sequence. */
  lemma {:induction false} FilterSame<T>(s: seq<T>, p: T -> bool, q: T -> bool)
    requires forall i :: 0 <= i < |s| ==> p(s[i]) == q(s[i])
    ensures Filter(s, p) == Filter(s, q)
    decreases |s|
  {
    if |s| > 0 {
      FilterSame(s[1..], p, q);
    }
  }
}
