/** Failure-carrying datatypes shared by every module of the model.
    `Option` stands for a pandas cell that may be null (NaN / NaT / None);
    `Result` stands for a computation that may raise.
 */
module Wrappers {

  datatype Option<+T> = None | Some(value: T)

  datatype Result<+R, +E> = Ok(value: R) | Err(error: E)

  /** Number of occurrences of `x` in `s` (pandas `value_counts` for one value). */
  function Count<T(==)>(s: seq<T>, x: T): (n: nat)
    ensures n <= |s|
  {
    if |s| == 0 then 0
    else Count(s[..|s| - 1], x) + (if s[|s| - 1] == x then 1 else 0)
  }

  lemma {:induction false} CountAppend<T>(a: seq<T>, b: seq<T>, x: T)
    ensures Count(a + b, x) == Count(a, x) + Count(b, x)
    decreases |b|
  {
    if |b| == 0 {
      assert a + b == a;
    } else {
      assert (a + b)[..|a + b| - 1] == a + b[..|b| - 1];
      CountAppend(a, b[..|b| - 1], x);
    }
  }

  /** Occurrence counting agrees with Dafny's multisets. */
  lemma {:induction false} CountIsMultiplicity<T>(s: seq<T>, x: T)
    ensures Count(s, x) == multiset(s)[x]
    decreases |s|
  {
    if |s| > 0 {
      assert s == s[..|s| - 1] + [s[|s| - 1]];
      CountIsMultiplicity(s[..|s| - 1], x);
    }
  }

  /** `table[mask]`: the rows that satisfy `keep`, in their original order. */
  function Filter<T(!new)>(s: seq<T>, keep: T -> bool): (r: seq<T>)
    ensures |r| <= |s|
    ensures forall x :: multiset(r)[x] == if keep(x) then multiset(s)[x] else 0
  {
    if |s| == 0 then []
    else
      var init := s[..|s| - 1];
      assert s == init + [s[|s| - 1]];
      var r := Filter(init, keep);
      if keep(s[|s| - 1]) then r + [s[|s| - 1]] else r
  }

  /** Two masks that agree on every row of a table select the same rows. */
  lemma {:induction false} FilterCongruent<T(!new)>(s: seq<T>, p: T -> bool, q: T -> bool)
    requires forall i :: 0 <= i < |s| ==> p(s[i]) == q(s[i])
    ensures Filter(s, p) == Filter(s, q)
    decreases |s|
  {
    if |s| > 0 {
      FilterCongruent(s[..|s| - 1], p, q);
    }
  }

  /** A sequence made of one repeated value counts it everywhere and
      nothing else. */
  lemma {:induction false} CountConstant<T>(s: seq<T>, x: T, y: T)
    requires forall i :: 0 <= i < |s| ==> s[i] == x
    ensures Count(s, x) == |s|
    ensures y != x ==> Count(s, y) == 0
    decreases |s|
  {
    if |s| > 0 {
      CountConstant(s[..|s| - 1], x, y);
    }
  }
}
