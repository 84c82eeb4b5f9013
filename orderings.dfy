/**
 * All orderings of a sequence, in the order `itertools.permutations` yields them: for each
 * position i in turn, the element at i followed by every ordering of the others.
 */
module Orderings {

  function Factorial(n: nat): (f: nat)
    ensures f >= 1
  {
    if n == 0 then 1 else n * Factorial(n - 1)
  }

  /** `xs` without its element at position i. */
  function RemoveAt<T>(xs: seq<T>, i: nat): (r: seq<T>)
    requires i < |xs|
    ensures |r| == |xs| - 1
    ensures multiset(r) == multiset(xs) - multiset{xs[i]}
  {
    assert xs == xs[..i] + [xs[i]] + xs[i + 1..];
    xs[..i] + xs[i + 1..]
  }

  /** Each of `ps`, with `x` put in front. */
  function Prepend<T>(x: T, ps: seq<seq<T>>): (r: seq<seq<T>>)
    ensures |r| == |ps|
    ensures forall k | 0 <= k < |r| :: r[k] == [x] + ps[k]
  {
    seq(|ps|, k requires 0 <= k < |ps| => [x] + ps[k])
  }

  function Permutations<T>(xs: seq<T>): seq<seq<T>>
    decreases |xs|, |xs| + 1
  {
    if |xs| == 0 then [[]] else PermutationsFrom(xs, 0)
  }

  /** The orderings of `xs` whose first element is taken from position i or later. */
  function PermutationsFrom<T>(xs: seq<T>, i: nat): seq<seq<T>>
    requires i <= |xs|
    decreases |xs|, |xs| - i
  {
    if i == |xs| then []
    else Prepend(xs[i], Permutations(RemoveAt(xs, i))) + PermutationsFrom(xs, i + 1)
  }

  /** There are n! orderings of n elements. */
  lemma {:induction false} PermutationsCount<T>(xs: seq<T>)
    ensures |Permutations(xs)| == Factorial(|xs|)
    decreases |xs|, |xs| + 1
  {
    if |xs| > 0 {
      PermutationsFromCount(xs, 0);
    }
  }

  lemma {:induction false} PermutationsFromCount<T>(xs: seq<T>, i: nat)
    requires 0 < |xs| && i <= |xs|
    ensures |PermutationsFrom(xs, i)| == (|xs| - i) * Factorial(|xs| - 1)
    decreases |xs|, |xs| - i
  {
    if i < |xs| {
      PermutationsCount(RemoveAt(xs, i));
      PermutationsFromCount(xs, i + 1);
      var head := Prepend(xs[i], Permutations(RemoveAt(xs, i)));
      assert PermutationsFrom(xs, i) == head + PermutationsFrom(xs, i + 1);
      assert |head| == Factorial(|xs| - 1);
      MulStep(|xs| - i, Factorial(|xs| - 1));
    }
  }

  lemma MulStep(n: nat, f: nat)
    requires n >= 1
    ensures n * f == f + (n - 1) * f
  {
  }

  /** Every listed ordering holds exactly the elements of `xs`. */
  lemma {:induction false} PermutationsSound<T>(xs: seq<T>, p: seq<T>)
    requires p in Permutations(xs)
    ensures multiset(p) == multiset(xs)
    decreases |xs|, |xs| + 1
  {
    if |xs| > 0 {
      PermutationsFromSound(xs, 0, p);
    }
  }

  lemma {:induction false} PermutationsFromSound<T>(xs: seq<T>, i: nat, p: seq<T>)
    requires i <= |xs|
    requires p in PermutationsFrom(xs, i)
    ensures multiset(p) == multiset(xs)
    decreases |xs|, |xs| - i
  {
    assert i < |xs|;
    var head := Prepend(xs[i], Permutations(RemoveAt(xs, i)));
    assert PermutationsFrom(xs, i) == head + PermutationsFrom(xs, i + 1);
    if p in head {
      var k :| 0 <= k < |head| && head[k] == p;
      HeadSound(xs, i, k);
    } else {
      PermutationsFromSound(xs, i + 1, p);
    }
  }

  /** The k-th ordering that starts with the element at position i holds the elements of `xs`. */
  lemma {:induction false} HeadSound<T>(xs: seq<T>, i: nat, k: nat)
    requires i < |xs| && k < |Permutations(RemoveAt(xs, i))|
    ensures multiset(Prepend(xs[i], Permutations(RemoveAt(xs, i)))[k]) == multiset(xs)
    decreases |xs|, 0
  {
    var r := RemoveAt(xs, i);
    var q := Permutations(r)[k];
    assert Prepend(xs[i], Permutations(r))[k] == [xs[i]] + q;
    PermutationsSound(r, q);
    assert multiset([xs[i]] + q) == multiset{xs[i]} + multiset(q);
  }

  /** Every ordering of the elements of `xs` is listed. */
  lemma {:induction false} PermutationsComplete<T>(xs: seq<T>, p: seq<T>)
    requires multiset(p) == multiset(xs)
    ensures p in Permutations(xs)
    decreases |xs|
  {
    assert |p| == |multiset(p)| == |xs|;
    if |xs| > 0 {
      assert p[0] in multiset(xs);
      var j :| 0 <= j < |xs| && xs[j] == p[0];
      assert p == [p[0]] + p[1..];
      assert multiset(p[1..]) == multiset(p) - multiset{p[0]};
      PermutationsComplete(RemoveAt(xs, j), p[1..]);
      PermutationsFromContains(xs, 0, j, p[1..]);
    }
  }

  lemma {:induction false} PermutationsFromContains<T>(xs: seq<T>, i: nat, j: nat, q: seq<T>)
    requires i <= j < |xs|
    requires q in Permutations(RemoveAt(xs, j))
    ensures [xs[j]] + q in PermutationsFrom(xs, i)
    decreases j - i
  {
    if i < j {
      PermutationsFromContains(xs, i + 1, j, q);
    } else {
      var ps := Permutations(RemoveAt(xs, j));
      var k :| 0 <= k < |ps| && ps[k] == q;
      assert Prepend(xs[j], ps)[k] == [xs[j]] + q;
    }
  }
}
