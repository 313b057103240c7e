/** Shared vocabulary: optional values and sums over sequences. */
module Basics {

  datatype Option<+T> = None | Some(value: T)

  /** The sum of `weight` over `s`, in the order in which a loop over `s` would add it up. */
  function Sum<T>(s: seq<T>, weight: T -> int): int {
    if s == [] then 0 else Sum(s[..|s| - 1], weight) + weight(s[|s| - 1])
  }

  lemma SumAppend<T>(s: seq<T>, x: T, weight: T -> int)
    ensures Sum(s + [x], weight) == Sum(s, weight) + weight(x)
  {
    assert (s + [x])[..|s|] == s;
  }

  lemma SumOne<T>(x: T, weight: T -> int)
    ensures Sum([x], weight) == weight(x)
  {
    assert [x][..0] == [];
  }

  lemma SumTwo<T>(x: T, y: T, weight: T -> int)
    ensures Sum([x, y], weight) == weight(x) + weight(y)
  {
    assert [x, y][..1] == [x];
    SumOne(x, weight);
  }

  lemma {:induction false} SumUpdate<T>(s: seq<T>, i: nat, x: T, weight: T -> int)
    requires i < |s|
    ensures Sum(s[i := x], weight) == Sum(s, weight) - weight(s[i]) + weight(x)
  {
    var n := |s| - 1;
    if i == n {
      assert s[i := x][..n] == s[..n];
    } else {
      assert s[i := x][..n] == s[..n][i := x];
      SumUpdate(s[..n], i, x, weight);
    }
  }

  lemma {:induction false} SumConcat<T>(a: seq<T>, b: seq<T>, weight: T -> int)
    ensures Sum(a + b, weight) == Sum(a, weight) + Sum(b, weight)
  {
    if b == [] {
      assert a + b == a;
    } else {
      assert (a + b)[..|a + b| - 1] == a + b[..|b| - 1];
      SumConcat(a, b[..|b| - 1], weight);
    }
  }

  /** Taking out the element at `i`. */
  function Without<T>(s: seq<T>, i: nat): seq<T>
    requires i < |s|
  {
    s[..i] + s[i + 1..]
  }

  lemma Rejoin<T>(s: seq<T>, i: nat)
    requires i < |s|
    ensures (s[..i] + [s[i]]) + s[i + 1..] == s
  {
  }

  lemma SumWithout<T>(s: seq<T>, i: nat, weight: T -> int)
    requires i < |s|
    ensures Sum(s, weight) == Sum(Without(s, i), weight) + weight(s[i])
  {
    var front, back := s[..i], s[i + 1..];
    SumAppend(front, s[i], weight);
    Rejoin(s, i);
    SumConcat(front + [s[i]], back, weight);
    SumConcat(front, back, weight);
  }

  lemma MultisetWithout<T>(s: seq<T>, i: nat)
    requires i < |s|
    ensures multiset(s) == multiset(Without(s, i)) + multiset{s[i]}
  {
    assert s == (s[..i] + [s[i]]) + s[i + 1..];
  }

  lemma {:induction false} SumOfPermutation<T>(a: seq<T>, b: seq<T>, weight: T -> int)
    requires multiset(a) == multiset(b)
    ensures Sum(a, weight) == Sum(b, weight)
    decreases |a|
  {
    if a == [] {
      assert |multiset(b)| == |b|;
    } else {
      assert a[0] in multiset(b);
      var i :| 0 <= i < |b| && b[i] == a[0];
      var x, y := Without(a, 0), Without(b, i);
      SameWithout(a, b, 0, i);
      SumOfPermutation(x, y, weight);
      SumWithout(a, 0, weight);
      SumWithout(b, i, weight);
    }
  }

  lemma SameWithout<T>(a: seq<T>, b: seq<T>, i: nat, j: nat)
    requires i < |a| && j < |b| && a[i] == b[j] && multiset(a) == multiset(b)
    ensures multiset(Without(a, i)) == multiset(Without(b, j))
  {
    MultisetWithout(a, i);
    MultisetWithout(b, j);
    assert multiset(Without(a, i)) == multiset(a) - multiset{a[i]};
    assert multiset(Without(b, j)) == multiset(b) - multiset{b[j]};
  }

  /** Pointwise smaller weights give a smaller sum. */
  lemma {:induction false} SumMonotone<T>(s: seq<T>, low: T -> int, high: T -> int)
    requires forall x :: x in s ==> low(x) <= high(x)
    ensures Sum(s, low) <= Sum(s, high)
  {
    if s != [] {
      SumMonotone(s[..|s| - 1], low, high);
    }
  }

  lemma {:induction false} SumBounded<T>(s: seq<T>, weight: T -> int, bound: T -> int)
    requires forall x :: x in s ==> -bound(x) <= weight(x) <= bound(x)
    ensures -Sum(s, bound) <= Sum(s, weight) <= Sum(s, bound)
  {
    if s != [] {
      SumBounded(s[..|s| - 1], weight, bound);
    }
  }
}
