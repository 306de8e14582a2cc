/** Facts about sequences and permutations used by several components. */
module Sequences {

  function RemoveAt<T>(s: seq<T>, k: nat): (r: seq<T>)
    requires k < |s|
  {
    s[..k] + s[k + 1..]
  }

  lemma MultisetRemoveAt<T>(s: seq<T>, k: nat)
    requires k < |s|
    ensures multiset(s) == multiset(RemoveAt(s, k)) + multiset{s[k]}
  {
    assert s == s[..k] + [s[k]] + s[k + 1..];
  }

  /** The head of a sequence occurs in every permutation of it, and removing it from both keeps them permutations. */
  lemma MatchHead<T>(a: seq<T>, c: seq<T>) returns (k: nat)
    requires a != [] && multiset(a) == multiset(c)
    ensures k < |c| && c[k] == a[0] && multiset(a[1..]) == multiset(RemoveAt(c, k))
  {
    assert a[0] in multiset(a);
    assert a[0] in multiset(c);
    k :| 0 <= k < |c| && c[k] == a[0];
    MultisetRemoveAt(c, k);
    assert a == [a[0]] + a[1..];
    assert multiset(a[1..]) == multiset(a) - multiset{a[0]} == multiset(RemoveAt(c, k));
  }

  // ---------------------------------------------------------------- places in a list

  /** The place a list gives to an element: its last occurrence, as in a dictionary built from the list. */
  predicate LastAt<T(==)>(s: seq<T>, x: T, i: nat) {
    i < |s| && s[i] == x && forall j :: i < j < |s| ==> s[j] != x
  }

  function IndexIn<T(==)>(s: seq<T>, x: T, missing: nat): nat {
    if s == [] then missing
    else if s[|s| - 1] == x then |s| - 1
    else IndexIn(s[..|s| - 1], x, missing)
  }

  lemma {:induction false} IndexInMeaning<T>(s: seq<T>, x: T, missing: nat)
    ensures x !in s ==> IndexIn(s, x, missing) == missing
    ensures x in s ==> LastAt(s, x, IndexIn(s, x, missing))
  {
    if s != [] {
      var n := |s| - 1;
      IndexInMeaning(s[..n], x, missing);
      assert s == s[..n] + [s[n]];
    }
  }

  // ---------------------------------------------------------------- sums of weights

  /** The sum of the first `n` weights. */
  function SumTo<T>(s: seq<T>, f: T -> int, n: nat): int
    requires n <= |s|
  {
    if n == 0 then 0 else SumTo(s, f, n - 1) + f(s[n - 1])
  }

  function SumOf<T>(s: seq<T>, f: T -> int): int {
    SumTo(s, f, |s|)
  }

  lemma {:induction false} SumSame<T>(a: seq<T>, b: seq<T>, f: T -> int, n: nat)
    requires n <= |a| && n <= |b| && forall i :: 0 <= i < n ==> a[i] == b[i]
    ensures SumTo(a, f, n) == SumTo(b, f, n)
  {
    if n > 0 {
      SumSame(a, b, f, n - 1);
    }
  }

  lemma {:induction false} SumConcatTo<T>(a: seq<T>, b: seq<T>, f: T -> int, n: nat)
    requires n <= |b|
    ensures SumTo(a + b, f, |a| + n) == SumOf(a, f) + SumTo(b, f, n)
  {
    if n == 0 {
      SumSame(a + b, a, f, |a|);
    } else {
      SumConcatTo(a, b, f, n - 1);
    }
  }

  lemma SumConcat<T>(a: seq<T>, b: seq<T>, f: T -> int)
    ensures SumOf(a + b, f) == SumOf(a, f) + SumOf(b, f)
  {
    SumConcatTo(a, b, f, |b|);
  }

  lemma SumAppend<T>(s: seq<T>, x: T, f: T -> int)
    ensures SumOf(s + [x], f) == SumOf(s, f) + f(x)
  {
    SumSame(s + [x], s, f, |s|);
  }

  lemma SumRemove<T>(s: seq<T>, i: nat, f: T -> int)
    requires i < |s|
    ensures SumOf(RemoveAt(s, i), f) == SumOf(s, f) - f(s[i])
  {
    SumConcat(s[..i], s[i + 1..], f);
    SumAppend(s[..i], s[i], f);
    SumConcat(s[..i] + [s[i]], s[i + 1..], f);
    assert s == s[..i] + [s[i]] + s[i + 1..];
  }

  lemma {:induction false} SumUpdateTo<T>(s: seq<T>, i: nat, x: T, f: T -> int, n: nat)
    requires i < |s| && n <= |s|
    ensures SumTo(s[i := x], f, n) == SumTo(s, f, n) + (if i < n then f(x) - f(s[i]) else 0)
  {
    if n > 0 {
      SumUpdateTo(s, i, x, f, n - 1);
    }
  }

  lemma SumUpdate<T>(s: seq<T>, i: nat, x: T, f: T -> int)
    requires i < |s|
    ensures SumOf(s[i := x], f) == SumOf(s, f) - f(s[i]) + f(x)
  {
    SumUpdateTo(s, i, x, f, |s|);
  }

  lemma {:induction false} SumZeroTo<T>(s: seq<T>, f: T -> int, n: nat)
    requires n <= |s| && forall i :: 0 <= i < n ==> f(s[i]) == 0
    ensures SumTo(s, f, n) == 0
  {
    if n > 0 {
      SumZeroTo(s, f, n - 1);
    }
  }

  lemma SumZero<T>(s: seq<T>, f: T -> int)
    requires forall i :: 0 <= i < |s| ==> f(s[i]) == 0
    ensures SumOf(s, f) == 0
  {
    SumZeroTo(s, f, |s|);
  }

  lemma {:induction false} SumNonNegativeTo<T>(s: seq<T>, f: T -> int, n: nat)
    requires n <= |s| && forall x :: f(x) >= 0
    ensures SumTo(s, f, n) >= 0
    ensures forall i :: 0 <= i < n ==> f(s[i]) <= SumTo(s, f, n)
  {
    if n > 0 {
      SumNonNegativeTo(s, f, n - 1);
    }
  }

  /** A sum of non-negative weights bounds each of them. */
  lemma SumNonNegative<T>(s: seq<T>, f: T -> int)
    requires forall x :: f(x) >= 0
    ensures SumOf(s, f) >= 0
    ensures forall i :: 0 <= i < |s| ==> f(s[i]) <= SumOf(s, f)
  {
    SumNonNegativeTo(s, f, |s|);
  }

  /** Two different places count twice. */
  lemma SumOfTwo<T>(s: seq<T>, i: nat, j: nat, f: T -> int)
    requires i < j < |s| && forall x :: f(x) >= 0
    ensures f(s[i]) + f(s[j]) <= SumOf(s, f)
  {
    SumRemove(s, j, f);
    SumNonNegative(RemoveAt(s, j), f);
    assert RemoveAt(s, j)[i] == s[i];
  }

  /** A sum does not depend on the order. */
  lemma {:induction false} SumPermuted<T>(a: seq<T>, c: seq<T>, f: T -> int)
    requires multiset(a) == multiset(c)
    ensures SumOf(a, f) == SumOf(c, f)
    decreases |a|
  {
    if a == [] {
      assert |multiset(c)| == |c|;
    } else {
      var k := MatchHead(a, c);
      SumRemove(a, 0, f);
      SumRemove(c, k, f);
      assert RemoveAt(a, 0) == a[1..];
      SumPermuted(a[1..], RemoveAt(c, k), f);
    }
  }
}
