/** Stable sorting by a real key, largest first: what `sorted(..., reverse=True)` promises. */
module StableSort {

  ghost predicate Descending<T(!new)>(s: seq<T>, key: T -> real) {
    forall i, j :: 0 <= i < j < |s| ==> key(s[i]) >= key(s[j])
  }

  /** Places `x` behind everything that is at least as large. */
  function Insert<T>(s: seq<T>, x: T, key: T -> real): seq<T> {
    if s == [] || key(s[|s| - 1]) >= key(x) then s + [x]
    else Insert(s[..|s| - 1], x, key) + [s[|s| - 1]]
  }

  function SortDescending<T>(s: seq<T>, key: T -> real): seq<T> {
    if s == [] then [] else Insert(SortDescending(s[..|s| - 1], key), s[|s| - 1], key)
  }

  function Filter<T>(s: seq<T>, p: T -> bool): seq<T> {
    if s == [] then []
    else
      var n := |s| - 1;
      if p(s[n]) then Filter(s[..n], p) + [s[n]] else Filter(s[..n], p)
  }

  lemma {:induction false} FilterConcat<T>(a: seq<T>, b: seq<T>, p: T -> bool)
    ensures Filter(a + b, p) == Filter(a, p) + Filter(b, p)
  {
    if b == [] {
      assert a + b == a;
    } else {
      var n := |b| - 1;
      assert (a + b)[..|a| + n] == a + b[..n];
      FilterConcat(a, b[..n], p);
    }
  }

  lemma {:induction false} FilterMembers<T>(s: seq<T>, p: T -> bool)
    ensures forall x :: x in Filter(s, p) <==> x in s && p(x)
  {
    if s != [] {
      FilterMembers(s[..|s| - 1], p);
      assert s == s[..|s| - 1] + [s[|s| - 1]];
    }
  }

  lemma {:induction false} FilterCommutes<T>(s: seq<T>, p: T -> bool, q: T -> bool)
    ensures Filter(Filter(s, p), q) == Filter(Filter(s, q), p)
  {
    if s != [] {
      var n := |s| - 1;
      FilterCommutes(s[..n], p, q);
      FilterAppend(Filter(s[..n], p), s[n], q);
      FilterAppend(Filter(s[..n], q), s[n], p);
    }
  }

  lemma FilterAppend<T>(s: seq<T>, x: T, p: T -> bool)
    ensures Filter(s + [x], p) == if p(x) then Filter(s, p) + [x] else Filter(s, p)
  {
    assert (s + [x])[..|s|] == s;
  }

  lemma {:induction false} FilterNothing<T>(s: seq<T>, p: T -> bool)
    requires forall x :: x in s ==> p(x)
    ensures Filter(s, p) == s
  {
    if s != [] {
      assert s[|s| - 1] in s;
      assert forall x :: x in s[..|s| - 1] ==> x in s;
      FilterNothing(s[..|s| - 1], p);
    }
  }

  function KeyIs<T>(key: T -> real, v: real): T -> bool {
    x => key(x) == v
  }

  // ---------------------------------------------------------------- the sort is stable

  lemma {:induction false} InsertMembers<T>(s: seq<T>, x: T, key: T -> real)
    ensures forall y :: y in Insert(s, x, key) <==> y in s || y == x
    ensures |Insert(s, x, key)| == |s| + 1
  {
    if s == [] || key(s[|s| - 1]) >= key(x) {
    } else {
      InsertMembers(s[..|s| - 1], x, key);
      assert s == s[..|s| - 1] + [s[|s| - 1]];
    }
  }

  lemma {:induction false} InsertDescending<T(!new)>(s: seq<T>, x: T, key: T -> real)
    requires Descending(s, key)
    ensures Descending(Insert(s, x, key), key)
  {
    if s == [] || key(s[|s| - 1]) >= key(x) {
    } else {
      var n := |s| - 1;
      InsertDescending(s[..n], x, key);
      InsertMembers(s[..n], x, key);
      var r := Insert(s[..n], x, key);
      forall i | 0 <= i < |r| ensures key(r[i]) >= key(s[n]) {
        assert r[i] in r;
      }
    }
  }

  lemma {:induction false} InsertStable<T>(s: seq<T>, x: T, key: T -> real, v: real)
    ensures Filter(Insert(s, x, key), KeyIs(key, v)) == Filter(s + [x], KeyIs(key, v))
  {
    FilterAppend(s, x, KeyIs(key, v));
    if s == [] || key(s[|s| - 1]) >= key(x) {
    } else {
      var n := |s| - 1;
      InsertStable(s[..n], x, key, v);
      FilterAppend(Insert(s[..n], x, key), s[n], KeyIs(key, v));
      FilterAppend(s[..n], x, KeyIs(key, v));
    }
  }

  lemma {:induction false} SortIsDescending<T(!new)>(s: seq<T>, key: T -> real)
    ensures Descending(SortDescending(s, key), key)
  {
    if s != [] {
      SortIsDescending(s[..|s| - 1], key);
      InsertDescending(SortDescending(s[..|s| - 1], key), s[|s| - 1], key);
    }
  }

  lemma {:induction false} SortMembers<T>(s: seq<T>, key: T -> real)
    ensures forall x :: x in SortDescending(s, key) <==> x in s
    ensures |SortDescending(s, key)| == |s|
  {
    if s != [] {
      var n := |s| - 1;
      SortMembers(s[..n], key);
      InsertMembers(SortDescending(s[..n], key), s[n], key);
      assert s == s[..n] + [s[n]];
    }
  }

  /** Elements of equal key keep their order. */
  lemma {:induction false} SortIsStable<T>(s: seq<T>, key: T -> real, v: real)
    ensures Filter(SortDescending(s, key), KeyIs(key, v)) == Filter(s, KeyIs(key, v))
  {
    if s != [] {
      var n := |s| - 1;
      SortIsStable(s[..n], key, v);
      InsertStable(SortDescending(s[..n], key), s[n], key, v);
      FilterAppend(SortDescending(s[..n], key), s[n], KeyIs(key, v));
      FilterAppend(s[..n], s[n], KeyIs(key, v));
      assert s == s[..n] + [s[n]];
    }
  }

  // ---------------------------------------------------------------- and determined by that

  ghost predicate SameByKey<T(!new)>(a: seq<T>, b: seq<T>, key: T -> real) {
    forall v :: Filter(a, KeyIs(key, v)) == Filter(b, KeyIs(key, v))
  }

  lemma LastOf<T(!new)>(a: seq<T>, b: seq<T>, key: T -> real)
    requires Descending(a, key) && SameByKey(a, b, key) && a != [] && b != []
    ensures key(b[|b| - 1]) >= key(a[|a| - 1])
  {
    var v := key(b[|b| - 1]);
    assert Filter(b, KeyIs(key, v)) == Filter(a, KeyIs(key, v));
    FilterMembers(b, KeyIs(key, v));
    FilterMembers(a, KeyIs(key, v));
    assert b[|b| - 1] in Filter(a, KeyIs(key, v));
    var i :| 0 <= i < |a| && a[i] == b[|b| - 1];
  }

  /** Two descending sequences that agree on every key are equal: there is only one stable sort. */
  lemma {:induction false} StableSortIsUnique<T(!new)>(a: seq<T>, b: seq<T>, key: T -> real)
    requires Descending(a, key) && Descending(b, key) && SameByKey(a, b, key)
    ensures a == b
  {
    if b != [] {
      NonEmptyByKey(a, b, key);
    }
    if a != [] {
      NonEmptyByKey(b, a, key);
      assert b != [];
      LastOf(a, b, key);
      LastOf(b, a, key);
      var x, y := a[|a| - 1], b[|b| - 1];
      var a0, b0 := a[..|a| - 1], b[..|b| - 1];
      assert a == a0 + [x] && b == b0 + [y];
      var same := KeyIs(key, key(x));
      assert Filter(a, same) == Filter(b, same);
      FilterAppend(a0, x, same);
      FilterAppend(b0, y, same);
      assert x == y by {
        assert Filter(a, same)[|Filter(a, same)| - 1] == x && Filter(b, same)[|Filter(b, same)| - 1] == y;
      }
      forall v ensures Filter(a0, KeyIs(key, v)) == Filter(b0, KeyIs(key, v)) {
        assert Filter(a, KeyIs(key, v)) == Filter(b, KeyIs(key, v));
        FilterAppend(a0, x, KeyIs(key, v));
        FilterAppend(b0, x, KeyIs(key, v));
        DropLast(Filter(a0, KeyIs(key, v)), Filter(b0, KeyIs(key, v)), x);
      }
      StableSortIsUnique(a0, b0, key);
    }
  }

  lemma DropLast<T>(a: seq<T>, b: seq<T>, x: T)
    ensures a + [x] == b + [x] ==> a == b
  {
    if a + [x] == b + [x] {
      assert (a + [x])[..|a|] == a && (b + [x])[..|b|] == b;
    }
  }

  lemma NonEmptyByKey<T(!new)>(a: seq<T>, b: seq<T>, key: T -> real)
    requires SameByKey(a, b, key) && b != []
    ensures a != []
  {
    var same := KeyIs(key, key(b[0]));
    FilterMembers(b, same);
    FilterMembers(a, same);
    assert b[0] in Filter(b, same);
    assert b[0] in Filter(a, same);
    assert b[0] in a;
  }

  /** Sorting what is sorted changes nothing. */
  lemma SortOfSorted<T(!new)>(s: seq<T>, key: T -> real)
    requires Descending(s, key)
    ensures SortDescending(s, key) == s
  {
    SortIsDescending(s, key);
    forall v ensures Filter(SortDescending(s, key), KeyIs(key, v)) == Filter(s, KeyIs(key, v)) {
      SortIsStable(s, key, v);
    }
    StableSortIsUnique(SortDescending(s, key), s, key);
  }

  lemma {:induction false} FilterDescending<T(!new)>(s: seq<T>, key: T -> real, p: T -> bool)
    requires Descending(s, key)
    ensures Descending(Filter(s, p), key)
  {
    if s != [] {
      var n := |s| - 1;
      FilterDescending(s[..n], key, p);
      FilterMembers(s[..n], p);
      var r := Filter(s[..n], p);
      forall i | 0 <= i < |r| ensures key(r[i]) >= key(s[n]) {
        assert r[i] in r;
        var j :| 0 <= j < n && s[..n][j] == r[i];
      }
    }
  }

  /** Sorting first does not show once the survivors are sorted. */
  lemma SortFilterSort<T(!new)>(s: seq<T>, key: T -> real, p: T -> bool)
    ensures SortDescending(Filter(SortDescending(s, key), p), key) == SortDescending(Filter(s, p), key)
  {
    var a, b := SortDescending(s, key), Filter(s, p);
    SortIsDescending(s, key);
    FilterDescending(a, key, p);
    SortOfSorted(Filter(a, p), key);
    SortIsDescending(b, key);
    forall v ensures Filter(Filter(a, p), KeyIs(key, v)) == Filter(SortDescending(b, key), KeyIs(key, v)) {
      FilterCommutes(a, p, KeyIs(key, v));
      SortIsStable(s, key, v);
      FilterCommutes(s, p, KeyIs(key, v));
      SortIsStable(b, key, v);
    }
    StableSortIsUnique(Filter(a, p), SortDescending(b, key), key);
  }
}
