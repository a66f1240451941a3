/**
 * `Array.prototype.sort` with a comparator. Since the 2019 edition of
 * ECMA-262 (section 22.1.3.27 there) the sort must be stable, so when the
 * comparator is consistent its output is fully determined: the model uses
 * insertion sort, and StableSortIsUnique shows that any other stable sort
 * gives the same array.
 *
 * A comparator returns a number whose sign says how two elements are
 * ordered. Insertion sort moves an element left past exactly the elements that
 * compare greater than it.
 */
module StableSort {

  /** What a consistent comparator is: a total preorder read through signs. */
  ghost predicate TotalPreorder<T(!new)>(cmp: (T, T) -> int) {
    && (forall a :: cmp(a, a) == 0)
    && (forall a, b :: cmp(a, b) > 0 <==> cmp(b, a) < 0)
    && (forall a, b, c :: cmp(a, b) <= 0 && cmp(b, c) <= 0 ==> cmp(a, c) <= 0)
  }

  ghost predicate Sorted<T>(cmp: (T, T) -> int, s: seq<T>) {
    forall i, j :: 0 <= i < j < |s| ==> cmp(s[i], s[j]) <= 0
  }

  /** The elements of `s` that the comparator ties with `k`, in their order in `s`. */
  function Ties<T>(cmp: (T, T) -> int, s: seq<T>, k: T): seq<T> {
    if s == [] then []
    else (if cmp(s[0], k) == 0 then [s[0]] else []) + Ties(cmp, s[1..], k)
  }

  /** Stability: every group of tied elements keeps its relative order. */
  ghost predicate SameTies<T(!new)>(cmp: (T, T) -> int, s: seq<T>, t: seq<T>) {
    forall k :: Ties(cmp, s, k) == Ties(cmp, t, k)
  }

  /** Insert `x` into `t`, moving it left past the trailing elements that compare greater. */
  function Insert<T>(cmp: (T, T) -> int, t: seq<T>, x: T): (r: seq<T>)
    ensures |r| == |t| + 1
  {
    if t == [] then [x]
    else if cmp(t[|t| - 1], x) > 0 then Insert(cmp, t[..|t| - 1], x) + [t[|t| - 1]]
    else t + [x]
  }

  /** Insertion sort, one element at a time from the left, as the array version runs. */
  function InsertionSort<T>(cmp: (T, T) -> int, s: seq<T>): (r: seq<T>)
    ensures |r| == |s|
  {
    if s == [] then []
    else Insert(cmp, InsertionSort(cmp, s[..|s| - 1]), s[|s| - 1])
  }

  lemma {:induction false} InsertPermutes<T>(cmp: (T, T) -> int, t: seq<T>, x: T)
    ensures multiset(Insert(cmp, t, x)) == multiset(t) + multiset{x}
  {
    if t != [] && cmp(t[|t| - 1], x) > 0 {
      assert t == t[..|t| - 1] + [t[|t| - 1]];
      InsertPermutes(cmp, t[..|t| - 1], x);
    }
  }

  /** The sorted output is a permutation of the input. */
  lemma {:induction false} InsertionSortPermutes<T>(cmp: (T, T) -> int, s: seq<T>)
    ensures multiset(InsertionSort(cmp, s)) == multiset(s)
  {
    if s != [] {
      assert s == s[..|s| - 1] + [s[|s| - 1]];
      InsertionSortPermutes(cmp, s[..|s| - 1]);
      InsertPermutes(cmp, InsertionSort(cmp, s[..|s| - 1]), s[|s| - 1]);
    }
  }

  lemma {:induction false} TiesAppend<T>(cmp: (T, T) -> int, a: seq<T>, b: seq<T>, k: T)
    ensures Ties(cmp, a + b, k) == Ties(cmp, a, k) + Ties(cmp, b, k)
  {
    if a != [] {
      assert (a + b)[1..] == a[1..] + b;
      TiesAppend(cmp, a[1..], b, k);
    } else {
      assert a + b == b;
    }
  }

  /** Two elements that are not tied cannot both tie with `k`. */
  lemma UntiedCommute<T(!new)>(cmp: (T, T) -> int, x: T, y: T, k: T)
    requires TotalPreorder(cmp) && cmp(y, x) > 0
    ensures Ties(cmp, [x], k) + Ties(cmp, [y], k) == Ties(cmp, [y], k) + Ties(cmp, [x], k)
  {
    assert Ties(cmp, [x], k) == (if cmp(x, k) == 0 then [x] else []);
    assert Ties(cmp, [y], k) == (if cmp(y, k) == 0 then [y] else []);
  }

  lemma TiesSwapLast<T>(cmp: (T, T) -> int, u: seq<T>, init: seq<T>, x: T, last: T, k: T)
    requires Ties(cmp, u, k) == Ties(cmp, init, k) + Ties(cmp, [x], k)
    requires Ties(cmp, [x], k) + Ties(cmp, [last], k) == Ties(cmp, [last], k) + Ties(cmp, [x], k)
    ensures Ties(cmp, u + [last], k) == Ties(cmp, init + [last], k) + Ties(cmp, [x], k)
  {
    var a, tx, tl := Ties(cmp, init, k), Ties(cmp, [x], k), Ties(cmp, [last], k);
    TiesAppend(cmp, u, [last], k);
    TiesAppend(cmp, init, [last], k);
    AppendAssociative(a, tx, tl);
    AppendAssociative(a, tl, tx);
  }

  lemma AppendAssociative<T>(a: seq<T>, b: seq<T>, c: seq<T>)
    ensures a + b + c == a + (b + c)
  {
  }

  lemma {:induction false} InsertKeepsTies<T(!new)>(cmp: (T, T) -> int, t: seq<T>, x: T, k: T)
    requires TotalPreorder(cmp)
    ensures Ties(cmp, Insert(cmp, t, x), k) == Ties(cmp, t, k) + Ties(cmp, [x], k)
  {
    if t == [] {
    } else if cmp(t[|t| - 1], x) > 0 {
      var init, last := t[..|t| - 1], t[|t| - 1];
      assert t == init + [last];
      InsertKeepsTies(cmp, init, x, k);
      UntiedCommute(cmp, x, last, k);
      TiesSwapLast(cmp, Insert(cmp, init, x), init, x, last, k);
    } else {
      TiesAppend(cmp, t, [x], k);
    }
  }

  lemma {:induction false} InsertionSortKeepsTies<T(!new)>(cmp: (T, T) -> int, s: seq<T>, k: T)
    requires TotalPreorder(cmp)
    ensures Ties(cmp, InsertionSort(cmp, s), k) == Ties(cmp, s, k)
  {
    if s != [] {
      var init, last := s[..|s| - 1], s[|s| - 1];
      assert s == init + [last];
      InsertionSortKeepsTies(cmp, init, k);
      InsertKeepsTies(cmp, InsertionSort(cmp, init), last, k);
      TiesAppend(cmp, init, [last], k);
    }
  }

  /** Insertion sort is stable. */
  lemma InsertionSortStable<T(!new)>(cmp: (T, T) -> int, s: seq<T>)
    requires TotalPreorder(cmp)
    ensures SameTies(cmp, InsertionSort(cmp, s), s)
  {
    forall k {
      InsertionSortKeepsTies(cmp, s, k);
    }
  }

  lemma SortedAppend<T>(cmp: (T, T) -> int, u: seq<T>, b: T)
    requires Sorted(cmp, u)
    requires forall e :: e in u ==> cmp(e, b) <= 0
    ensures Sorted(cmp, u + [b])
  {
  }

  lemma AllButInsertedAreAtMost<T(!new)>(cmp: (T, T) -> int, t: seq<T>, init: seq<T>, last: T, x: T)
    requires TotalPreorder(cmp) && Sorted(cmp, t) && t == init + [last] && cmp(last, x) > 0
    ensures forall e :: e in Insert(cmp, init, x) ==> cmp(e, last) <= 0
  {
    var u := Insert(cmp, init, x);
    InsertPermutes(cmp, init, x);
    forall e | e in u ensures cmp(e, last) <= 0 {
      assert e in multiset(u);
      if e != x {
        assert e in multiset(init);
        var p :| 0 <= p < |init| && init[p] == e;
        assert t[p] == e && t[|t| - 1] == last;
        assert cmp(t[p], t[|t| - 1]) <= 0;
      }
    }
  }

  lemma {:induction false} InsertSorted<T(!new)>(cmp: (T, T) -> int, t: seq<T>, x: T)
    requires TotalPreorder(cmp) && Sorted(cmp, t)
    ensures Sorted(cmp, Insert(cmp, t, x))
  {
    if t == [] {
    } else if cmp(t[|t| - 1], x) > 0 {
      var init, last := t[..|t| - 1], t[|t| - 1];
      InsertSorted(cmp, init, x);
      assert t == init + [last];
      AllButInsertedAreAtMost(cmp, t, init, last, x);
      SortedAppend(cmp, Insert(cmp, init, x), last);
    } else {
      var last := t[|t| - 1];
      forall e | e in t ensures cmp(e, x) <= 0 {
        var i :| 0 <= i < |t| && t[i] == e;
        if i < |t| - 1 {
          assert cmp(t[i], last) <= 0;
        }
      }
      SortedAppend(cmp, t, x);
    }
  }

  /** Insertion sort orders its output by the comparator. */
  lemma {:induction false} InsertionSortSorted<T(!new)>(cmp: (T, T) -> int, s: seq<T>)
    requires TotalPreorder(cmp)
    ensures Sorted(cmp, InsertionSort(cmp, s))
  {
    if s != [] {
      InsertionSortSorted(cmp, s[..|s| - 1]);
      InsertSorted(cmp, InsertionSort(cmp, s[..|s| - 1]), s[|s| - 1]);
    }
  }

  lemma FirstIsLeast<T(!new)>(cmp: (T, T) -> int, u: seq<T>, e: T)
    requires TotalPreorder(cmp) && Sorted(cmp, u) && e in u
    ensures cmp(u[0], e) <= 0
  {
    var i :| 0 <= i < |u| && u[i] == e;
    if i > 0 {
      assert cmp(u[0], u[i]) <= 0;
    }
  }

  lemma SameTiesSameHead<T(!new)>(cmp: (T, T) -> int, u: seq<T>, v: seq<T>)
    requires TotalPreorder(cmp) && Sorted(cmp, u) && Sorted(cmp, v)
    requires multiset(u) == multiset(v) && SameTies(cmp, u, v)
    requires u != [] && v != []
    ensures u[0] == v[0]
  {
    var x, y := u[0], v[0];
    assert y in multiset(v) && x in multiset(u);
    FirstIsLeast(cmp, u, y);
    FirstIsLeast(cmp, v, x);
    assert Ties(cmp, u, x) == [x] + Ties(cmp, u[1..], x);
    assert Ties(cmp, v, x) == [y] + Ties(cmp, v[1..], x);
    assert Ties(cmp, u, x) == Ties(cmp, v, x);
    assert x == Ties(cmp, u, x)[0] == Ties(cmp, v, x)[0] == y;
  }

  lemma SameTiesTails<T(!new)>(cmp: (T, T) -> int, u: seq<T>, v: seq<T>)
    requires SameTies(cmp, u, v) && u != [] && v != [] && u[0] == v[0]
    ensures SameTies(cmp, u[1..], v[1..])
  {
    forall k ensures Ties(cmp, u[1..], k) == Ties(cmp, v[1..], k) {
      var head := if cmp(u[0], k) == 0 then [u[0]] else [];
      assert Ties(cmp, u, k) == head + Ties(cmp, u[1..], k);
      assert Ties(cmp, v, k) == head + Ties(cmp, v[1..], k);
      assert Ties(cmp, u[1..], k) == Ties(cmp, u, k)[|head|..];
      assert Ties(cmp, v[1..], k) == Ties(cmp, v, k)[|head|..];
    }
  }

  lemma SameHeadSameTails<T>(u: seq<T>, v: seq<T>)
    requires multiset(u) == multiset(v) && u != [] && v != [] && u[0] == v[0]
    ensures multiset(u[1..]) == multiset(v[1..])
  {
    assert u == [u[0]] + u[1..] && v == [v[0]] + v[1..];
    assert multiset(u) == multiset{u[0]} + multiset(u[1..]);
    assert multiset(v) == multiset{v[0]} + multiset(v[1..]);
    assert multiset(u[1..]) == multiset(u) - multiset{u[0]} == multiset(v[1..]);
  }

  /** Two sorted permutations of each other that agree on every group of ties are equal. */
  lemma {:induction false} SortedWithSameTiesEqual<T(!new)>(cmp: (T, T) -> int, u: seq<T>, v: seq<T>)
    requires TotalPreorder(cmp) && Sorted(cmp, u) && Sorted(cmp, v)
    requires multiset(u) == multiset(v) && SameTies(cmp, u, v)
    ensures u == v
  {
    if u != [] && v != [] {
      SameTiesSameHead(cmp, u, v);
      SameTiesTails(cmp, u, v);
      SameHeadSameTails(u, v);
      assert u == [u[0]] + u[1..] && v == [v[0]] + v[1..];
      SortedWithSameTiesEqual(cmp, u[1..], v[1..]);
    }
  }

  /** Any stable sort of `s` by a consistent comparator returns what insertion sort returns. */
  lemma StableSortIsUnique<T(!new)>(cmp: (T, T) -> int, s: seq<T>, u: seq<T>)
    requires TotalPreorder(cmp)
    requires multiset(u) == multiset(s) && Sorted(cmp, u) && SameTies(cmp, u, s)
    ensures u == InsertionSort(cmp, s)
  {
    InsertionSortPermutes(cmp, s);
    InsertionSortSorted(cmp, s);
    InsertionSortStable(cmp, s);
    SortedWithSameTiesEqual(cmp, u, InsertionSort(cmp, s));
  }

  /** The sort only asks whether one element compares greater than another. */
  lemma {:induction false} SameDecisionsSameSort<T(!new)>(cmp1: (T, T) -> int, cmp2: (T, T) -> int, s: seq<T>)
    requires forall a, b :: cmp1(a, b) > 0 <==> cmp2(a, b) > 0
    ensures InsertionSort(cmp1, s) == InsertionSort(cmp2, s)
  {
    if s != [] {
      SameDecisionsSameSort(cmp1, cmp2, s[..|s| - 1]);
      SameDecisionsInsert(cmp1, cmp2, InsertionSort(cmp1, s[..|s| - 1]), s[|s| - 1]);
    }
  }

  lemma {:induction false} SameDecisionsInsert<T(!new)>(cmp1: (T, T) -> int, cmp2: (T, T) -> int, t: seq<T>, x: T)
    requires forall a, b :: cmp1(a, b) > 0 <==> cmp2(a, b) > 0
    ensures Insert(cmp1, t, x) == Insert(cmp2, t, x)
  {
    if t != [] && cmp1(t[|t| - 1], x) > 0 {
      SameDecisionsInsert(cmp1, cmp2, t[..|t| - 1], x);
    }
  }

  /** Where insertion puts `x`: after `t[..j]`, when the elements after it are exactly those greater than `x`. */
  lemma {:induction false} InsertSplits<T>(cmp: (T, T) -> int, t: seq<T>, j: int, x: T)
    requires 0 <= j <= |t|
    requires j == 0 || cmp(t[j - 1], x) <= 0
    requires forall k :: j <= k < |t| ==> cmp(t[k], x) > 0
    ensures Insert(cmp, t, x) == t[..j] + [x] + t[j..]
    decreases |t|
  {
    if j < |t| {
      var init, last := t[..|t| - 1], t[|t| - 1];
      assert cmp(last, x) > 0;
      assert Insert(cmp, t, x) == Insert(cmp, init, x) + [last];
      InsertSplits(cmp, init, j, x);
      assert init[..j] == t[..j];
      assert t[j..] == init[j..] + [last];
      AppendAssociative(init[..j] + [x], init[j..], [last]);
    } else {
      assert t[..j] == t;
    }
  }

  /** What the shifting loop leaves: `t` with `x` at the first position past which nothing is greater. */
  lemma ShiftedIsInsert<T>(cmp: (T, T) -> int, s: seq<T>, t: seq<T>, j: int, x: T)
    requires |s| == |t| + 1 && 0 <= j <= |t|
    requires forall k :: 0 <= k < j ==> s[k] == t[k]
    requires s[j] == x
    requires forall k :: j < k < |s| ==> s[k] == t[k - 1]
    requires j == 0 || cmp(t[j - 1], x) <= 0
    requires forall k :: j <= k < |t| ==> cmp(t[k], x) > 0
    ensures s == Insert(cmp, t, x)
  {
    var u := t[..j] + [x] + t[j..];
    forall k | 0 <= k < |s|
      ensures s[k] == u[k]
    {
      if k < j {
        assert u[k] == t[..j][k];
      } else if k > j {
        assert u[k] == t[j..][k - j - 1];
      }
    }
    InsertSplits(cmp, t, j, x);
  }

  /** One step of the in-place sort: insert `a[i]` into the sorted prefix `a[..i]`. */
  method InsertInPlace<T>(a: array<T>, i: int, cmp: (T, T) -> int)
    requires 0 <= i < a.Length
    modifies a
    ensures a[..i + 1] == Insert(cmp, old(a[..i]), old(a[i]))
    ensures a[i + 1..] == old(a[i + 1..])
  {
    var x := a[i];
    ghost var t := a[..i];
    var j := i;
    while j > 0 && cmp(a[j - 1], x) > 0
      invariant 0 <= j <= i
      invariant forall k :: 0 <= k < j ==> a[k] == t[k]
      invariant forall k :: j < k <= i ==> a[k] == t[k - 1]
      invariant forall k :: i < k < a.Length ==> a[k] == old(a[k])
      invariant forall k :: j <= k < i ==> cmp(t[k], x) > 0
    {
      a[j] := a[j - 1];
      j := j - 1;
    }
    a[j] := x;
    ShiftedIsInsert(cmp, a[..i + 1], t, j, x);
  }

  /** The in-place sort of an array. */
  method SortInPlace<T>(a: array<T>, cmp: (T, T) -> int)
    modifies a
    ensures a[..] == InsertionSort(cmp, old(a[..]))
  {
    ghost var s := a[..];
    var i := 0;
    while i < a.Length
      invariant 0 <= i <= a.Length
      invariant a[..i] == InsertionSort(cmp, s[..i])
      invariant a[i..] == s[i..]
    {
      assert s[..i + 1][..i] == s[..i];
      assert InsertionSort(cmp, s[..i + 1]) == Insert(cmp, InsertionSort(cmp, s[..i]), s[i]);
      assert a[i] == s[i];
      InsertInPlace(a, i, cmp);
      i := i + 1;
    }
    assert s[..a.Length] == s;
    assert a[..] == a[..a.Length];
  }
}
