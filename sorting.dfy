/** Stable insertion sort under a caller-supplied `less`, the comparison
    shape of Go's `sort.Slice` and `sort.SliceStable`. `InsertionSort` is the
    specification; `SortInPlace` sorts an array and is proved to leave the
    array holding exactly that sequence. */
module Sorting {

  /** Go's requirement on a `less` function: a strict weak order. */
  ghost predicate StrictWeakOrder<T(!new)>(less: (T, T) -> bool)
  {
    && (forall x :: !less(x, x))
    && (forall x, y, z :: less(x, y) && less(y, z) ==> less(x, z))
    && (forall x, y, z :: less(x, z) ==> less(x, y) || less(y, z))
  }

  /** No element is less than one before it. */
  ghost predicate Sorted<T>(s: seq<T>, less: (T, T) -> bool)
  {
    forall i, j :: 0 <= i < j < |s| ==> !less(s[j], s[i])
  }

  /** Inserts `x` after the last element of `s` that it is not less than,
      which is where a backwards scan that stops at the first element not
      greater than `x` puts it. */
  function Insert<T>(s: seq<T>, x: T, less: (T, T) -> bool): (r: seq<T>)
    ensures |r| == |s| + 1
  {
    if |s| == 0 || !less(x, s[|s| - 1]) then s + [x]
    else Insert(s[..|s| - 1], x, less) + [s[|s| - 1]]
  }

  lemma {:induction false} InsertPermutes<T>(s: seq<T>, x: T, less: (T, T) -> bool)
    ensures multiset(Insert(s, x, less)) == multiset(s) + multiset{x}
  {
    if |s| > 0 && less(x, s[|s| - 1]) {
      InsertPermutes(s[..|s| - 1], x, less);
      assert s == s[..|s| - 1] + [s[|s| - 1]];
    }
  }

  /** Stable insertion sort, inserting the elements left to right. */
  function InsertionSort<T>(s: seq<T>, less: (T, T) -> bool): seq<T>
  {
    if |s| == 0 then [] else Insert(InsertionSort(s[..|s| - 1], less), s[|s| - 1], less)
  }

  /** Two elements already in order stay as they are. */
  lemma SortTwo<T>(x: T, y: T, less: (T, T) -> bool)
    requires !less(y, x)
    ensures InsertionSort([x, y], less) == [x, y]
  {
    assert [x, y][..1] == [x] && [x][..0] == [];
    assert InsertionSort([x], less) == Insert([], x, less) == [x];
    assert Insert([x], y, less) == [x, y];
  }

  /** The sort is a permutation of its input. */
  lemma {:induction false} InsertionSortPermutes<T>(s: seq<T>, less: (T, T) -> bool)
    ensures |InsertionSort(s, less)| == |s|
    ensures multiset(InsertionSort(s, less)) == multiset(s)
  {
    if |s| > 0 {
      InsertionSortPermutes(s[..|s| - 1], less);
      InsertPermutes(InsertionSort(s[..|s| - 1], less), s[|s| - 1], less);
      assert s == s[..|s| - 1] + [s[|s| - 1]];
    }
  }

  lemma {:induction false} InsertSorted<T(!new)>(s: seq<T>, x: T, less: (T, T) -> bool)
    requires StrictWeakOrder(less)
    requires Sorted(s, less)
    ensures Sorted(Insert(s, x, less), less)
  {
    if |s| == 0 {
    } else if !less(x, s[|s| - 1]) {
      var r := s + [x];
      forall i | 0 <= i < |s|
        ensures !less(x, s[i])
      {
        assert !less(s[|s| - 1], s[i]);
      }
      assert forall i, j :: 0 <= i < j < |r| ==> !less(r[j], r[i]);
    } else {
      var last := s[|s| - 1];
      var init := s[..|s| - 1];
      InsertSorted(init, x, less);
      var m := Insert(init, x, less);
      var r := m + [last];
      InsertPermutes(init, x, less);
      forall i | 0 <= i < |m|
        ensures !less(last, m[i])
      {
        assert m[i] in multiset(m);
        if m[i] == x {
          assert !less(last, x);
        } else {
          assert m[i] in multiset(init);
          var k :| 0 <= k < |init| && init[k] == m[i];
          assert s[k] == m[i];
        }
      }
      assert forall i, j :: 0 <= i < j < |r| ==> !less(r[j], r[i]);
    }
  }

  /** Under a strict weak order the sort is sorted. */
  lemma {:induction false} InsertionSortSorted<T(!new)>(s: seq<T>, less: (T, T) -> bool)
    requires StrictWeakOrder(less)
    ensures Sorted(InsertionSort(s, less), less)
  {
    if |s| > 0 {
      InsertionSortSorted(s[..|s| - 1], less);
      InsertSorted(InsertionSort(s[..|s| - 1], less), s[|s| - 1], less);
    }
  }

  /** The elements of `s` that `less` cannot tell apart from `k`, in their
      order in `s`. */
  function Equivalents<T>(s: seq<T>, k: T, less: (T, T) -> bool): (r: seq<T>)
    ensures |r| <= |s|
  {
    if |s| == 0 then []
    else Equivalents(s[..|s| - 1], k, less) + Single(s[|s| - 1], k, less)
  }

  /** `[x]` when `x` is equivalent to `k`, otherwise nothing. */
  function Single<T>(x: T, k: T, less: (T, T) -> bool): seq<T>
  {
    if !less(x, k) && !less(k, x) then [x] else []
  }

  lemma EquivalentsSnoc<T>(s: seq<T>, x: T, k: T, less: (T, T) -> bool)
    ensures Equivalents(s + [x], k, less) == Equivalents(s, k, less) + Single(x, k, less)
  {
    assert (s + [x])[..|s|] == s;
  }

  /** Two elements one of which is below the other are not both
      equivalent to the same key. */
  lemma NotBothEquivalent<T(!new)>(x: T, y: T, k: T, less: (T, T) -> bool)
    requires StrictWeakOrder(less) && less(x, y)
    ensures Single(x, k, less) == [] || Single(y, k, less) == []
  {
    assert less(x, k) || less(k, y);
  }

  /** Inserting an element puts it after every element equivalent to it. */
  lemma {:induction false} InsertStable<T(!new)>(s: seq<T>, x: T, k: T, less: (T, T) -> bool)
    requires StrictWeakOrder(less)
    ensures Equivalents(Insert(s, x, less), k, less) == Equivalents(s, k, less) + Single(x, k, less)
  {
    if |s| == 0 || !less(x, s[|s| - 1]) {
      EquivalentsSnoc(s, x, k, less);
    } else {
      var init, last := s[..|s| - 1], s[|s| - 1];
      var before, sx, sl := Equivalents(init, k, less), Single(x, k, less), Single(last, k, less);
      InsertStable(init, x, k, less);
      EquivalentsSnoc(Insert(init, x, less), last, k, less);
      assert Equivalents(Insert(s, x, less), k, less) == before + sx + sl;
      assert Equivalents(s, k, less) + sx == before + sl + sx;
      NotBothEquivalent(x, last, k, less);
      assert sx + sl == sl + sx;
    }
  }

  /** The sort is stable: for every key, the elements equivalent to it keep
      their relative order. */
  lemma {:induction false} InsertionSortStable<T(!new)>(s: seq<T>, k: T, less: (T, T) -> bool)
    requires StrictWeakOrder(less)
    ensures Equivalents(InsertionSort(s, less), k, less) == Equivalents(s, k, less)
  {
    if |s| > 0 {
      InsertionSortStable(s[..|s| - 1], k, less);
      InsertStable(InsertionSort(s[..|s| - 1], less), s[|s| - 1], k, less);
    }
  }

  /** Swaps the neighbours `a[j - 1]` and `a[j]`. */
  method SwapDown<T>(a: array<T>, j: nat)
    requires 0 < j < a.Length
    modifies a
    ensures a[j - 1] == old(a[j]) && a[j] == old(a[j - 1])
    ensures a[..j - 1] == old(a[..j - 1]) && a[j + 1..] == old(a[j + 1..])
  {
    a[j - 1], a[j] := a[j], a[j - 1];
  }

  /** Moves `a[i]` left past the elements of `a[..i]` it is less than. */
  method InsertAt<T>(a: array<T>, i: nat, less: (T, T) -> bool)
    requires i < a.Length
    modifies a
    ensures a[..i + 1] == Insert(old(a[..i]), old(a[i]), less)
    ensures a[i + 1..] == old(a[i + 1..])
  {
    ghost var sorted := a[..i];
    ghost var x := a[i];
    var j := i;
    while j > 0 && less(a[j], a[j - 1])
      invariant 0 <= j <= i
      invariant a[j] == x
      invariant a[i + 1..] == old(a[i + 1..])
      invariant Insert(sorted, x, less) == Insert(a[..j], x, less) + a[j + 1..i + 1]
    {
      ghost var prefix := a[..j - 1];
      ghost var y := a[j - 1];
      ghost var tail := a[j + 1..i + 1];
      assert a[..j] == prefix + [y];
      assert Insert(a[..j], x, less) == Insert(prefix, x, less) + [y];
      SwapDown(a, j);
      assert a[j + 1..i + 1] == tail by {
        assert a[j + 1..i + 1] == a[j + 1..][..i - j];
      }
      assert a[j..i + 1] == [y] + tail;
      j := j - 1;
    }
    assert a[..i + 1] == a[..j] + [x] + a[j + 1..i + 1];
  }

  /** Sorting one more element inserts it into the sorted prefix. */
  lemma InsertionSortSnoc<T>(s: seq<T>, i: nat, less: (T, T) -> bool)
    requires i < |s|
    ensures InsertionSort(s[..i + 1], less) == Insert(InsertionSort(s[..i], less), s[i], less)
  {
    assert s[..i + 1][..i] == s[..i];
  }

  /** Sorts `a` in place, moving each element left past the elements it is
      less than, as the insertion sort inside `sort.SliceStable` does. */
  method SortInPlace<T>(a: array<T>, less: (T, T) -> bool)
    modifies a
    ensures a[..] == InsertionSort(old(a[..]), less)
  {
    ghost var input := a[..];
    var i := 0;
    while i < a.Length
      invariant 0 <= i <= a.Length
      invariant a[..i] == InsertionSort(input[..i], less)
      invariant a[i..] == input[i..]
    {
      assert a[i] == input[i];
      InsertionSortSnoc(input, i, less);
      InsertAt(a, i, less);
      assert a[i + 1..] == input[i + 1..] by {
        assert input[i + 1..] == input[i..][1..];
      }
      i := i + 1;
    }
    assert a[..] == a[..a.Length];
    assert input == input[..a.Length];
  }
}
