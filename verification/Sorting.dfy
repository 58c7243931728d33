/**
 Sorting a slice of references in place with a comparison that dereferences both elements, as the
 List handlers do. An unset slot is nil: comparing it is a run-time panic.
 */
module Sorting {
  import opened Common

  /** No element is less than itself, and "not less" is transitive. */
  ghost predicate IsOrder<T(!new)>(less: (T, T) -> bool) {
    && (forall x, y :: less(x, y) ==> !less(y, x))
    && (forall x, y, z :: !less(y, x) && !less(z, y) ==> !less(z, x))
  }

  ghost predicate Sorted<T>(s: seq<T>, less: (T, T) -> bool) {
    forall i, j :: 0 <= i < j < |s| ==> !less(s[j], s[i])
  }

  // ---------------------------------------------------------------- sorting, as a function

  function InsertBy<T>(less: (T, T) -> bool, x: T, s: seq<T>): seq<T> {
    if s == [] || less(x, s[0]) then [x] + s else [s[0]] + InsertBy(less, x, s[1..])
  }

  function SortBy<T>(less: (T, T) -> bool, s: seq<T>): seq<T> {
    if s == [] then [] else InsertBy(less, s[0], SortBy(less, s[1..]))
  }

  lemma {:induction false} InsertByKeeps<T>(less: (T, T) -> bool, x: T, s: seq<T>)
    ensures multiset(InsertBy(less, x, s)) == multiset{x} + multiset(s)
  {
    if s != [] && !less(x, s[0]) {
      InsertByKeeps(less, x, s[1..]);
      assert s == [s[0]] + s[1..];
    }
  }

  lemma SortedCons<T(!new)>(less: (T, T) -> bool, x: T, s: seq<T>)
    requires Sorted(s, less) && forall y :: y in s ==> !less(y, x)
    ensures Sorted([x] + s, less)
  {
  }

  lemma {:induction false} InsertBySorts<T(!new)>(less: (T, T) -> bool, x: T, s: seq<T>)
    requires IsOrder(less) && Sorted(s, less)
    ensures Sorted(InsertBy(less, x, s), less)
  {
    if s == [] {
    } else if less(x, s[0]) {
      forall y | y in s ensures !less(y, x) { assert !less(s[0], x) && !less(y, s[0]); }
      SortedCons(less, x, s);
    } else {
      var rest := InsertBy(less, x, s[1..]);
      InsertBySorts(less, x, s[1..]);
      InsertByKeeps(less, x, s[1..]);
      forall y | y in rest ensures !less(y, s[0]) {
        assert y in multiset(rest);
        assert y == x || y in s[1..];
      }
      SortedCons(less, s[0], rest);
    }
  }

  /** Every sequence has a sorted permutation. */
  lemma {:induction false} SortBySorts<T(!new)>(less: (T, T) -> bool, s: seq<T>)
    requires IsOrder(less)
    ensures Sorted(SortBy(less, s), less) && multiset(SortBy(less, s)) == multiset(s)
  {
    if s != [] {
      SortBySorts(less, s[1..]);
      InsertBySorts(less, s[0], SortBy(less, s[1..]));
      InsertByKeeps(less, s[0], SortBy(less, s[1..]));
      assert s == [s[0]] + s[1..];
    }
  }

  // ---------------------------------------------------------------- sorting slots in place

  predicate Precedes<T>(x: Option<T>, y: Option<T>, less: (T, T) -> bool) {
    x.Some? && y.Some? && less(x.value, y.value)
  }

  /** No later slot of slots[..n] precedes an earlier one, not counting slot j. */
  ghost predicate Ascending<T>(slots: seq<Option<T>>, n: int, j: int, less: (T, T) -> bool)
    requires 0 <= n <= |slots|
  {
    forall p, q :: 0 <= p < q < n && p != j && q != j ==> !Precedes(slots[q], slots[p], less)
  }

  predicate AllSet<T>(slots: seq<Option<T>>, n: int)
    requires 0 <= n <= |slots|
  {
    forall p :: 0 <= p < n ==> slots[p].Some?
  }

  /** Slot j belongs before every slot behind it, up to i. */
  ghost predicate LeadsFrom<T>(slots: seq<Option<T>>, j: int, i: int, less: (T, T) -> bool)
    requires 0 <= j <= i < |slots|
  {
    forall q :: j < q <= i ==> Precedes(slots[j], slots[q], less)
  }

  /** Moving the new element one slot down, past one it precedes, keeps the rest in order. */
  lemma SwapDown<T(!new)>(s: seq<Option<T>>, s': seq<Option<T>>, i: int, j: int, less: (T, T) -> bool)
    requires IsOrder(less) && 0 < j <= i < |s| && s' == s[j := s[j - 1]][j - 1 := s[j]]
    requires Ascending(s, i + 1, j, less) && LeadsFrom(s, j, i, less) && Precedes(s[j], s[j - 1], less)
    ensures Ascending(s', i + 1, j - 1, less) && LeadsFrom(s', j - 1, i, less)
  {
  }

  /** Once the new element is at the front, or its left neighbour is not behind it, all is in order. */
  lemma Placed<T(!new)>(s: seq<Option<T>>, i: int, j: int, less: (T, T) -> bool)
    requires IsOrder(less) && 0 <= j <= i < |s| && AllSet(s, i + 1)
    requires Ascending(s, i + 1, j, less) && LeadsFrom(s, j, i, less)
    requires j > 0 ==> !Precedes(s[j], s[j - 1], less)
    ensures Ascending(s, i + 1, -1, less)
  {
  }

  method Swap<T>(a: array<T>, j: int)
    requires 0 < j < a.Length
    modifies a
    ensures a[..] == old(a[..])[j := old(a[j - 1])][j - 1 := old(a[j])]
    ensures multiset(a[..]) == multiset(old(a[..]))
  {
    a[j], a[j - 1] := a[j - 1], a[j];
  }

  /** What the insertion of slot i keeps: the slots, and the order of all but the one on the move. */
  ghost predicate Moving<T>(before: seq<Option<T>>, s: seq<Option<T>>, i: int, j: int, less: (T, T) -> bool)
    requires 0 <= j <= i < |s|
  {
    && multiset(s) == multiset(before)
    && (j < i ==> AllSet(s, i + 1))
    && (i > 1 && j == i ==> AllSet(s, i))
    && Ascending(s, i + 1, j, less) && LeadsFrom(s, j, i, less)
  }

  lemma NilStays<T>(before: seq<Option<T>>, s: seq<Option<T>>, k: int)
    requires multiset(s) == multiset(before) && 0 <= k < |s| && s[k] == None
    ensures None in before
  {
    assert None in multiset(s) && None in multiset(before);
  }

  /** Inserts slot i into the ordered slots before it, comparing neighbours and swapping. */
  method Insert<T(!new)>(a: array<Option<T>>, i: int, less: (T, T) -> bool) returns (panicked: bool)
    requires IsOrder(less) && 0 < i < a.Length
    requires Ascending(a[..], i, -1, less) && (i > 1 ==> AllSet(a[..], i))
    modifies a
    ensures multiset(a[..]) == multiset(old(a[..]))
    ensures panicked ==> None in old(a[..])
    ensures !panicked ==> AllSet(a[..], i + 1) && Ascending(a[..], i + 1, -1, less)
  {
    ghost var before := a[..];
    var j := i;
    while j > 0
      invariant 0 <= j <= i && Moving(before, a[..], i, j, less)
    {
      if a[j].None? {
        NilStays(before, a[..], j);
        return true;
      }
      if a[j - 1].None? {
        NilStays(before, a[..], j - 1);
        return true;
      }
      if !less(a[j].value, a[j - 1].value) { break; }
      ghost var s := a[..];
      Swap(a, j);
      SwapDown(s, a[..], i, j, less);
      j := j - 1;
    }
    Placed(a[..], i, j, less);
    panicked := false;
  }

  /**
   Sorts the slots, or panics. With two or more slots every one of them is compared, so the call
   panics exactly when one is unset.
   */
  method SortSlice<T(!new)>(a: array<Option<T>>, less: (T, T) -> bool) returns (panicked: bool)
    requires IsOrder(less)
    modifies a
    ensures panicked <==> a.Length > 1 && None in old(a[..])
    ensures multiset(a[..]) == multiset(old(a[..]))
    ensures !panicked ==> Ascending(a[..], a.Length, -1, less)
  {
    panicked := false;
    var i := 1;
    while i < a.Length
      invariant 1 <= i && (i <= a.Length || a.Length == 0)
      invariant multiset(a[..]) == multiset(old(a[..]))
      invariant 1 < i <= a.Length ==> AllSet(a[..], i)
      invariant i <= a.Length ==> Ascending(a[..], i, -1, less)
    {
      panicked := Insert(a, i, less);
      if panicked { return; }
      i := i + 1;
    }
    if a.Length > 1 {
      assert AllSet(a[..], a.Length);
      assert None !in a[..];
      assert None !in multiset(a[..]);
      assert None !in multiset(old(a[..]));
    }
  }
}
