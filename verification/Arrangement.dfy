/** Sequences that depict the rows of another one, each row as often as it is there, in any order. */
module Arrangement {
  import opened Common
  import opened Paging

  /** The places of the kept rows whose picture is v. */
  ghost function PlacesOf<R, T>(rows: seq<R>, v: T, keeps: R -> bool, picture: R -> T): set<int> {
    set i | 0 <= i < |rows| && keeps(rows[i]) && picture(rows[i]) == v
  }

  /** shown holds the pictures of the kept rows and nothing else: each as often as rows have it. */
  ghost predicate Depicts<R, T(!new)>(rows: seq<R>, shown: seq<T>, keeps: R -> bool, picture: R -> T) {
    forall v :: multiset(shown)[v] == |PlacesOf(rows, v, keeps, picture)|
  }

  lemma OneMorePlace<R, T>(rows: seq<R>, more: seq<R>, v: T, keeps: R -> bool, picture: R -> T)
    requires |more| == |rows| + 1 && forall i :: 0 <= i < |rows| ==> more[i] == rows[i]
    ensures var last := more[|rows|];
            PlacesOf(more, v, keeps, picture) ==
            PlacesOf(rows, v, keeps, picture) + if keeps(last) && picture(last) == v then {|rows|} else {}
  {
  }

  lemma {:induction false} PickedAtPlaces<R, T>(
      rows: seq<R>, v: T, pick: R -> Option<T>, keeps: R -> bool, picture: R -> T)
    requires forall r :: r in rows ==> pick(r) == if keeps(r) then Some(picture(r)) else None
    ensures multiset(FilterMap(pick, rows))[v] == |PlacesOf(rows, v, keeps, picture)|
    decreases |rows|
  {
    if rows != [] {
      var init, last := rows[..|rows| - 1], rows[|rows| - 1];
      assert rows == init + [last];
      PickedAtPlaces(init, v, pick, keeps, picture);
      OneMorePlace(init, rows, v, keeps, picture);
      assert |rows| - 1 !in PlacesOf(init, v, keeps, picture);
      FilterMapConcat(pick, init, [last]);
      assert FilterMap(pick, [last]) == Picked(pick(last));
    }
  }

  /** A page as rendered shows exactly the rows that pick selects, as pick pictures them. */
  lemma RenderedDepicts<R, T(!new)>(
      rows: seq<R>, shown: seq<T>, pick: R -> Option<T>, keeps: R -> bool, picture: R -> T)
    requires multiset(shown) == multiset(FilterMap(pick, rows))
    requires forall r :: r in rows ==> pick(r) == if keeps(r) then Some(picture(r)) else None
    ensures Depicts(rows, shown, keeps, picture)
  {
    forall v ensures multiset(shown)[v] == |PlacesOf(rows, v, keeps, picture)| {
      PickedAtPlaces(rows, v, pick, keeps, picture);
    }
  }
}
