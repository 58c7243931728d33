/**
 Paged, filtered, sorted listing. A List call cuts one page out of the target's answer, maps or
 filters its rows, sorts what is left, and records where the next page starts under a new token.
 */
module Paging {
  import opened Common
  import opened Sorting

  datatype ListRequest = ListRequest(checked: bool, parent: string, pageSize: int, pageToken: string)

  /** The size and offset a request asks for. */
  function ExtractPagination(pageSize: int, token: string, pages: Pages, default: PageSize): Reply<(PageSize, nat)> {
    if pageSize < 0 then Err(Invalid)
    else if token != "" && token !in pages then Err(NotFound(token))
    else Ok((if pageSize == 0 then default else pageSize, if token == "" then 0 else pages[token]))
  }

  predicate HasMore<T>(rows: seq<T>, offset: nat, size: PageSize) {
    offset + size < |rows|
  }

  /** At most size rows from offset on. */
  function Page<T>(rows: seq<T>, offset: nat, size: PageSize): seq<T> {
    if HasMore(rows, offset, size) then rows[offset..offset + size]
    else if offset <= |rows| then rows[offset..]
    else []
  }

  /** The token map after a page: one more entry when there is a next page. */
  function Recorded<T>(pages: Pages, rows: seq<T>, offset: nat, size: PageSize, uuid: string): Pages {
    if HasMore(rows, offset, size) then pages[uuid := offset + size] else pages
  }

  /** The rows that pick selects, in the form it gives them. */
  function FilterMap<R, T>(pick: R -> Option<T>, rows: seq<R>): seq<T> {
    if rows == [] then [] else Picked(pick(rows[0])) + FilterMap(pick, rows[1..])
  }

  function Picked<T>(x: Option<T>): seq<T> {
    if x.Some? then [x.value] else []
  }

  /** A sorted permutation of the page's picked rows. */
  ghost predicate Rendered<R, T>(page: seq<R>, values: seq<T>, pick: R -> Option<T>, less: (T, T) -> bool) {
    Sorted(values, less) && multiset(values) == multiset(FilterMap(pick, page))
  }

  /** A page is shown, and the next page's start is recorded under a new token. */
  ghost predicate Shows<R, T>(
      rows: seq<R>, offset: nat, size: PageSize, uuid: string, pages: Pages, pages': Pages,
      reply: Reply<seq<T>>, pick: R -> Option<T>, less: (T, T) -> bool)
  {
    && pages' == Recorded(pages, rows, offset, size, uuid)
    && reply.Ok? && Rendered(Page(rows, offset, size), reply.value, pick, less)
  }

  // ---------------------------------------------------------------- filtering distributes

  lemma AppendAssociates<T>(a: seq<T>, b: seq<T>, c: seq<T>)
    ensures a + (b + c) == (a + b) + c
  {
  }

  lemma {:induction false} FilterMapConcat<R, T>(pick: R -> Option<T>, a: seq<R>, b: seq<R>)
    ensures FilterMap(pick, a + b) == FilterMap(pick, a) + FilterMap(pick, b)
  {
    if a == [] {
      assert a + b == b;
    } else {
      FilterMapConcat(pick, a[1..], b);
      assert (a + b)[1..] == a[1..] + b;
      AppendAssociates(Picked(pick(a[0])), FilterMap(pick, a[1..]), FilterMap(pick, b));
    }
  }

  lemma FilterMapSplit<R, T>(pick: R -> Option<T>, rows: seq<R>, n: nat)
    requires n <= |rows|
    ensures FilterMap(pick, rows) == FilterMap(pick, rows[..n]) + FilterMap(pick, rows[n..])
  {
    assert rows == rows[..n] + rows[n..];
    FilterMapConcat(pick, rows[..n], rows[n..]);
  }

  // ---------------------------------------------------------------- walking the pages

  /** One List call of a walk: the token map it found and left, its fresh token, and its reply. */
  datatype Visit<T> = Visit(before: Pages, after: Pages, uuid: string, reply: Reply<seq<T>>)

  /** The calls of a walk, first to last. */
  datatype Visits<T> = Last(visit: Visit<T>) | Then(visit: Visit<T>, rest: Visits<T>)

  function EffectiveSize(pageSize: nat, default: PageSize): PageSize {
    if pageSize == 0 then default else pageSize
  }

  /**
   Calls over an unchanged list of rows, each continuing where the map says the previous one
   stopped. Other calls may have added tokens in between, as long as this one's entry is still there.
   A walk that is not finished may stop before the last page.
   */
  ghost predicate Walk<R, T>(
      visits: Visits<T>, token: string, offset: nat, finished: bool, pageSize: nat, rows: seq<R>,
      default: PageSize, pick: R -> Option<T>, less: (T, T) -> bool)
  {
    var v, size := visits.visit, EffectiveSize(pageSize, default);
    && ExtractPagination(pageSize, token, v.before, default) == Ok((size, offset))
    && Shows(rows, offset, size, v.uuid, v.before, v.after, v.reply, pick, less)
    && match visits
       case Last(_) => finished ==> !HasMore(rows, offset, size)
       case Then(_, rest) =>
         && HasMore(rows, offset, size)
         && v.uuid != "" && v.uuid in rest.visit.before && rest.visit.before[v.uuid] == v.after[v.uuid]
         && Walk(rest, v.uuid, offset + size, finished, pageSize, rows, default, pick, less)
  }

  function Calls<T>(visits: Visits<T>): nat {
    if visits.Last? then 1 else 1 + Calls(visits.rest)
  }

  /** Everything the walk showed, page after page. */
  function Shown<T>(visits: Visits<T>): seq<T> {
    var page := if visits.visit.reply.Ok? then visits.visit.reply.value else [];
    if visits.Last? then page else page + Shown(visits.rest)
  }

  ghost predicate AllSorted<T>(visits: Visits<T>, less: (T, T) -> bool) {
    && visits.visit.reply.Ok? && Sorted(visits.visit.reply.value, less)
    && (visits.Then? ==> AllSorted(visits.rest, less))
  }

  /** Following the recorded offsets ends after at most one call per row. */
  lemma {:induction false} WalkEnds<R, T>(
      visits: Visits<T>, token: string, offset: nat, finished: bool, pageSize: nat, rows: seq<R>,
      default: PageSize, pick: R -> Option<T>, less: (T, T) -> bool)
    requires Walk(visits, token, offset, finished, pageSize, rows, default, pick, less)
    ensures Calls(visits) == 1 || offset + Calls(visits) <= |rows|
  {
    if visits.Then? {
      var next := offset + EffectiveSize(pageSize, default);
      WalkEnds(visits.rest, visits.visit.uuid, next, finished, pageSize, rows, default, pick, less);
    }
  }

  /** Every page of a walk is sorted. */
  lemma {:induction false} WalkIsSorted<R, T>(
      visits: Visits<T>, token: string, offset: nat, finished: bool, pageSize: nat, rows: seq<R>,
      default: PageSize, pick: R -> Option<T>, less: (T, T) -> bool)
    requires Walk(visits, token, offset, finished, pageSize, rows, default, pick, less)
    ensures AllSorted(visits, less)
  {
    if visits.Then? {
      var next := offset + EffectiveSize(pageSize, default);
      WalkIsSorted(visits.rest, visits.visit.uuid, next, finished, pageSize, rows, default, pick, less);
    }
  }

  /** The pages, each holding its picked rows in some order, use up the rows one page after another. */
  ghost predicate Covers<R, T>(visits: Visits<T>, size: PageSize, rows: seq<R>, pick: R -> Option<T>) {
    && visits.visit.reply.Ok?
    && multiset(visits.visit.reply.value) == multiset(FilterMap(pick, Page(rows, 0, size)))
    && (visits.Then? <==> size < |rows|)
    && (visits.Then? ==> Covers(visits.rest, size, rows[size..], pick))
  }

  lemma PageOfRest<R>(rows: seq<R>, offset: nat, size: PageSize)
    requires offset <= |rows|
    ensures Page(rows[offset..], 0, size) == Page(rows, offset, size)
    ensures size <= |rows[offset..]| ==> rows[offset..][size..] == rows[offset + size..]
  {
  }

  lemma {:induction false} WalkCovers<R, T>(
      visits: Visits<T>, token: string, offset: nat, pageSize: nat, rows: seq<R>,
      default: PageSize, pick: R -> Option<T>, less: (T, T) -> bool)
    requires Walk(visits, token, offset, true, pageSize, rows, default, pick, less) && offset <= |rows|
    ensures Covers(visits, EffectiveSize(pageSize, default), rows[offset..], pick)
  {
    var size := EffectiveSize(pageSize, default);
    PageOfRest(rows, offset, size);
    if visits.Then? {
      WalkCovers(visits.rest, visits.visit.uuid, offset + size, pageSize, rows, default, pick, less);
    }
  }

  lemma {:induction false} CoversAll<R, T>(visits: Visits<T>, size: PageSize, rows: seq<R>, pick: R -> Option<T>)
    requires Covers(visits, size, rows, pick)
    ensures multiset(Shown(visits)) == multiset(FilterMap(pick, rows))
  {
    if visits.Then? {
      CoversAll(visits.rest, size, rows[size..], pick);
      FilterMapSplit(pick, rows, size);
    } else {
      assert rows[0..] == rows;
    }
  }

  /**
   The pages of a finished walk make up, all together, exactly the picked rows of the whole list:
   cutting before filtering and sorting page by page loses, repeats and invents nothing.
   */
  lemma WalkIsComplete<R, T>(
      visits: Visits<T>, token: string, offset: nat, pageSize: nat, rows: seq<R>,
      default: PageSize, pick: R -> Option<T>, less: (T, T) -> bool)
    requires Walk(visits, token, offset, true, pageSize, rows, default, pick, less) && offset <= |rows|
    ensures multiset(Shown(visits)) == multiset(FilterMap(pick, rows[offset..]))
  {
    WalkCovers(visits, token, offset, pageSize, rows, default, pick, less);
    CoversAll(visits, EffectiveSize(pageSize, default), rows[offset..], pick);
  }

  /** Any page of any rows can be shown. */
  lemma CanShow<R, T(!new)>(
      rows: seq<R>, offset: nat, size: PageSize, uuid: string, pages: Pages, pick: R -> Option<T>, less: (T, T) -> bool)
    returns (visit: Visit<T>)
    requires IsOrder(less)
    ensures visit.before == pages && visit.uuid == uuid && visit.after == Recorded(pages, rows, offset, size, uuid)
    ensures Shows(rows, offset, size, uuid, pages, visit.after, visit.reply, pick, less)
  {
    var picked := FilterMap(pick, Page(rows, offset, size));
    SortBySorts(less, picked);
    visit := Visit(pages, Recorded(pages, rows, offset, size, uuid), uuid, Ok(SortBy(less, picked)));
  }

  /**
   From any token map a walk can always be finished: answering each call, and calling again with the
   token it recorded, reaches a page with nothing behind it, whatever non-empty tokens are drawn.
   */
  lemma {:induction false} WalkCompletes<R, T(!new)>(
      before: Pages, token: string, offset: nat, pageSize: nat, rows: seq<R>, default: PageSize,
      pick: R -> Option<T>, less: (T, T) -> bool, uuids: nat -> string)
    returns (visits: Visits<T>)
    requires IsOrder(less) && forall n :: uuids(n) != ""
    requires ExtractPagination(pageSize, token, before, default) == Ok((EffectiveSize(pageSize, default), offset))
    ensures Walk(visits, token, offset, true, pageSize, rows, default, pick, less)
    ensures visits.visit.before == before
    decreases |rows| - offset
  {
    var size := EffectiveSize(pageSize, default);
    var visit := CanShow(rows, offset, size, uuids(offset), before, pick, less);
    if HasMore(rows, offset, size) {
      var rest := WalkCompletes(
        visit.after, uuids(offset), offset + size, pageSize, rows, default, pick, less, uuids);
      visits := Then(visit, rest);
    } else {
      visits := Last(visit);
    }
  }

  // ---------------------------------------------------------------- without tokens

  lemma {:induction false} NothingPicked<R, T>(pick: R -> Option<T>, rows: seq<R>)
    ensures FilterMap(pick, rows) == [] <==> forall i :: 0 <= i < |rows| ==> pick(rows[i]).None?
  {
    if rows != [] { NothingPicked(pick, rows[1..]); }
  }

  lemma ShownOfTwo<T>(all: seq<T>, first: seq<T>, rest: seq<T>)
    requires all == first + rest
    ensures multiset(first) == multiset(all) <==> rest == []
  {
    assert |multiset(all)| == |first| + |rest| && |multiset(first)| == |first|;
    if rest == [] { assert all == first; }
  }

  lemma NothingPickedBehind<R, T>(pick: R -> Option<T>, rows: seq<R>, n: nat)
    requires n <= |rows|
    ensures FilterMap(pick, rows[n..]) == [] <==> forall i :: n <= i < |rows| ==> pick(rows[i]).None?
  {
    var hidden := rows[n..];
    NothingPicked(pick, hidden);
    assert forall i :: n <= i < |rows| ==> rows[i] == hidden[i - n];
  }

  /**
   No reply carries its token, so a client gets the first page only. That page shows the whole list
   exactly when no row behind it would have been picked.
   */
  lemma FirstPageShowsAll<R, T>(
      rows: seq<R>, size: PageSize, values: seq<T>, pick: R -> Option<T>, less: (T, T) -> bool)
    requires Rendered(Page(rows, 0, size), values, pick, less)
    ensures multiset(values) == multiset(FilterMap(pick, rows)) <==>
            forall i :: size <= i < |rows| ==> pick(rows[i]).None?
  {
    if size < |rows| {
      FilterMapSplit(pick, rows, size);
      NothingPickedBehind(pick, rows, size);
      ShownOfTwo(FilterMap(pick, rows), FilterMap(pick, rows[..size]), FilterMap(pick, rows[size..]));
    } else {
      assert rows[0..] == rows;
    }
  }

  // ---------------------------------------------------------------- string order

  /** Lexicographic order on characters, Go's < on strings. */
  predicate StringLess(a: string, b: string) {
    if a == "" || b == "" then b != "" && a == ""
    else a[0] < b[0] || (a[0] == b[0] && StringLess(a[1..], b[1..]))
  }

  lemma {:induction false} StringLessTrichotomy(a: string, b: string)
    ensures StringLess(a, b) ==> !StringLess(b, a)
    ensures !StringLess(a, b) && !StringLess(b, a) ==> a == b
  {
    if a != "" && b != "" {
      StringLessTrichotomy(a[1..], b[1..]);
      assert a == [a[0]] + a[1..] && b == [b[0]] + b[1..];
    }
  }

  lemma {:induction false} StringLessTransitive(a: string, b: string, c: string)
    requires !StringLess(b, a) && !StringLess(c, b)
    ensures !StringLess(c, a)
  {
    if a != "" && b != "" && c != "" && a[0] == b[0] == c[0] {
      StringLessTransitive(a[1..], b[1..], c[1..]);
    }
  }

  /** a and b agree up to n, where a ends or has the smaller character. */
  predicate DiffersAt(a: string, b: string, n: nat) {
    n <= |a| && n < |b| && a[..n] == b[..n] && (n == |a| || a[n] < b[n])
  }

  /** The same order, by first difference or proper prefix. */
  ghost predicate ComesBefore(a: string, b: string) {
    exists n: nat :: DiffersAt(a, b, n)
  }

  lemma DiffersBehindFront(a: string, b: string, n: nat)
    requires a != "" && b != ""
    ensures DiffersAt(a, b, n + 1) <==> a[0] == b[0] && DiffersAt(a[1..], b[1..], n)
  {
    if n < |a| && n < |b| - 1 {
      assert a[..n + 1] == [a[0]] + a[1..][..n] && b[..n + 1] == [b[0]] + b[1..][..n];
      if a[..n + 1] == b[..n + 1] {
        assert a[0] == a[..n + 1][0] == b[..n + 1][0] == b[0];
        assert a[1..][..n] == a[..n + 1][1..] == b[..n + 1][1..] == b[1..][..n];
      }
    }
  }

  lemma {:induction false} StringLessIsComesBefore(a: string, b: string)
    ensures StringLess(a, b) <==> ComesBefore(a, b)
  {
    if a == "" {
      assert b != "" ==> DiffersAt(a, b, 0);
    } else if b != "" {
      StringLessIsComesBefore(a[1..], b[1..]);
      if StringLess(a, b) {
        if a[0] < b[0] {
          assert DiffersAt(a, b, 0);
        } else {
          var n: nat :| DiffersAt(a[1..], b[1..], n);
          DiffersBehindFront(a, b, n);
        }
      }
      if ComesBefore(a, b) {
        var n: nat :| DiffersAt(a, b, n);
        if n > 0 {
          DiffersBehindFront(a, b, n - 1);
          assert ComesBefore(a[1..], b[1..]);
        }
      }
    }
  }

  lemma StringLessIsOrder()
    ensures IsOrder(StringLess)
  {
    forall a, b | StringLess(a, b) ensures !StringLess(b, a) { StringLessTrichotomy(a, b); }
    forall a, b, c | !StringLess(b, a) && !StringLess(c, b) ensures !StringLess(c, a) {
      StringLessTransitive(a, b, c);
    }
  }
}
