/** Ordering rows by their integer id and cutting one page out of the
    ordered rows with `skip = pageSize * (page - 1)`, `take = pageSize`. */
module Paging {

  /** Strictly increasing. */
  predicate Ascending(s: seq<int>) {
    forall i, j :: 0 <= i < j < |s| ==> s[i] < s[j]
  }

  /** Strictly decreasing. */
  predicate Descending(s: seq<int>) {
    forall i, j :: 0 <= i < j < |s| ==> s[i] > s[j]
  }

  /** `m` is the least id of `s`. */
  predicate IsLeast(m: int, s: set<int>) {
    m in s && forall x :: x in s ==> m <= x
  }

  /** `m` is the greatest id of `s`. */
  predicate IsGreatest(m: int, s: set<int>) {
    m in s && forall x :: x in s ==> x <= m
  }

  /** Every non-empty finite set of ids has a least element. */
  lemma {:induction false} LeastExists(s: set<int>)
    requires s != {}
    ensures exists m :: IsLeast(m, s)
    decreases |s|
  {
    NonEmptyHasElement(s);
    var y :| y in s;
    var rest := s - {y};
    if rest == {} {
      assert s == {y};
      assert IsLeast(y, s);
    } else {
      LeastExists(rest);
      var m :| IsLeast(m, rest);
      var least := if y < m then y else m;
      assert IsLeast(least, s) by {
        forall x | x in s ensures least <= x {
          if x != y { assert x in rest; }
        }
      }
    }
  }

  /** Every non-empty finite set of ids has a greatest element. */
  lemma {:induction false} GreatestExists(s: set<int>)
    requires s != {}
    ensures exists m :: IsGreatest(m, s)
    decreases |s|
  {
    NonEmptyHasElement(s);
    var y :| y in s;
    var rest := s - {y};
    if rest == {} {
      assert s == {y};
      assert IsGreatest(y, s);
    } else {
      GreatestExists(rest);
      var m :| IsGreatest(m, rest);
      var greatest := if y > m then y else m;
      assert IsGreatest(greatest, s) by {
        forall x | x in s ensures x <= greatest {
          if x != y { assert x in rest; }
        }
      }
    }
  }

  /** A non-empty set has an element. */
  lemma NonEmptyHasElement(s: set<int>)
    requires s != {}
    ensures exists y :: y in s
  {
    if forall y :: y !in s {
      assert false;
    }
  }

  /** The ids of a table in ascending order, as `orderBy: { id: 'asc' }` returns them. */
  function SortedIds(s: set<int>): (ids: seq<int>)
    ensures Ascending(ids)
    ensures |ids| == |s|
    ensures forall x :: x in s <==> x in ids
    decreases |s|
  {
    if s == {} then []
    else
      LeastExists(s);
      var m :| IsLeast(m, s);
      [m] + SortedIds(s - {m})
  }

  /** The ids of a table in descending order, as `orderBy: { id: 'desc' }` returns them. */
  function SortedIdsDesc(s: set<int>): (ids: seq<int>)
    ensures Descending(ids)
    ensures |ids| == |s|
    ensures forall x :: x in s <==> x in ids
    decreases |s|
  {
    if s == {} then []
    else
      GreatestExists(s);
      var m :| IsGreatest(m, s);
      [m] + SortedIdsDesc(s - {m})
  }

  /** The rows of a table in ascending id order. */
  function RowsAscending<T>(m: map<int, T>): (rows: seq<T>)
    ensures |rows| == |m|
    ensures forall i :: 0 <= i < |rows| ==> SortedIds(m.Keys)[i] in m && rows[i] == m[SortedIds(m.Keys)[i]]
  {
    RowsOf(m, SortedIds(m.Keys))
  }

  /** The rows of a table in descending id order. */
  function RowsDescending<T>(m: map<int, T>): (rows: seq<T>)
    ensures |rows| == |m|
    ensures forall i :: 0 <= i < |rows| ==> SortedIdsDesc(m.Keys)[i] in m && rows[i] == m[SortedIdsDesc(m.Keys)[i]]
  {
    RowsOf(m, SortedIdsDesc(m.Keys))
  }

  /** The page a listing shows when the caller names none. */
  const FirstPage := 1

  /** The number of rows a page skips. */
  function Skip(page: int, pageSize: int): int {
    pageSize * (page - 1)
  }

  /** `findMany({ skip, take: pageSize })` over rows already ordered: the
      window starting at the skip offset, full unless it reaches the end. */
  function Page<T>(rows: seq<T>, page: int, pageSize: int): (r: seq<T>)
    requires page >= 1 && pageSize >= 1
    ensures |r| <= pageSize
    ensures forall i :: 0 <= i < |r| ==> Skip(page, pageSize) + i < |rows| && r[i] == rows[Skip(page, pageSize) + i]
    ensures |r| == pageSize || Skip(page, pageSize) + |r| >= |rows|
  {
    var skip := Skip(page, pageSize);
    if skip >= |rows| then []
    else if skip + pageSize <= |rows| then rows[skip..skip + pageSize]
    else rows[skip..]
  }

  /** `rows` is page `page` of table `m` read in the order `ids`: at most
      `pageSize` rows, taken in order from the skip offset, and a full page
      unless the table runs out. */
  ghost predicate IsPageOf<T>(rows: seq<T>, m: map<int, T>, ids: seq<int>, page: int, pageSize: int) {
    && |rows| <= pageSize
    && (|rows| == pageSize || Skip(page, pageSize) + |rows| >= |ids|)
    && forall i :: 0 <= i < |rows| ==>
         0 <= Skip(page, pageSize) + i < |ids| && ids[Skip(page, pageSize) + i] in m
         && rows[i] == m[ids[Skip(page, pageSize) + i]]
  }

  /** A page cut from rows laid out in the order `ids` is that page of `ids`. */
  lemma PageOfOrdered<T>(m: map<int, T>, ids: seq<int>, rows: seq<T>, page: int, pageSize: int)
    requires page >= 1 && pageSize >= 1
    requires |rows| == |ids|
    requires forall i :: 0 <= i < |ids| ==> ids[i] in m && rows[i] == m[ids[i]]
    ensures IsPageOf(Page(rows, page, pageSize), m, ids, page, pageSize)
  {
    var k := Skip(page, pageSize);
    var r := Page(rows, page, pageSize);
    forall i | 0 <= i < |r|
      ensures 0 <= k + i < |ids| && ids[k + i] in m && r[i] == m[ids[k + i]]
    {
      assert r[i] == rows[k + i];
    }
  }

  /** A page cut from the ascending rows is that page of the ascending ids. */
  lemma PageAscending<T>(m: map<int, T>, page: int, pageSize: int)
    requires page >= 1 && pageSize >= 1
    ensures IsPageOf(Page(RowsAscending(m), page, pageSize), m, SortedIds(m.Keys), page, pageSize)
  {
    PageOfOrdered(m, SortedIds(m.Keys), RowsAscending(m), page, pageSize);
  }

  /** A page cut from the descending rows is that page of the descending ids. */
  lemma PageDescending<T>(m: map<int, T>, page: int, pageSize: int)
    requires page >= 1 && pageSize >= 1
    ensures IsPageOf(Page(RowsDescending(m), page, pageSize), m, SortedIdsDesc(m.Keys), page, pageSize)
  {
    PageOfOrdered(m, SortedIdsDesc(m.Keys), RowsDescending(m), page, pageSize);
  }

  /** The rows of table `m` under the ids `ids`, in that order. */
  function RowsOf<T>(m: map<int, T>, ids: seq<int>): (rows: seq<T>)
    requires forall i :: 0 <= i < |ids| ==> ids[i] in m
    ensures |rows| == |ids|
    ensures forall i :: 0 <= i < |ids| ==> rows[i] == m[ids[i]]
  {
    seq(|ids|, i requires 0 <= i < |ids| => m[ids[i]])
  }

  /** The ids, in their given order, whose rows satisfy `keep`: the
      `where` filter of a `findMany`. */
  function Filter<T>(ids: seq<int>, m: map<int, T>, keep: T -> bool): (kept: seq<int>)
    requires forall i :: 0 <= i < |ids| ==> ids[i] in m
    ensures forall x :: x in kept <==> x in ids && keep(m[x])
  {
    if ids == [] then []
    else
      var rest := Filter(ids[1..], m, keep);
      assert forall x :: x in ids <==> x == ids[0] || x in ids[1..];
      if keep(m[ids[0]]) then [ids[0]] + rest else rest
  }

  lemma ConsAscending(h: int, t: seq<int>)
    requires Ascending(t) && forall x :: x in t ==> h < x
    ensures Ascending([h] + t)
  {
    var s := [h] + t;
    forall i, j | 0 <= i < j < |s| ensures s[i] < s[j] {
      assert s[j] == t[j - 1] && t[j - 1] in t;
      if i > 0 { assert s[i] == t[i - 1]; }
    }
  }

  /** Filtering ascending ids keeps them ascending. */
  lemma {:induction false} FilterAscending<T>(ids: seq<int>, m: map<int, T>, keep: T -> bool)
    requires forall i :: 0 <= i < |ids| ==> ids[i] in m
    requires Ascending(ids)
    ensures Ascending(Filter(ids, m, keep))
  {
    if ids != [] {
      var rest := Filter(ids[1..], m, keep);
      FilterAscending(ids[1..], m, keep);
      if keep(m[ids[0]]) {
        forall x | x in rest ensures ids[0] < x {
          var k :| 0 <= k < |ids[1..]| && ids[1..][k] == x;
          assert ids[k + 1] == x;
        }
        ConsAscending(ids[0], rest);
      }
    }
  }

  lemma ConsDescending(h: int, t: seq<int>)
    requires Descending(t) && forall x :: x in t ==> h > x
    ensures Descending([h] + t)
  {
    var s := [h] + t;
    forall i, j | 0 <= i < j < |s| ensures s[i] > s[j] {
      assert s[j] == t[j - 1] && t[j - 1] in t;
      if i > 0 { assert s[i] == t[i - 1]; }
    }
  }

  /** Filtering descending ids keeps them descending. */
  lemma {:induction false} FilterDescending<T>(ids: seq<int>, m: map<int, T>, keep: T -> bool)
    requires forall i :: 0 <= i < |ids| ==> ids[i] in m
    requires Descending(ids)
    ensures Descending(Filter(ids, m, keep))
  {
    if ids != [] {
      var rest := Filter(ids[1..], m, keep);
      FilterDescending(ids[1..], m, keep);
      if keep(m[ids[0]]) {
        forall x | x in rest ensures ids[0] > x {
          var k :| 0 <= k < |ids[1..]| && ids[1..][k] == x;
          assert ids[k + 1] == x;
        }
        ConsDescending(ids[0], rest);
      }
    }
  }
}
