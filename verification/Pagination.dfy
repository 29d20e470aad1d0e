/** Offset pagination: when the pages of a listing partition the table. */
module Pagination {
  import opened Sets

  datatype Row = Row(id: nat, createdAt: int, deleted: bool)

  datatype PaginationMeta = PaginationMeta(total: nat, page: int, size: int, pages: nat)

  /** `PaginationMeta.create`, with the ceiling of the exact quotient. */
  function CreateMeta(total: nat, page: int, size: int): PaginationMeta {
    PaginationMeta(total, page, size, if size > 0 then (total + size - 1) / size else 0)
  }

  /** The rows a listing may show. */
  function LiveRows(table: set<Row>): set<Row> {
    set r | r in table && !r.deleted
  }

  /** A result the database may return for `ORDER BY created_at DESC`: ties in any order. */
  ghost predicate IsOrder(live: set<Row>, o: seq<Row>) {
    && (forall r :: r in o <==> r in live)
    && (forall i, j :: 0 <= i < j < |o| ==> o[i] != o[j] && o[i].createdAt >= o[j].createdAt)
  }

  function Min(a: int, b: int): int {
    if a < b then a else b
  }

  /** `get_multi`: OFFSET and LIMIT on an ordered result. */
  function GetMulti(o: seq<Row>, skip: nat, limit: nat): seq<Row> {
    o[Min(skip, |o|)..Min(skip + limit, |o|)]
  }

  /** `get_paginated`, with the order the database happened to use for this page. */
  function GetPaginated(live: set<Row>, o: seq<Row>, page: nat, size: nat): (seq<Row>, PaginationMeta)
    requires page >= 1
  {
    (GetMulti(o, (page - 1) * size, size), CreateMeta(|live|, page, size))
  }

  // ------------------------------------------------ one order for all pages

  /** Pages 1 to `n` one after another. */
  function Concatenated(live: set<Row>, o: seq<Row>, size: nat, n: nat): seq<Row> {
    if n == 0 then [] else Concatenated(live, o, size, n - 1) + GetPaginated(live, o, n, size).0
  }

  lemma {:induction false} ConcatenatedPrefix(live: set<Row>, o: seq<Row>, size: nat, n: nat)
    ensures Concatenated(live, o, size, n) == o[..Min(n * size, |o|)]
  {
    if n > 0 {
      ConcatenatedPrefix(live, o, size, n - 1);
      assert n * size == (n - 1) * size + size;
    }
  }

  lemma PagesCover(total: nat, size: nat)
    requires size >= 1
    ensures CreateMeta(total, 1, 0).pages == 0
    ensures var n := CreateMeta(total, 1, size).pages;
            && n * size >= total
            && (n > 0 ==> (n - 1) * size < total)
            && (n == 0 <==> total == 0)
  {
    var n := (total + size - 1) / size;
    assert total + size - 1 == n * size + (total + size - 1) % size;
    assert (n - 1) * size == n * size - size;
    if n == 0 {
      assert total + size - 1 < size;
    }
  }

  lemma OrderSize(live: set<Row>, o: seq<Row>)
    requires IsOrder(live, o)
    ensures |o| == |live|
  {
    DistinctSize(o);
    assert Elements(o) == live;
  }

  /** A page before the boundary is full, and one beyond the rows is empty. */
  lemma PageSize(o: seq<Row>, p: nat, size: nat)
    requires p >= 1
    ensures p * size <= |o| ==> |GetMulti(o, (p - 1) * size, size)| == size
    ensures (p - 1) * size >= |o| ==> GetMulti(o, (p - 1) * size, size) == []
    ensures (p - 1) * size < |o| && size >= 1 ==> GetMulti(o, (p - 1) * size, size) != []
  {
    assert (p - 1) * size + size == p * size;
  }

  lemma OrderedPagesPartition(live: set<Row>, o: seq<Row>, size: nat)
    requires IsOrder(live, o) && size >= 1
    ensures var n := CreateMeta(|live|, 1, size).pages;
            && Concatenated(live, o, size, n) == o
            && (forall p :: 1 <= p < n ==> |GetPaginated(live, o, p, size).0| == size)
            && (n > 0 ==> GetPaginated(live, o, n, size).0 != [])
            && (forall p :: p > n ==> GetPaginated(live, o, p, size).0 == [])
  {
    var n := CreateMeta(|live|, 1, size).pages;
    OrderSize(live, o);
    PagesCover(|o|, size);
    ConcatenatedPrefix(live, o, size, n);
    forall p | 1 <= p < n ensures |GetPaginated(live, o, p, size).0| == size {
      MulMonotone(p, n - 1, size);
      PageSize(o, p, size);
    }
    if n > 0 {
      PageSize(o, n, size);
    }
    forall p | p > n ensures GetPaginated(live, o, p, size).0 == [] {
      MulMonotone(n, p - 1, size);
      PageSize(o, p, size);
    }
  }

  /**
   * With one order of the undeleted rows throughout, pages 1 to `pages` list every undeleted row of the table
   * once, in order, in full pages but the last.
   */
  lemma PagesPartition(table: set<Row>, o: seq<Row>, size: nat)
    requires IsOrder(LiveRows(table), o) && size >= 1
    ensures var live := LiveRows(table); var n := CreateMeta(|live|, 1, size).pages;
            var listed := Concatenated(live, o, size, n);
            && listed == o && (forall r :: r in listed <==> r in table && !r.deleted)
            && (forall i, j :: 0 <= i < j < |listed| ==> listed[i] != listed[j])
            && (forall p :: 1 <= p < n ==> |GetPaginated(live, o, p, size).0| == size)
            && (n > 0 ==> GetPaginated(live, o, n, size).0 != [])
            && (forall p :: p > n ==> GetPaginated(live, o, p, size).0 == [])
            && (forall p :: p >= 1 ==> GetPaginated(live, o, p, size).1 == PaginationMeta(|listed|, p, size, n))
  {
    OrderSize(LiveRows(table), o);
    OrderedPagesPartition(LiveRows(table), o, size);
  }

  lemma MulMonotone(a: nat, b: nat, size: nat)
    requires a <= b
    ensures a * size <= b * size
  {
  }

  // ------------------------------------------------ an order of its own for every page

  function Newer(live: set<Row>, v: int): set<Row> {
    set r | r in live && r.createdAt > v
  }

  function NotOlder(live: set<Row>, v: int): set<Row> {
    set r | r in live && r.createdAt >= v
  }

  /** The first and the last position a row of this instant can take. */
  function FirstRank(live: set<Row>, v: int): nat {
    |Newer(live, v)|
  }

  function LastRank(live: set<Row>, v: int): int {
    |NotOlder(live, v)| - 1
  }

  /** The 0-based page a position is cut into. */
  function PageOf(i: int, size: nat): nat
    requires size >= 1
  {
    if i < size then 0 else 1 + PageOf(i - size, size)
  }

  /** Rows created at the same instant all fall on one page. */
  predicate TiesFit(live: set<Row>, size: nat)
    requires size >= 1
  {
    forall r :: r in live ==> PageOf(FirstRank(live, r.createdAt), size) == PageOf(LastRank(live, r.createdAt), size)
  }

  /** The 0-based `p`-th page, under the order used for it. */
  predicate OnPage(o: seq<Row>, p: nat, size: nat, r: Row) {
    r in GetMulti(o, p * size, size)
  }

  /** Every live row is on exactly one of the pages, page `p` being cut from `orders[p]`. */
  ghost predicate EachOnce(live: set<Row>, orders: seq<seq<Row>>, size: nat) {
    forall r :: r in live ==>
      exists p: nat :: p < |orders| && OnPage(orders[p], p, size, r) &&
        forall q: nat :: q < |orders| && OnPage(orders[q], q, size, r) ==> q == p
  }

  ghost predicate Listing(live: set<Row>, orders: seq<seq<Row>>, size: nat) {
    |orders| == CreateMeta(|live|, 1, size).pages && forall p :: 0 <= p < |orders| ==> IsOrder(live, orders[p])
  }

  function Elements(o: seq<Row>): set<Row> {
    set r | r in o
  }

  lemma {:induction false} DistinctSize(s: seq<Row>)
    requires forall i, j :: 0 <= i < j < |s| ==> s[i] != s[j]
    ensures |Elements(s)| == |s|
  {
    if s == [] {
      assert Elements(s) == {};
    } else {
      var last, rest := s[|s| - 1], s[..|s| - 1];
      assert s == rest + [last];
      DistinctSize(rest);
      assert Elements(s) == Elements(rest) + {last};
      assert last !in rest;
    }
  }

  lemma PrefixSize(live: set<Row>, o: seq<Row>, n: nat)
    requires IsOrder(live, o) && n <= |o|
    ensures |Elements(o[..n])| == n
  {
    DistinctSize(o[..n]);
  }

  /** Whatever the order, the position of a row lies between its ranks. */
  lemma PositionBetweenRanks(live: set<Row>, o: seq<Row>, i: nat)
    requires IsOrder(live, o) && i < |o|
    ensures FirstRank(live, o[i].createdAt) <= i <= LastRank(live, o[i].createdAt)
  {
    var v := o[i].createdAt;
    forall r | r in Newer(live, v) ensures r in Elements(o[..i]) {
      var j :| 0 <= j < |o| && o[j] == r;
      assert j < i;
      assert o[..i][j] == r;
    }
    SubsetSize(Newer(live, v), Elements(o[..i]));
    PrefixSize(live, o, i);
    forall r | r in Elements(o[..i + 1]) ensures r in NotOlder(live, v) {
      var j :| 0 <= j < i + 1 && o[..i + 1][j] == r;
      assert o[j] == r && r in o;
    }
    SubsetSize(Elements(o[..i + 1]), NotOlder(live, v));
    PrefixSize(live, o, i + 1);
  }

  /** Every position between the ranks of an instant holds a row of that instant. */
  lemma RanksHoldTies(live: set<Row>, o: seq<Row>, v: int, j: nat)
    requires IsOrder(live, o) && j < |o| && FirstRank(live, v) <= j <= LastRank(live, v)
    ensures o[j].createdAt == v
  {
    PositionBetweenRanks(live, o, j);
    var w := o[j].createdAt;
    if w > v {
      SubsetSize(NotOlder(live, w), Newer(live, v));
    } else if w < v {
      SubsetSize(NotOlder(live, v), Newer(live, w));
    }
  }

  function Swapped(o: seq<Row>, i: nat, j: nat): seq<Row>
    requires i < |o| && j < |o|
  {
    o[i := o[j]][j := o[i]]
  }

  lemma SwapKeepsOrder(live: set<Row>, o: seq<Row>, i: nat, j: nat)
    requires IsOrder(live, o) && i < |o| && j < |o| && o[i].createdAt == o[j].createdAt
    ensures IsOrder(live, Swapped(o, i, j)) && Swapped(o, i, j)[j] == o[i]
  {
    var s := Swapped(o, i, j);
    forall r ensures r in s <==> r in o {
      if r in o {
        var k :| 0 <= k < |o| && o[k] == r;
        assert s[if k == i then j else if k == j then i else k] == r;
      }
      if r in s {
        var k :| 0 <= k < |s| && s[k] == r;
        assert o[if k == i then j else if k == j then i else k] == r;
      }
    }
  }

  /** A position is cut into the page its quotient names. */
  lemma PageOfPosition(o: seq<Row>, i: nat, p: nat, size: nat)
    requires size >= 1 && i < |o|
    ensures p == PageOf(i, size) ==> OnPage(o, p, size, o[i])
  {
    if p == PageOf(i, size) {
      PageOfBounds(i, size);
      var page := GetMulti(o, p * size, size);
      assert page[i - p * size] == o[i];
    }
  }

  lemma PositionOnPage(o: seq<Row>, p: nat, size: nat, r: Row) returns (i: nat)
    requires size >= 1 && OnPage(o, p, size, r)
    ensures i < |o| && o[i] == r && PageOf(i, size) == p
  {
    var page := GetMulti(o, p * size, size);
    var k :| 0 <= k < |page| && page[k] == r;
    i := p * size + k;
    QuotientOf(p, k, size);
  }

  lemma ProductGap(p: nat, q: nat, size: nat)
    ensures q < p ==> q * size + size <= p * size
  {
    if q < p {
      MulMonotone(q + 1, p, size);
      assert (q + 1) * size == q * size + size;
    }
  }

  lemma ProductOrder(p: nat, k: nat, q: nat, l: nat, size: nat)
    requires k < size && l < size && p * size + k <= q * size + l
    ensures p <= q
  {
    ProductGap(p, q, size);
  }

  lemma {:induction false} PageOfBounds(i: nat, size: nat)
    requires size >= 1
    ensures PageOf(i, size) * size <= i < PageOf(i, size) * size + size
  {
    if i >= size {
      PageOfBounds(i - size, size);
      var p := PageOf(i - size, size);
      assert (p + 1) * size == p * size + size;
    }
  }

  lemma QuotientOf(p: nat, k: nat, size: nat)
    requires size >= 1 && k < size
    ensures PageOf(p * size + k, size) == p
  {
    var i := p * size + k;
    PageOfBounds(i, size);
    var j := PageOf(i, size);
    ProductOrder(p, k, j, i - j * size, size);
    ProductOrder(j, i - j * size, p, k, size);
  }

  lemma {:induction false} PageOfMonotone(a: nat, b: nat, size: nat)
    requires size >= 1 && a <= b
    ensures PageOf(a, size) <= PageOf(b, size)
  {
    if a >= size {
      PageOfMonotone(a - size, b - size, size);
    }
  }

  /** A position of a non-empty listing is on one of its pages. */
  lemma PageExists(total: nat, i: nat, size: nat)
    requires size >= 1 && i < total
    ensures PageOf(i, size) < CreateMeta(total, 1, size).pages
  {
    var n := CreateMeta(total, 1, size).pages;
    PagesCover(total, size);
    PageOfBounds(i, size);
    ProductBelow(PageOf(i, size), n, size);
  }

  lemma ProductBelow(p: nat, n: nat, size: nat)
    requires p * size < n * size
    ensures p < n
  {
    if n <= p {
      MulMonotone(n, p, size);
    }
  }

  lemma RanksOfMember(live: set<Row>, r: Row)
    requires r in live
    ensures FirstRank(live, r.createdAt) <= LastRank(live, r.createdAt) < |live|
  {
    var v := r.createdAt;
    SubsetSize(NotOlder(live, v), live);
    SubsetSize(Newer(live, v), NotOlder(live, v) - {r});
  }

  /** Where ties fit, the page of a row does not depend on the order. */
  lemma PageFixed(live: set<Row>, o: seq<Row>, size: nat, r: Row, p: nat)
    requires size >= 1 && TiesFit(live, size) && IsOrder(live, o) && r in live
    ensures OnPage(o, p, size, r) <==> p == PageOf(FirstRank(live, r.createdAt), size)
  {
    var v := r.createdAt;
    var i :| 0 <= i < |o| && o[i] == r;
    PositionBetweenRanks(live, o, i);
    PageOfMonotone(FirstRank(live, v), i, size);
    PageOfMonotone(i, LastRank(live, v), size);
    PageOfPosition(o, i, p, size);
    if OnPage(o, p, size, r) {
      var k := PositionOnPage(o, p, size, r);
      assert k == i;
    }
  }

  lemma MemberListedOnce(live: set<Row>, orders: seq<seq<Row>>, size: nat, r: Row) returns (p: nat)
    requires size >= 1 && TiesFit(live, size) && Listing(live, orders, size) && r in live
    ensures p < |orders| && OnPage(orders[p], p, size, r)
    ensures forall q: nat :: q < |orders| && OnPage(orders[q], q, size, r) ==> q == p
  {
    RanksOfMember(live, r);
    PageExists(|live|, FirstRank(live, r.createdAt), size);
    p := PageOf(FirstRank(live, r.createdAt), size);
    PageFixed(live, orders[p], size, r, p);
    forall q: nat | q < |orders| && OnPage(orders[q], q, size, r) ensures q == p {
      PageFixed(live, orders[q], size, r, q);
    }
  }

  lemma TiesFitListsOnce(live: set<Row>, orders: seq<seq<Row>>, size: nat)
    requires size >= 1 && TiesFit(live, size) && Listing(live, orders, size)
    ensures EachOnce(live, orders, size)
  {
    forall r | r in live
      ensures exists p: nat :: p < |orders| && OnPage(orders[p], p, size, r) &&
                forall q: nat :: q < |orders| && OnPage(orders[q], q, size, r) ==> q == p
    {
      var p := MemberListedOnce(live, orders, size, r);
    }
  }

  /** Any position between the ranks of a row is taken by that row in some order. */
  lemma MovedTo(live: set<Row>, o: seq<Row>, r: Row, j: nat) returns (o': seq<Row>)
    requires IsOrder(live, o) && r in live && j < |o|
    requires FirstRank(live, r.createdAt) <= j <= LastRank(live, r.createdAt)
    ensures IsOrder(live, o') && j < |o'| && o'[j] == r
  {
    var i :| 0 <= i < |o| && o[i] == r;
    RanksHoldTies(live, o, r.createdAt, j);
    SwapKeepsOrder(live, o, i, j);
    o' := Swapped(o, i, j);
  }

  /** Orders that show one row on two of the pages. */
  lemma TwicePages(live: set<Row>, early: seq<Row>, late: seq<Row>, size: nat, r: Row, p: nat, q: nat, n: nat)
    returns (orders: seq<seq<Row>>)
    requires size >= 1 && r in live && p != q && p < n && q < n && n == CreateMeta(|live|, 1, size).pages
    requires IsOrder(live, early) && IsOrder(live, late)
    requires OnPage(early, p, size, r) && OnPage(late, q, size, r)
    ensures Listing(live, orders, size) && !EachOnce(live, orders, size)
  {
    orders := seq(n, k => if k == p then early else late);
    assert OnPage(orders[p], p, size, r) && OnPage(orders[q], q, size, r);
  }

  /** An order that puts a row on the page of any position between its ranks. */
  lemma OrderForPage(live: set<Row>, o: seq<Row>, size: nat, r: Row, j: nat) returns (o': seq<Row>)
    requires size >= 1 && IsOrder(live, o) && r in live
    requires FirstRank(live, r.createdAt) <= j <= LastRank(live, r.createdAt)
    ensures IsOrder(live, o') && OnPage(o', PageOf(j, size), size, r)
    ensures PageOf(j, size) < CreateMeta(|live|, 1, size).pages
  {
    RanksOfMember(live, r);
    OrderSize(live, o);
    o' := MovedTo(live, o, r, j);
    PageOfPosition(o', j, PageOf(j, size), size);
    PageExists(|live|, j, size);
  }

  /** A tie cut by a page boundary can be listed twice. */
  lemma SplitTieListsTwice(live: set<Row>, o: seq<Row>, size: nat, r: Row) returns (orders: seq<seq<Row>>)
    requires size >= 1 && IsOrder(live, o) && r in live
    requires PageOf(FirstRank(live, r.createdAt), size) != PageOf(LastRank(live, r.createdAt), size)
    ensures Listing(live, orders, size) && !EachOnce(live, orders, size)
  {
    RanksOfMember(live, r);
    var first, last: nat := FirstRank(live, r.createdAt), LastRank(live, r.createdAt);
    var early := OrderForPage(live, o, size, r, first);
    var late := OrderForPage(live, o, size, r, last);
    var n := CreateMeta(|live|, 1, size).pages;
    orders := TwicePages(live, early, late, size, r, PageOf(first, size), PageOf(last, size), n);
  }

  /** Some order always exists. */
  lemma {:induction false} OrderExists(live: set<Row>) returns (o: seq<Row>)
    ensures IsOrder(live, o)
    decreases |live|
  {
    if live == {} {
      o := [];
    } else {
      var newest := NewestOf(live);
      var rest := OrderExists(live - {newest});
      o := [newest] + rest;
      assert forall k :: 0 < k < |o| ==> o[k] == rest[k - 1] && o[k] in rest;
    }
  }

  lemma {:induction false} NewestOf(live: set<Row>) returns (r: Row)
    requires live != {}
    ensures r in live && forall x :: x in live ==> x.createdAt <= r.createdAt
    decreases |live|
  {
    r :| r in live;
    if live - {r} != {} {
      var best := NewestOf(live - {r});
      if best.createdAt > r.createdAt {
        r := best;
      }
    }
  }

  ghost predicate ShowsOnly(live: set<Row>, orders: seq<seq<Row>>, size: nat) {
    forall p: nat, r :: p < |orders| && OnPage(orders[p], p, size, r) ==> r in live
  }

  lemma ListingShowsOnly(live: set<Row>, orders: seq<seq<Row>>, size: nat)
    requires size >= 1 && Listing(live, orders, size)
    ensures ShowsOnly(live, orders, size)
  {
    forall p: nat, r | p < |orders| && OnPage(orders[p], p, size, r) ensures r in live {
      var i := PositionOnPage(orders[p], p, size, r);
      assert orders[p][i] in orders[p];
    }
  }

  /** Every undeleted row of the table is on exactly one page, and nothing else is on any. */
  ghost predicate Partitions(table: set<Row>, orders: seq<seq<Row>>, size: nat) {
    EachOnce(LiveRows(table), orders, size) && ShowsOnly(LiveRows(table), orders, size)
  }

  /**
   * Whatever orders the database uses for the pages, they partition the undeleted rows of a table, exactly when
   * ties fit.
   */
  lemma ListingPartitionsExactly(table: set<Row>, size: nat)
    requires size >= 1
    ensures (forall orders :: Listing(LiveRows(table), orders, size) ==> Partitions(table, orders, size))
       <==> TiesFit(LiveRows(table), size)
  {
    var live := LiveRows(table);
    if TiesFit(live, size) {
      forall orders | Listing(live, orders, size) ensures Partitions(table, orders, size) {
        TiesFitListsOnce(live, orders, size);
        ListingShowsOnly(live, orders, size);
      }
    } else {
      var r :| r in live && PageOf(FirstRank(live, r.createdAt), size) != PageOf(LastRank(live, r.createdAt), size);
      var o := OrderExists(live);
      var orders := SplitTieListsTwice(live, o, size, r);
      assert !Partitions(table, orders, size);
    }
  }
}
