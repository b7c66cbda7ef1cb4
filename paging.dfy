/** `common.Paging` and the window a paged query returns. */
module Paging {

  /** The page size used when the request gives none (or a non-positive one). */
  const DefaultLimit := 10

  /** The query parameters of a listing and, after the query, the number of
      rows that match its filter. */
  class Paging {
    var page: int
    var limit: int
    var total: int

    constructor (page: int, limit: int)
      ensures this.page == page && this.limit == limit && total == 0
    {
      this.page := page;
      this.limit := limit;
      total := 0;
    }

    /** Both parameters are usable for a query. */
    predicate Processed()
      reads this
    {
      page >= 1 && limit >= 1
    }

    /** A page below 1 becomes 1 and a limit below 1 becomes 10; usable
        values and the total are kept. */
    method ProcessPaging()
      modifies this
      ensures Processed()
      ensures old(page) < 1 ==> page == 1
      ensures old(page) >= 1 ==> page == old(page)
      ensures old(limit) < 1 ==> limit == DefaultLimit
      ensures old(limit) >= 1 ==> limit == old(limit)
      ensures total == old(total)
      ensures old(Processed()) ==> page == old(page) && limit == old(limit)
    {
      if page < 1 {
        page := 1;
      }
      if limit < 1 {
        limit := DefaultLimit;
      }
    }
  }

  /** The page and limit `ProcessPaging` leaves behind, as values. */
  function ProcessedPage(page: int): (r: int)
    ensures r >= 1
    ensures page >= 1 ==> r == page
  {
    if page < 1 then 1 else page
  }

  function ProcessedLimit(limit: int): (r: int)
    ensures r >= 1
    ensures limit >= 1 ==> r == limit
    ensures limit < 1 ==> r == DefaultLimit
  {
    if limit < 1 then DefaultLimit else limit
  }

  /** Normalising twice is normalising once. */
  lemma ProcessPagingIdempotent(page: int, limit: int)
    ensures ProcessedPage(ProcessedPage(page)) == ProcessedPage(page)
    ensures ProcessedLimit(ProcessedLimit(limit)) == ProcessedLimit(limit)
  {
  }

  /** The rows a query with `Offset(offset).Limit(limit)` returns: a
      non-positive offset is left out of the query, and so is a negative
      limit. */
  function OffsetLimit<T>(rows: seq<T>, offset: int, limit: int): (r: seq<T>)
    ensures limit >= 0 ==> |r| <= limit
    ensures (if offset > 0 then offset else 0) + |r| <= |rows| || r == []
    ensures forall i :: 0 <= i < |r| ==> (if offset > 0 then offset else 0) + i < |rows| && r[i] == rows[(if offset > 0 then offset else 0) + i]
    ensures offset >= 0 && limit >= 0 ==> |r| == Clip(|rows| - offset, limit)
  {
    var start := if offset > 0 then offset else 0;
    var skipped := if start <= |rows| then rows[start..] else [];
    if limit >= 0 && limit < |skipped| then skipped[..limit] else skipped
  }

  /** `max(0, min(n, limit))`. */
  function Clip(n: int, limit: nat): nat {
    if n <= 0 then 0 else if n < limit then n else limit
  }

  /** The bounds of Go's 64-bit `int`. */
  const MinInt64 := -0x8000_0000_0000_0000
  const MaxInt64 := 0x7FFF_FFFF_FFFF_FFFF

  /** Go's `int` arithmetic: the value wrapped into the 64-bit range. */
  function WrapInt64(x: int): (r: int)
    ensures MinInt64 <= r <= MaxInt64
    ensures (x - r) % 0x1_0000_0000_0000_0000 == 0
    ensures MinInt64 <= x <= MaxInt64 ==> r == x
  {
    (x - MinInt64) % 0x1_0000_0000_0000_0000 + MinInt64
  }

  /** The offset the repositories compute, `(page - 1) * limit` in Go's
      `int`. */
  function PageOffset64(page: int, limit: int): int {
    WrapInt64((page - 1) * limit)
  }

  /** The page `page` of `rows` in pages of `limit` rows, as the
      repositories query it: `Offset((page - 1) * limit).Limit(limit)`. */
  function Window<T>(rows: seq<T>, page: int, limit: int): seq<T> {
    OffsetLimit(rows, PageOffset64(page, limit), limit)
  }

  /** With usable parameters, every row is on exactly the page its index
      says, at the position its index says: the pages tile the rows. */
  lemma WindowsTile<T>(rows: seq<T>, limit: int, i: int)
    requires limit >= 1 && 0 <= i < |rows| && i <= MaxInt64
    ensures |Window(rows, i / limit + 1, limit)| > i % limit
    ensures Window(rows, i / limit + 1, limit)[i % limit] == rows[i]
  {
    var page, m := i / limit + 1, i % limit;
    var offset := PageOffset(i, limit);
    assert PageOffset64(page, limit) == offset;
    assert Window(rows, page, limit) == OffsetLimit(rows, offset, limit);
    OffsetLimitAt(rows, offset, limit, m);
  }

  /** The offset of the page that holds row `i`, and where row `i` sits in
      it. */
  lemma PageOffset(i: int, limit: int) returns (offset: int)
    requires limit >= 1 && 0 <= i
    ensures offset == (i / limit + 1 - 1) * limit
    ensures 0 <= offset <= i && offset + i % limit == i && 0 <= i % limit < limit
  {
    var q := i / limit;
    assert q * limit + i % limit == i;
    assert q >= 0;
    offset := q * limit;
    assert (q + 1 - 1) * limit == offset;
  }

  /** Position `m` of a window at a non-negative offset. */
  lemma OffsetLimitAt<T>(rows: seq<T>, offset: int, limit: int, m: int)
    requires 0 <= offset && 0 <= m < limit && offset + m < |rows|
    ensures |OffsetLimit(rows, offset, limit)| > m
    ensures OffsetLimit(rows, offset, limit)[m] == rows[offset + m]
  {
  }

  /** A page past the last row is empty, as long as its offset fits in
      Go's `int`. */
  lemma WindowPastEnd<T>(rows: seq<T>, page: int, limit: int)
    requires page >= 1 && limit >= 1 && (page - 1) * limit >= |rows|
    ensures (page - 1) * limit <= MaxInt64 ==> Window(rows, page, limit) == []
  {
  }

  /** A page whose offset wraps to zero or below is queried with no OFFSET
      at all, so it holds the rows of the first page. */
  lemma WrappedOffsetIsFirstPage<T>(rows: seq<T>, page: int, limit: int)
    requires limit >= 1 && PageOffset64(page, limit) <= 0
    ensures Window(rows, page, limit) == Window(rows, 1, limit)
  {
    assert PageOffset64(1, limit) == 0;
  }

  /** Such pages exist past page 1: in pages of 2^62 rows, page 3's offset
      2^63 wraps to -2^63. */
  lemma OffsetWraps()
    ensures PageOffset64(3, 0x4000_0000_0000_0000) == MinInt64
  {
  }
}
