/** Page numbers, page sizes and page counts of search results. */
module SearchPages {
  const DEFAULT_PAGE := 1
  const DEFAULT_PAGE_SIZE := 20
  const MAX_PAGE_SIZE := 100

  function NormalizePagination(page: int, pageSize: int): (r: (int, int))
    ensures r.0 >= 1 && 1 <= r.1 <= MAX_PAGE_SIZE
    ensures if page >= 1 then r.0 == page else r.0 == 1
    ensures if pageSize <= 0 then r.1 == 20 else if pageSize > 100 then r.1 == 100 else r.1 == pageSize
  {
    var p := if page <= 0 then DEFAULT_PAGE else page;
    var size := if pageSize <= 0 then DEFAULT_PAGE_SIZE else pageSize;
    (p, if size > MAX_PAGE_SIZE then MAX_PAGE_SIZE else size)
  }

  /** The smallest number of pages that holds all rows. */
  function TotalPages(total: nat, size: int): (n: nat)
    requires size >= 1
    ensures n * size >= total
    ensures n > 0 ==> (n - 1) * size < total
  {
    if total > 0 then (total + size - 1) / size else 0
  }

  /** OFFSET offset LIMIT size. */
  function Slice<T>(rows: seq<T>, offset: nat, size: nat): (r: seq<T>)
    ensures |r| <= size
  {
    if offset >= |rows| then []
    else if offset + size >= |rows| then rows[offset..]
    else rows[offset..offset + size]
  }

  function Offset(page: int, size: int): nat
    requires page >= 1 && size >= 1
  {
    OffsetIsNatural(page, size);
    (page - 1) * size
  }

  function PageOf<T>(rows: seq<T>, page: int, size: int): (r: seq<T>)
    requires page >= 1 && size >= 1
    ensures |r| <= size
  {
    Slice(rows, Offset(page, size), size)
  }

  lemma OffsetIsNatural(page: int, size: int)
    requires page >= 1 && size >= 1
    ensures (page - 1) * size >= 0
  {
  }

  /** The first `n` pages, one after the other. */
  function FirstPages<T>(rows: seq<T>, n: nat, size: int): seq<T>
    requires size >= 1
  {
    if n == 0 then [] else FirstPages(rows, n - 1, size) + PageOf(rows, n, size)
  }

  function Prefix<T>(rows: seq<T>, n: nat): seq<T> {
    if n >= |rows| then rows else rows[..n]
  }

  lemma SliceExtends<T>(rows: seq<T>, offset: nat, size: nat)
    ensures Prefix(rows, offset) + Slice(rows, offset, size) == Prefix(rows, offset + size)
  {
  }

  lemma {:induction false} FirstPagesArePrefix<T>(rows: seq<T>, n: nat, size: int)
    requires size >= 1
    ensures FirstPages(rows, n, size) == Prefix(rows, Offset(n + 1, size))
    decreases n
  {
    if n == 0 {
      assert Offset(1, size) == 0;
    } else {
      FirstPagesArePrefix(rows, n - 1, size);
      assert Offset(n + 1, size) == Offset(n, size) + size;
      SliceExtends(rows, Offset(n, size), size);
    }
  }

  /** The pages 1 to `TotalPages` are the whole result, and none of them is empty. */
  lemma PagesPartition<T>(rows: seq<T>, size: int)
    requires size >= 1
    ensures FirstPages(rows, TotalPages(|rows|, size), size) == rows
    ensures forall k: nat :: 1 <= k <= TotalPages(|rows|, size) ==> PageOf(rows, k, size) != []
    ensures forall k: nat :: k > TotalPages(|rows|, size) ==> PageOf(rows, k, size) == []
  {
    var n := TotalPages(|rows|, size);
    FirstPagesArePrefix(rows, n, size);
    forall k: nat | 1 <= k <= n ensures PageOf(rows, k, size) != [] {
      MultiplyMonotone(k - 1, n - 1, size);
    }
    forall k: nat | k > n ensures PageOf(rows, k, size) == [] {
      MultiplyMonotone(n, k - 1, size);
    }
  }

  lemma OnePageSuffices(total: nat, size: int)
    requires 0 < total <= size
    ensures TotalPages(total, size) == 1
  {
    var n := TotalPages(total, size);
    if n > 1 { MultiplyMonotone(1, n - 1, size); }
  }

  lemma MultiplyMonotone(a: int, b: int, size: int)
    requires a <= b && size >= 1
    ensures a * size <= b * size
  {
  }
}
