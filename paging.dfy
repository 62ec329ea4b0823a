/** Pagination of the three tables in web/src/App.tsx: pages of `PAGE_SIZE` rows, the
    page count, the visible slice, the clamp applied when the page count changes, the
    saturating Prev/Next buttons and the "start–end of total" label. */
module Paging {

  const PAGE_SIZE: nat := 50

  function Min(a: int, b: int): int { if a <= b then a else b }

  function Max(a: int, b: int): int { if a >= b then a else b }

  /** `Math.max(1, Math.ceil(n / PAGE_SIZE))`: the fewest pages of `PAGE_SIZE` rows that
      hold `n` rows, and never fewer than one. */
  function TotalPages(n: nat): (t: nat)
    ensures t >= 1
    ensures n <= t * PAGE_SIZE
    ensures t == 1 || (t - 1) * PAGE_SIZE < n
  {
    if n == 0 then 1 else (n + PAGE_SIZE - 1) / PAGE_SIZE
  }

  /** `rows.slice(page * PAGE_SIZE, (page + 1) * PAGE_SIZE)`; `slice` clamps both ends to
      the length, so a page past the end is empty. */
  function PageSlice<T>(rows: seq<T>, page: nat): (r: seq<T>)
    ensures |r| <= PAGE_SIZE
    ensures |r| == Max(0, Min((page + 1) * PAGE_SIZE, |rows|) - page * PAGE_SIZE)
    ensures forall k :: 0 <= k < |r| ==> page * PAGE_SIZE + k < |rows| && r[k] == rows[page * PAGE_SIZE + k]
  {
    var start := Min(page * PAGE_SIZE, |rows|);
    var end := Min((page + 1) * PAGE_SIZE, |rows|);
    if start <= end then rows[start..end] else []
  }

  /** Every row is shown on exactly one page: row `i` is row `i % PAGE_SIZE` of page
      `i / PAGE_SIZE`, and that page lies below the page count. */
  lemma PageOf<T>(rows: seq<T>, i: nat)
    requires i < |rows|
    ensures i / PAGE_SIZE < TotalPages(|rows|)
    ensures i % PAGE_SIZE < |PageSlice(rows, i / PAGE_SIZE)|
    ensures PageSlice(rows, i / PAGE_SIZE)[i % PAGE_SIZE] == rows[i]
  {
    var p, k := i / PAGE_SIZE, i % PAGE_SIZE;
    assert i == p * PAGE_SIZE + k;
    assert p * PAGE_SIZE <= i < |rows| <= TotalPages(|rows|) * PAGE_SIZE;
  }

  /** The pages in order, the first `n` of them, put back together. */
  function Pages<T>(rows: seq<T>, n: nat): seq<T>
  {
    if n == 0 then [] else Pages(rows, n - 1) + PageSlice(rows, n - 1)
  }

  /** The first `n` pages hold the first `n * PAGE_SIZE` rows (or all of them). */
  lemma {:induction false} PagesPrefix<T>(rows: seq<T>, n: nat)
    ensures Pages(rows, n) == rows[..Min(n * PAGE_SIZE, |rows|)]
  {
    if n > 0 {
      PagesPrefix(rows, n - 1);
      var a := Min((n - 1) * PAGE_SIZE, |rows|);
      var b := Min(n * PAGE_SIZE, |rows|);
      assert PageSlice(rows, n - 1) == rows[a..b];
      assert rows[..a] + rows[a..b] == rows[..b];
    }
  }

  /** Read one after the other, the pages show every row once, in order. */
  lemma PagesCoverRows<T>(rows: seq<T>)
    ensures Pages(rows, TotalPages(|rows|)) == rows
  {
    PagesPrefix(rows, TotalPages(|rows|));
  }

  /** The clamp effect, `Math.min(p, totalPages - 1)`. */
  function Clamp(page: nat, totalPages: nat): (p: nat)
    requires totalPages >= 1
    ensures p < totalPages
    ensures p <= page
    ensures p == page <==> page < totalPages
    ensures totalPages <= page ==> p == totalPages - 1
  {
    Min(page, totalPages - 1)
  }

  /** Prev: `Math.max(0, page - 1)`. */
  function PrevPage(page: nat): (p: nat)
    ensures p <= page
    ensures p == page <==> page <= 0
    ensures page > 0 ==> p == page - 1
  {
    Max(0, page - 1)
  }

  /** Next: `Math.min(totalPages - 1, page + 1)`. */
  function NextPage(page: nat, totalPages: nat): (p: nat)
    requires totalPages >= 1
    ensures p < totalPages
    ensures page < totalPages ==> page <= p
    ensures page < totalPages ==> (p == page <==> page >= totalPages - 1)
    ensures page < totalPages - 1 ==> p == page + 1
    ensures page >= totalPages ==> p == totalPages - 1
  {
    Min(totalPages - 1, page + 1)
  }

  /** Prev is disabled (`page <= 0`) exactly when it would leave the page where it is, and
      Next is disabled (`page >= totalPages - 1`) exactly when it would, for an in-range
      page; each keeps the page in range. */
  lemma ButtonsDisabledAtBounds(page: nat, totalPages: nat)
    requires page < totalPages
    ensures PrevPage(page) < totalPages && NextPage(page, totalPages) < totalPages
    ensures (page <= 0) <==> PrevPage(page) == page
    ensures (page >= totalPages - 1) <==> NextPage(page, totalPages) == page
  {
  }

  /** The pagination label's `start` (1-based, 0 for an empty table) and `end`. */
  datatype Range = Range(start: int, end: int)

  function RangeLabel(total: nat, page: nat): (r: Range)
    ensures total == 0 ==> r == Range(0, 0)
    ensures r.end <= total
    ensures total > 0 ==> r.start == page * PAGE_SIZE + 1
  {
    Range(if total == 0 then 0 else page * PAGE_SIZE + 1, Min((page + 1) * PAGE_SIZE, total))
  }

  /** On an in-range page of a non-empty table the label names exactly the rows shown:
      rows `start` to `end`, counted from 1. */
  lemma {:induction false} RangeLabelMatchesSlice<T>(rows: seq<T>, page: nat)
    requires |rows| > 0 && page < TotalPages(|rows|)
    ensures 1 <= RangeLabel(|rows|, page).start <= RangeLabel(|rows|, page).end <= |rows|
    ensures PageSlice(rows, page) == rows[RangeLabel(|rows|, page).start - 1..RangeLabel(|rows|, page).end]
  {
    var t := TotalPages(|rows|);
    assert page <= t - 1;
    assert page * PAGE_SIZE <= (t - 1) * PAGE_SIZE;
  }
}
