/** The view state of the `App` component in web/src/App.tsx: the loaded data, the
    search string shared by the three tables, one page index per table and the sort
    choice of the performance and rebound tables. The derived views (filtered, sorted,
    paged) and the portfolio summaries are functions of that state; the event handlers
    and the page-clamp effects are the methods that change it. */
module AppState {
  import opened Types
  import opened Text
  import opened Filter
  import opened Views
  import opened Sorting
  import opened Paging
  import Portfolio

  /** The three paginated tables. */
  datatype Table = SctrTable | PerfTable | ReboundTable

  /** The functional update `d === 'asc' ? 'desc' : 'asc'`. */
  function Toggle(d: SortDir): (r: SortDir)
    ensures r != d
  {
    if d == Asc then Desc else Asc
  }

  /** Toggling twice gives the direction back. */
  lemma ToggleTwice(d: SortDir)
    ensures Toggle(Toggle(d)) == d
  {
  }

  /** The reference row is shown only when it carries a one-day or five-day figure. */
  function ShownQqq(q: QqqRef): (r: Option<QqqRef>)
    ensures r.Some? <==> q.perf1d.Some? || q.perf5d.Some?
    ensures r.Some? ==> r.value == q
  {
    if q.perf1d.Some? || q.perf5d.Some? then Some(q) else None
  }

  class App {
    var data: seq<SctrRow>
    var reboundData: seq<ReboundRow>
    var qqq: Option<QqqRef>
    var search: string
    var sctrPage: nat
    var perfPage: nat
    var reboundPage: nat
    var sortKey: Option<SortKey>
    var sortDir: SortDir
    var reboundSortKey: Option<ReboundSortKey>
    var reboundSortDir: SortDir

    /** `filteredSctr` and `filteredPerf`: the same filter over the same data. */
    function FilteredSctr(): (r: seq<SctrRow>)
      reads this
      ensures Trim(search) == [] ==> r == data
      ensures forall k :: 0 <= k < |r| ==> r[k] in data && Selected(SctrLabel(r[k]), search)
    {
      FilterRows(data, SctrLabel, search)
    }

    function FilteredPerf(): (r: seq<SctrRow>)
      reads this
      ensures Trim(search) == [] ==> r == data
      ensures forall k :: 0 <= k < |r| ==> r[k] in data && Selected(SctrLabel(r[k]), search)
    {
      FilterRows(data, SctrLabel, search)
    }

    function FilteredRebound(): (r: seq<ReboundRow>)
      reads this
      ensures Trim(search) == [] ==> r == reboundData
      ensures forall k :: 0 <= k < |r| ==> r[k] in reboundData && Selected(ReboundLabel(r[k]), search)
    {
      FilterRows(reboundData, ReboundLabel, search)
    }

    /** `sortedData` */
    function SortedData(): (r: seq<SctrRow>)
      reads this
      ensures sortKey.None? ==> r == FilteredPerf()
      ensures multiset(r) == multiset(FilteredPerf())
      ensures sortKey.Some? ==> Sorted(r, PerfKeyOf(sortKey.value), sortDir)
      ensures sortKey.Some? ==> forall k :: Select(r, PerfKeyOf(sortKey.value), k) == Select(FilteredPerf(), PerfKeyOf(sortKey.value), k)
    {
      SortedPerf(FilteredPerf(), sortKey, sortDir)
    }

    /** `sortedReboundData` */
    function SortedReboundData(): (r: seq<ReboundRow>)
      reads this
      ensures reboundSortKey.None? ==> r == FilteredRebound()
      ensures multiset(r) == multiset(FilteredRebound())
      ensures reboundSortKey.Some? ==> Sorted(r, ReboundKeyOf(reboundSortKey.value), reboundSortDir)
      ensures reboundSortKey.Some? ==> forall k :: Select(r, ReboundKeyOf(reboundSortKey.value), k) == Select(FilteredRebound(), ReboundKeyOf(reboundSortKey.value), k)
    {
      SortedRebound(FilteredRebound(), reboundSortKey, reboundSortDir)
    }

    /** The row count a table pages through. */
    function Rows(t: Table): nat
      reads this
    {
      match t
      case SctrTable => |FilteredSctr()|
      case PerfTable => |SortedData()|
      case ReboundTable => |SortedReboundData()|
    }

    /** `totalSctrPages`, `totalPerfPages`, `totalReboundPages` */
    function TotalPagesOf(t: Table): (n: nat)
      reads this
      ensures n >= 1
      ensures Rows(t) <= n * PAGE_SIZE
      ensures n == 1 || (n - 1) * PAGE_SIZE < Rows(t)
    {
      TotalPages(Rows(t))
    }

    /** The page index a table shows. */
    function Page(t: Table): nat
      reads this
    {
      match t
      case SctrTable => sctrPage
      case PerfTable => perfPage
      case ReboundTable => reboundPage
    }

    /** `paginatedSctr`, `paginatedPerf`, `paginatedRebound` */
    function PaginatedSctr(): (r: seq<SctrRow>)
      reads this
      ensures |r| <= PAGE_SIZE
      ensures forall k :: 0 <= k < |r| ==> sctrPage * PAGE_SIZE + k < |FilteredSctr()| && r[k] == FilteredSctr()[sctrPage * PAGE_SIZE + k]
    {
      PageSlice(FilteredSctr(), sctrPage)
    }

    function PaginatedPerf(): (r: seq<SctrRow>)
      reads this
      ensures |r| <= PAGE_SIZE
      ensures forall k :: 0 <= k < |r| ==> perfPage * PAGE_SIZE + k < |SortedData()| && r[k] == SortedData()[perfPage * PAGE_SIZE + k]
    {
      PageSlice(SortedData(), perfPage)
    }

    function PaginatedRebound(): (r: seq<ReboundRow>)
      reads this
      ensures |r| <= PAGE_SIZE
      ensures forall k :: 0 <= k < |r| ==> reboundPage * PAGE_SIZE + k < |SortedReboundData()| && r[k] == SortedReboundData()[reboundPage * PAGE_SIZE + k]
    {
      PageSlice(SortedReboundData(), reboundPage)
    }

    /** `portfolio60d` and `portfolio20d`, over the unfiltered data. */
    function Portfolio60d(): Portfolio.Summary
      reads this
    {
      Portfolio.Portfolio60d(data)
    }

    function Portfolio20d(): Portfolio.Summary
      reads this
    {
      Portfolio.Portfolio20d(data)
    }

    /** The state the page-clamp effects settle in: every page index lies below its
        table's page count. */
    ghost predicate Valid()
      reads this
    {
      forall t: Table :: Page(t) < TotalPagesOf(t)
    }

    /** The initial `useState` values. */
    constructor ()
      ensures data == [] && reboundData == [] && qqq == None && search == ""
      ensures sctrPage == 0 && perfPage == 0 && reboundPage == 0
      ensures sortKey == None && sortDir == Desc
      ensures reboundSortKey == Some(Curve) && reboundSortDir == Asc
      ensures Valid()
    {
      data, reboundData, qqq, search := [], [], None, "";
      sctrPage, perfPage, reboundPage := 0, 0, 0;
      sortKey, sortDir := None, Desc;
      reboundSortKey, reboundSortDir := Some(Curve), Asc;
    }

    /** A successful `load`: the two lists are taken as they come, and the reference row
        only when it has a one-day or five-day figure. */
    method Load(res: DashboardResponse)
      modifies this
      ensures data == res.perf && reboundData == res.rebound
      ensures qqq == ShownQqq(res.qqq)
      ensures qqq.Some? <==> res.qqq.perf1d.Some? || res.qqq.perf5d.Some?
      ensures search == old(search)
      ensures sctrPage == old(sctrPage) && perfPage == old(perfPage) && reboundPage == old(reboundPage)
      ensures sortKey == old(sortKey) && sortDir == old(sortDir)
      ensures reboundSortKey == old(reboundSortKey) && reboundSortDir == old(reboundSortDir)
    {
      data := res.perf;
      reboundData := res.rebound;
      qqq := ShownQqq(res.qqq);
    }

    /** The search box's `onChange`: the new query, and every table back on its first
        page, which is always in range. The portfolio does not follow the search. */
    method SetSearch(value: string)
      modifies this
      ensures search == value
      ensures sctrPage == 0 && perfPage == 0 && reboundPage == 0
      ensures data == old(data) && reboundData == old(reboundData) && qqq == old(qqq)
      ensures sortKey == old(sortKey) && sortDir == old(sortDir)
      ensures reboundSortKey == old(reboundSortKey) && reboundSortDir == old(reboundSortDir)
      ensures Valid()
      ensures Portfolio60d() == old(Portfolio60d()) && Portfolio20d() == old(Portfolio20d())
    {
      search := value;
      sctrPage, perfPage, reboundPage := 0, 0, 0;
    }

    /** `handleSort`: the column already sorted on flips direction; another column becomes
        the sort column, descending. Sorting changes no table's length, so every page
        stays in range. */
    method HandleSort(key: SortKey)
      modifies this
      ensures sortKey == Some(key)
      ensures sortDir == if old(sortKey) == Some(key) then Toggle(old(sortDir)) else Desc
      ensures data == old(data) && reboundData == old(reboundData) && qqq == old(qqq) && search == old(search)
      ensures sctrPage == old(sctrPage) && perfPage == old(perfPage) && reboundPage == old(reboundPage)
      ensures reboundSortKey == old(reboundSortKey) && reboundSortDir == old(reboundSortDir)
      ensures forall t: Table :: TotalPagesOf(t) == old(TotalPagesOf(t))
      ensures old(Valid()) ==> Valid()
    {
      if sortKey == Some(key) {
        sortDir := Toggle(sortDir);
      } else {
        sortKey := Some(key);
        sortDir := Desc;
      }
    }

    /** `handleReboundSort`, the same rule for the rebound table: a newly chosen column,
        `curve_shape` included, starts descending. */
    method HandleReboundSort(key: ReboundSortKey)
      modifies this
      ensures reboundSortKey == Some(key)
      ensures reboundSortDir == if old(reboundSortKey) == Some(key) then Toggle(old(reboundSortDir)) else Desc
      ensures data == old(data) && reboundData == old(reboundData) && qqq == old(qqq) && search == old(search)
      ensures sctrPage == old(sctrPage) && perfPage == old(perfPage) && reboundPage == old(reboundPage)
      ensures sortKey == old(sortKey) && sortDir == old(sortDir)
      ensures forall t: Table :: TotalPagesOf(t) == old(TotalPagesOf(t))
      ensures old(Valid()) ==> Valid()
    {
      if reboundSortKey == Some(key) {
        reboundSortDir := Toggle(reboundSortDir);
      } else {
        reboundSortKey := Some(key);
        reboundSortDir := Desc;
      }
    }

    /** Sets one table's page index and nothing else. */
    method SetPage(t: Table, p: nat)
      modifies this
      ensures Page(t) == p
      ensures forall u: Table :: u != t ==> Page(u) == old(Page(u))
      ensures data == old(data) && reboundData == old(reboundData) && qqq == old(qqq) && search == old(search)
      ensures sortKey == old(sortKey) && sortDir == old(sortDir)
      ensures reboundSortKey == old(reboundSortKey) && reboundSortDir == old(reboundSortDir)
      ensures forall u: Table :: TotalPagesOf(u) == old(TotalPagesOf(u))
    {
      match t
      case SctrTable => sctrPage := p;
      case PerfTable => perfPage := p;
      case ReboundTable => reboundPage := p;
    }

    /** The effect that runs when a table's page count changes: `Math.min(p, total - 1)`.
        It leaves that table's page in range and an in-range page where it is. */
    method ClampPage(t: Table)
      modifies this
      ensures Page(t) == Clamp(old(Page(t)), old(TotalPagesOf(t)))
      ensures Page(t) < TotalPagesOf(t)
      ensures old(Page(t)) < old(TotalPagesOf(t)) ==> Page(t) == old(Page(t))
      ensures forall u: Table :: u != t ==> Page(u) == old(Page(u))
      ensures data == old(data) && reboundData == old(reboundData) && qqq == old(qqq) && search == old(search)
      ensures sortKey == old(sortKey) && sortDir == old(sortDir)
      ensures reboundSortKey == old(reboundSortKey) && reboundSortDir == old(reboundSortDir)
    {
      SetPage(t, Clamp(Page(t), TotalPagesOf(t)));
    }

    /** The three clamp effects after a load: every page index ends up in range. */
    method ClampPages()
      modifies this
      ensures forall t: Table :: Page(t) == Clamp(old(Page(t)), old(TotalPagesOf(t)))
      ensures data == old(data) && reboundData == old(reboundData) && qqq == old(qqq) && search == old(search)
      ensures sortKey == old(sortKey) && sortDir == old(sortDir)
      ensures reboundSortKey == old(reboundSortKey) && reboundSortDir == old(reboundSortDir)
      ensures Valid()
    {
      ClampPage(SctrTable);
      ClampPage(PerfTable);
      ClampPage(ReboundTable);
    }

    /** The Prev button: one page back, never below the first page. */
    method Prev(t: Table)
      modifies this
      ensures Page(t) == PrevPage(old(Page(t)))
      ensures Page(t) <= old(Page(t))
      ensures forall u: Table :: u != t ==> Page(u) == old(Page(u))
      ensures data == old(data) && reboundData == old(reboundData) && qqq == old(qqq) && search == old(search)
      ensures sortKey == old(sortKey) && sortDir == old(sortDir)
      ensures reboundSortKey == old(reboundSortKey) && reboundSortDir == old(reboundSortDir)
      ensures old(Valid()) ==> Valid()
    {
      SetPage(t, PrevPage(Page(t)));
    }

    /** The Next button: disabled (`page >= totalPages - 1`) on the last page and past
        it, where a click does nothing; otherwise one page on, never past the last page. */
    method Next(t: Table)
      modifies this
      ensures Page(t) == if old(Page(t)) < old(TotalPagesOf(t)) - 1 then NextPage(old(Page(t)), old(TotalPagesOf(t))) else old(Page(t))
      ensures old(Page(t)) < old(TotalPagesOf(t)) - 1 ==> Page(t) == old(Page(t)) + 1 && Page(t) < TotalPagesOf(t)
      ensures forall u: Table :: u != t ==> Page(u) == old(Page(u))
      ensures data == old(data) && reboundData == old(reboundData) && qqq == old(qqq) && search == old(search)
      ensures sortKey == old(sortKey) && sortDir == old(sortDir)
      ensures reboundSortKey == old(reboundSortKey) && reboundSortDir == old(reboundSortDir)
      ensures old(Valid()) ==> Valid()
    {
      if Page(t) < TotalPagesOf(t) - 1 {
        SetPage(t, NextPage(Page(t), TotalPagesOf(t)));
      }
    }

    /** What the performance table shows on a settled page: rows of the loaded data that
        the search selects, sorted on the chosen column when there is one. */
    lemma ShownPerfRows()
      requires Valid()
      ensures forall k :: 0 <= k < |PaginatedPerf()| ==>
        PaginatedPerf()[k] in data && Selected(SctrLabel(PaginatedPerf()[k]), search)
      ensures sortKey.Some? ==> Sorted(SortedData(), PerfKeyOf(sortKey.value), sortDir)
      ensures |PaginatedPerf()| > 0 || |SortedData()| == 0
    {
      var filtered := FilteredPerf();
      var idx := FilterIsSubsequence(data, SctrLabel, search);
      forall k | 0 <= k < |PaginatedPerf()|
        ensures PaginatedPerf()[k] in data && Selected(SctrLabel(PaginatedPerf()[k]), search)
      {
        var row := PaginatedPerf()[k];
        assert row == SortedData()[perfPage * PAGE_SIZE + k];
        assert row in multiset(SortedData());
        assert row in multiset(filtered);
        var i :| 0 <= i < |filtered| && filtered[i] == row;
        assert filtered[i] == data[idx[i]];
      }
      assert Page(PerfTable) < TotalPagesOf(PerfTable);
      if |SortedData()| > 0 {
        RangeLabelMatchesSlice(SortedData(), perfPage);
      }
    }
  }
}
