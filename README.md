# SCTR Picks: the view pipeline and the backend derivations, in Dafny

This project models the computational core of the SCTR Picks dashboard:

- **Client view pipeline** (web/src/App.tsx). This part is pure:
  - `filterRows`: trimmed, lower-cased substring search on symbol or name;
  - the performance and rebound comparators: null as −∞, `curve_shape` by its place in `CURVE_ORDER`, and JavaScript's stable `Array.prototype.sort`;
  - page counts, page slices and the "start–end of total" label;
  - the equal-allocation portfolio summaries.
- **Client view state** (web/src/App.tsx). This part is imperative. The `App` component's state (loaded data, shared search string, three page indices, two sort choices) is the class `AppState.App`. Its methods are:
  - `load`;
  - the search `onChange`;
  - `handleSort` and `handleReboundSort`;
  - the page-clamp effects;
  - the Prev/Next buttons.
- **Backend derivations** (api/main.py):
  - `_pct_change`;
  - `_rsi`, as a loop method proved equal to a specification function;
  - the curve-shape and rebound block of `get_symbol_data`;
  - the assembly loops of `api_sctr_top300` and `api_dashboard`.
- **Row types** (web/src/types.ts): the datatypes of module `Types`.

Modules, one file each:

| file | module | what it holds |
|---|---|---|
| `types.dfy` | `Types` | the row types |
| `text.dfy` | `Text` | `trim`, `toLowerCase`, `includes` |
| `filter.dfy` | `Filter` | the filter stage |
| `sorting.dfy` | `Sorting` | the comparator and stable sort engine |
| `views.dfy` | `Views` | the two tables' sorts |
| `paging.dfy` | `Paging` | pages, clamp, buttons, label |
| `portfolio.dfy` | `Portfolio` | the portfolio summaries |
| `app.dfy` | `AppState` | the view-state class |
| `indicators.dfy` | `Indicators` | per-symbol derivations |
| `dashboard.dfy` | `Dashboard` | the two endpoints |

`api_dashboard` fetches symbols on a thread pool and collects results with `as_completed`. The model takes two inputs instead:

- the outcome of every job, either the fetched data or the all-null row that replaces a failed fetch;
- the order in which the jobs finished, which is any permutation of the job indices.

`Dashboard.ApiDashboard` is proved to return the same perf and rebound lists for every completion order. Those lists are:

- in scrape order;
- free of QQQ;
- carrying the same (rank, symbol, name) sequence;
- one row per scraped symbol other than QQQ.

A QQQ job is always submitted: the scraped QQQ row, or the one added with rank −1. The reference row is therefore always set inside the loop. As a result:

- the fallback search of `perf_list` (api/main.py:264-268) never finds anything to do;
- `qqq_data or {}` never yields `{}`.

The model keeps the fallback loop as written, as `Dashboard.FindQqq`. Since no perf row is QQQ, it would find nothing even if it ran.

Three behaviours of the code are easy to misread; the model follows the code:

- **Sort direction on a new column.** Choosing a new sort column always starts descending, `curve_shape` included. Only the initial state of the rebound table is ascending.
- **One shared search string.** All three tables use the same search string.
- **Search resets the pages.** Editing the search sets all three page indices to 0. The clamp effects, by contrast, only pull an out-of-range index down.

## Model

| member | source | states |
|---|---|---|
| Text.Trim | web/src/App.tsx:41-42 | `trim` gives the empty string exactly when every character is white space; otherwise it is an infix of the input that starts and ends with a non-space and has only white space outside it |
| Text.Lower | web/src/App.tsx:42-46 | lower-casing keeps the length and maps each character on its own |
| Text.Contains | web/src/App.tsx:45-46 | `includes` holds exactly when the query occurs in the string at some index |
| Filter.NeedleNonEmpty | web/src/App.tsx:41-42 | the lower-cased trimmed query has the trimmed query's length, so it is never empty past the blank-query early return |
| Filter.FilterRows | web/src/App.tsx:40-48 | a blank (after trimming) query returns the rows unchanged; otherwise no more rows come back, and every row returned has the lower-cased trimmed query in its lower-cased symbol or in its name (missing name as '') |
| Filter.Keep | web/src/App.tsx:43-47 | `rows.filter(p)` returns no more rows than it was given, only rows of the input, and all of them when every row satisfies `p` |
| Filter.KeepSound | web/src/App.tsx:43-47 | every row `filter` keeps satisfies the callback |
| Filter.KeepIsSubsequence | web/src/App.tsx:43-47 | `filter` returns an order-preserving subsequence: an increasing index map picks out the kept rows, and an input row is picked exactly when it satisfies the callback |
| Filter.FilterIsSubsequence | web/src/App.tsx:40-48 | `filterRows` keeps exactly the selected rows, in input order, in both the blank and the non-blank case |
| Sorting.SignOfDifference | web/src/App.tsx:95-97 | `va - vb` with nulls as −∞ is negative exactly when `va` lies below `vb`, and reads as 0 (a NaN from −∞ − −∞ included) exactly when the keys are equal |
| Sorting.Compare | web/src/App.tsx:94-98 | the comparator's sign is negative exactly when `a` goes first for the direction (smaller first ascending, larger first descending) and 0 exactly on equal keys |
| Sorting.CompareTransitive | web/src/App.tsx:94-98 | the comparator is transitive, strictly so when either step is strict: it is a consistent comparator in the sense of ECMA-262 |
| Sorting.Insert | web/src/App.tsx:94 | inserting grows the sequence by one and adds exactly that element to its multiset |
| Sorting.SortBy | web/src/App.tsx:94 | the sorted copy has the same length and the same multiset of rows as the input |
| Sorting.InsertMember | web/src/App.tsx:94 | every element after an insertion is the inserted one or an element of the old sequence |
| Sorting.InsertSorted | web/src/App.tsx:94-98 | inserting into a sorted sequence keeps it sorted |
| Sorting.SortBySorted | web/src/App.tsx:94-98 | the sorted copy never puts a row after one the comparator places strictly before it |
| Sorting.InsertSelect | web/src/App.tsx:94-98 | an inserted element lands in front of the elements it ties with |
| Sorting.SortByStableAt | web/src/App.tsx:94-98 | for one key value, the rows carrying it keep their input order |
| Sorting.SortByStable | web/src/App.tsx:94-98 | stability: for every key value, the rows carrying it appear in the sorted copy in input order |
| Sorting.SameHead | api/main.py:262-263 | a tie-free sorted sequence and any sorted permutation of it start with the same element |
| Sorting.SortedUnique | api/main.py:262-263 | a tie-free sorted sequence is the only sorted arrangement of its elements |
| Views.IndexOf | web/src/App.tsx:105-106 | `indexOf` returns the first position of the shape, or −1 exactly when the shape is absent |
| Views.CurveOrderListsEveryShape | web/src/App.tsx:5 | each of the four shapes appears in `CURVE_ORDER`, at positions 0 to 3 in display order |
| Views.CurveRank | web/src/App.tsx:105-106 | a missing shape ranks −1; a present shape ranks at its own position in `CURVE_ORDER` |
| Views.PerfKeyOf | web/src/App.tsx:95-96 | the comparator key of a performance column is −∞ exactly when the field is null, and the field's value otherwise |
| Views.ReboundField | web/src/App.tsx:111-114 | `row[key]` for a rebound column: rank is never null and reads as its number; the RSI column reads `rsi_14` |
| Views.ReboundKeyOf | web/src/App.tsx:103-116 | `curve_shape` sorts by its rank in `CURVE_ORDER` (−1 when missing); every other rebound column sorts by its value with null as −∞ |
| Views.CurveRankOrder | web/src/App.tsx:5 | the curve sort ranks run: null (−1), then V-shape, way-up, arch and way-down |
| Views.SortedPerf | web/src/App.tsx:92-99 | with no sort key the view is the filtered rows themselves; otherwise it is a permutation of them, sorted by the comparator, with ties in input order |
| Views.SortedRebound | web/src/App.tsx:101-117 | the same promises for the rebound table, for both the curve branch and the numeric branch |
| Views.PerfSortOrder | web/src/App.tsx:92-99 | sorted ascending, nulls come first and then the values increase; sorted descending, the values decrease and nulls come last |
| Views.CurveSortOrder | web/src/App.tsx:103-108 | the curve sort orders rows by class (null, V, way-up, arch, way-down) ascending, and in exactly the reverse class order descending |
| Views.ReboundNumericSortOrder | web/src/App.tsx:110-116 | any other rebound column, rank included, sorts like a performance column, with nulls at the low end |
| Paging.TotalPages | web/src/App.tsx:119-121 | the page count is at least 1 and is the fewest pages of 50 that hold all rows |
| Paging.PageSlice | web/src/App.tsx:122-133 | a page holds at most 50 rows, exactly `max(0, min((p+1)·50, n) − p·50)` of them, and its k-th row is row `p·50 + k` |
| Paging.PageOf | web/src/App.tsx:119-133 | every row `i` is shown on page `i / 50`, at place `i % 50`, and that page is below the page count |
| Paging.PagesPrefix | web/src/App.tsx:122-133 | the first `n` pages put together are the first `min(50n, len)` rows |
| Paging.PagesCoverRows | web/src/App.tsx:119-133 | all the pages, read in order, are exactly the rows |
| Paging.Clamp | web/src/App.tsx:135-143 | the clamped index lies below the page count, is never larger than before, is unchanged exactly when it was already in range, and is `totalPages − 1` when it was past the end |
| Paging.PrevPage | web/src/App.tsx:214 | Prev decrements, floors at 0, and changes nothing exactly at page 0 |
| Paging.NextPage | web/src/App.tsx:217 | Next lands below the page count; on an in-range page it increments, except on the last page, where it changes nothing; a page past the end goes to the last page |
| Paging.ButtonsDisabledAtBounds | web/src/App.tsx:214-217 | on an in-range page each button is disabled exactly when pressing it would change nothing, and both keep the page in range |
| Paging.RangeLabel | web/src/App.tsx:207-208 | start and end are both 0 for an empty table (the label then shows just `0 of 0`); otherwise the start is `p·50 + 1`; the end never passes the total |
| Paging.RangeLabelMatchesSlice | web/src/App.tsx:207-208 | on an in-range page of a non-empty table, the label's start and end name exactly the rows the page shows |
| Portfolio.TotalValueIsSum | web/src/App.tsx:166-169 | folding the end values adds 100 per row plus that row's percentage |
| Portfolio.Summarize | web/src/App.tsx:163-185 | the profit is the sum of the column's percentages (null as 0), and the percentage is their mean, or 0 with no data |
| Portfolio.Portfolio60d | web/src/App.tsx:163-173 | the 60-day profit is the sum of the 60-day percentages (null as 0), and the percentage is their mean, or 0 with no data |
| Portfolio.Portfolio20d | web/src/App.tsx:175-185 | the same for the 20-day column |
| Portfolio.SumPctAppend | web/src/App.tsx:166-169 | the sum over two runs of rows is the sum of their sums |
| Portfolio.SumPctRemove | web/src/App.tsx:166-169 | taking one row out takes its percentage out of the sum |
| Portfolio.SumPctPermutation | web/src/App.tsx:166-169 | reordering the rows leaves the sum unchanged |
| Portfolio.SummaryIgnoresOrder | web/src/App.tsx:163-185 | the summary depends only on the multiset of rows, not on their order |
| AppState.Toggle | web/src/App.tsx:147 | toggling always changes the direction |
| AppState.ToggleTwice | web/src/App.tsx:147 | toggling twice restores the direction |
| AppState.ShownQqq | web/src/App.tsx:73-77 | the reference row is kept exactly when its 1D or 5D figure is non-null, and then unchanged |
| AppState.App.FilteredSctr | web/src/App.tsx:88 | a blank search gives the loaded rows themselves; every row kept is a loaded row the search selects |
| AppState.App.FilteredPerf | web/src/App.tsx:89 | the same filter over the same data as the SCTR table |
| AppState.App.FilteredRebound | web/src/App.tsx:90 | the same filter over the rebound data |
| AppState.App.SortedData | web/src/App.tsx:92-99 | with no sort key the filtered rows themselves; otherwise a permutation of them sorted on the chosen column and direction, with rows of equal key in their filtered order (stable) |
| AppState.App.SortedReboundData | web/src/App.tsx:101-117 | the same promises for the rebound table: identity with no key, otherwise a stable, sorted permutation of the filtered rebound rows |
| AppState.App.TotalPagesOf | web/src/App.tsx:119-121 | each table's page count is at least 1 and is the fewest pages of 50 that hold its rows |
| AppState.App.PaginatedSctr | web/src/App.tsx:122-125 | at most 50 rows, the k-th being filtered row `page·50 + k` |
| AppState.App.PaginatedPerf | web/src/App.tsx:126-129 | at most 50 rows, the k-th being sorted row `page·50 + k` |
| AppState.App.PaginatedRebound | web/src/App.tsx:130-133 | at most 50 rows, the k-th being sorted rebound row `page·50 + k` |
| AppState.App.constructor | web/src/App.tsx:51-63 | the initial state: no data, empty search, every page 0, no performance sort (desc), rebound sort by `curve_shape` ascending; pages in range |
| AppState.App.Load | web/src/App.tsx:65-86 | a successful load replaces both lists and the reference row (kept only with a 1D or 5D figure), and changes nothing else |
| AppState.App.SetSearch | web/src/App.tsx:241-246 | a search edit sets the query, resets all three pages to 0 (which leaves them in range), and leaves data, sorts and portfolio unchanged |
| AppState.App.HandleSort | web/src/App.tsx:145-152 | the same column flips direction; another column becomes the key with direction desc; nothing else changes, no page count changes, and in-range pages stay in range |
| AppState.App.HandleReboundSort | web/src/App.tsx:154-161 | the same rule for the rebound table; a newly chosen column, `curve_shape` included, starts desc |
| AppState.App.SetPage | web/src/App.tsx:135-143 | a page setter (`setSctrPage`, `setPerfPage`, `setReboundPage`) changes that table's page and nothing else, so no page count changes |
| AppState.App.ClampPage | web/src/App.tsx:135-143 | the effect sets the page to `min(p, totalPages − 1)`, leaves it in range, keeps an in-range page where it is, and touches no other page |
| AppState.App.ClampPages | web/src/App.tsx:135-143 | after the three effects every page lies within its table |
| AppState.App.Prev | web/src/App.tsx:214 | the page becomes `max(0, p − 1)` and other pages are unchanged; an in-range state stays in range |
| AppState.App.Next | web/src/App.tsx:217 | while the button is enabled (`page < totalPages − 1`) the page becomes `min(totalPages − 1, p + 1)`, one page on and within the table; on the last page or past it the button is disabled and nothing changes; other pages are unchanged |
| AppState.App.ShownPerfRows | web/src/App.tsx:88-133 | on a settled state, every row the performance table shows is a loaded row that the search selects; the sorted view is ordered by the chosen column; and a non-empty table never shows an empty page |
| Indicators.PctChange | api/main.py:45-48 | no value exactly when `past` is None or 0; otherwise the change turns `past` into `current` (before rounding) |
| Indicators.Split | api/main.py:102-104 | each step's gain and loss are non-negative, at most one is non-zero, and gain − loss is the price change |
| Indicators.SumNonNegative | api/main.py:105-106 | a sum of non-negative gains (or losses) is non-negative |
| Indicators.RsiOf | api/main.py:96-110 | no RSI exactly when fewer than `period + 1` closes are given |
| Indicators.Rsi | api/main.py:96-110 | the loop over `range(-period, 0)` computes the value of `RsiOf` |
| Indicators.RsiRange | api/main.py:105-110 | the RSI is exactly 100 when the average loss is 0; otherwise it is the gains' share `100·G/(G+L)` and lies in [0, 100) |
| Indicators.ShareForm | api/main.py:105-110 | `100 − 100/(1 + rs)` with `rs` the ratio of the averages equals `100·G/(G+L)`, in [0, 100) |
| Indicators.RsiReadsLastWindow | api/main.py:98-104 | two close lists that share their last `period + 1` closes have the same RSI |
| Indicators.FirstMin | api/main.py:151 | `min(range(5), key=...)` gives the first index of the smallest close |
| Indicators.FirstMax | api/main.py:152 | `max(range(5), key=...)` gives the first index of the largest close |
| Indicators.ShapeOfExtremes | api/main.py:153-162 | the rule on the first-min and first-max indices: v_shape exactly when the min is interior; a_shape exactly when only the max is interior; way_down exactly when the max is at 0 and the min at 4; way_up in every other case (the endpoint fallback is reached only by a flat series) |
| Indicators.Classify | api/main.py:149-162 | the if/elif chain over the last five closes gives the same shape as the rule on the first-min and first-max indices alone |
| Indicators.FlatIsWayUp | api/main.py:161-162 | a constant series has both extremes at 0 and is way_up |
| Indicators.MonotoneShapes | api/main.py:149-162 | a strictly rising series is way_up and a strictly falling one is way_down |
| Indicators.GrowthRoundTrip | api/main.py:164-168 | a growth over the base, scaled and unscaled, turns the base back into the price, and is non-negative above the base |
| Indicators.GainsOverLow | api/main.py:163-168 | over a positive low, both per-mille gains are non-negative and turn the low back into `p1` and `p5`; `ri` is their product and non-negative |
| Indicators.FiveDayRatio | api/main.py:171 | the five-day ratio is None exactly when `p1` is 0; otherwise it turns `p1` into `p5` |
| Indicators.Last5 | api/main.py:149 | `closes[-5:]` holds five closes, the k-th being close `len − 5 + k` |
| Indicators.ReboundFrom | api/main.py:147-172 | over a five-close window: `rsi_14` is carried, the shape is `Classify` of the window, `ri`, `p1_pl` and `p5_pl` are present exactly when the first minimum is positive and then invert to the first and last close, and `d5_d1` is `FiveDayRatio` of the first and last close |
| Indicators.ReboundOf | api/main.py:144-172 | with fewer than 15 closes only `rsi_14` is carried; otherwise the shape is `Classify` of the last five closes; `ri`, `p1_pl` and `p5_pl` are present exactly when the low is positive, and are then non-negative, invert to `p1` and `p5`, and satisfy `ri = p1_pl · p5_pl`; `d5_d1` is absent exactly when `p1` is 0, and otherwise is the five-day ratio `(p5 − p1) / p1` of `FiveDayRatio` |
| Indicators.EmptyData | api/main.py:120-132 | the short-history row (also the all-null row of a failed fetch, api/main.py:237): only `perf1d` may be present; every other perf figure and every rebound figure is null |
| Indicators.SymbolDataOf | api/main.py:113-173 | fewer than 61 closes give only `perf1d`; otherwise every horizon's change is `_pct_change` against the 6th, 21st or 61st close from the end, the RSI is present, the rebound block carries the same RSI, and a curve shape is set |
| Dashboard.FirstNonEmpty | api/main.py:196-197 | `a or b or ""` gives "" exactly when both are missing or empty; otherwise it gives the first non-empty one |
| Dashboard.Metas | api/main.py:220-223 | `symbols_with_meta` holds, for each scraped row in order, rank `i + 1` and its symbol and name |
| Dashboard.SctrTop300 | api/main.py:194-199 | the loop gives one entry per scraped row, ranks 1 to n in scrape order, the symbol from "Symbol" then "symbol", and the name from "Name" then "name" |
| Dashboard.Submitted | api/main.py:224 | the submitted rows are exactly the scraped rows with a non-empty symbol |
| Dashboard.Harvest | api/main.py:232-261 | the finished jobs append at most one row each |
| Dashboard.HarvestAppend | api/main.py:232-261 | what two runs of finished jobs append is the concatenation of what each run appends |
| Dashboard.HarvestRemove | api/main.py:232-261 | taking one job out takes exactly its row out of what is appended |
| Dashboard.HarvestPermutation | api/main.py:232-261 | the appended rows, as a multiset, do not depend on the completion order |
| Dashboard.HarvestSources | api/main.py:232-261 | every appended row comes from a distinct finished job, in completion order, and every job that appends is accounted for |
| Dashboard.HarvestStrictlySorted | api/main.py:262-263 | jobs appending in increasing rank give a list in strictly increasing rank |
| Dashboard.HarvestParallel | api/main.py:241-261 | the perf and rebound appends of the same jobs are equally long and agree row by row on (rank, symbol, name) |
| Dashboard.SubmittedRanksIncrease | api/main.py:220-229 | submission keeps the strictly increasing scrape ranks |
| Dashboard.Jobs | api/main.py:224-231 | the jobs are the submitted scraped rows, in order, followed by at most one more: QQQ with rank −1, only when the scrape did not list it; every job has a non-empty symbol |
| Dashboard.JobsAreScraped | api/main.py:229-231 | every job other than the added QQQ one is the scraped row at its rank |
| Dashboard.JobsIncludeQqq | api/main.py:229-231 | some job is QQQ: the scraped one, or the one added with rank −1 |
| Dashboard.JobsFacts | api/main.py:220-231 | every job has a symbol; non-added jobs are scraped rows at their rank; non-QQQ jobs are in increasing rank; and some job is QQQ |
| Dashboard.ExpectedPerf | api/main.py:238-262 | the perf list the endpoint returns, one row per non-QQQ job in submission order, so no longer than the job list |
| Dashboard.ExpectedRebound | api/main.py:241-263 | the rebound list likewise, no longer than the job list |
| Dashboard.ExpectedPerfSorted | api/main.py:262 | the perf list is in strictly increasing rank |
| Dashboard.ExpectedReboundSorted | api/main.py:263 | the rebound list is in strictly increasing rank |
| Dashboard.ExpectedPerfRows | api/main.py:238-250 | every perf row has a non-empty symbol other than QQQ, and the rank, symbol and name of the scraped row at that rank |
| Dashboard.SubmittedAt | api/main.py:229 | every scraped row with a symbol is submitted as a job |
| Dashboard.ExpectedPerfComplete | api/main.py:229-250 | every scraped row with a symbol other than QQQ has a perf row, built from its own job's outcome |
| Dashboard.PerfAndReboundAgree | api/main.py:241-263 | the perf and rebound lists carry the same (rank, symbol, name) sequence |
| Dashboard.OrderInRange | api/main.py:232 | a completion order covers every job exactly once and names only jobs |
| Dashboard.QqqJobFinishes | api/main.py:230-239 | some finished job is QQQ |
| Dashboard.QqqAmong | api/main.py:238-240 | once the QQQ job has finished, the finished prefix is no longer QQQ-free |
| Dashboard.HarvestStep | api/main.py:232-261 | finishing one more job appends its row, if it has one |
| Dashboard.SortedHarvest | api/main.py:262-263 | sorting by rank what the jobs appended, in any completion order, gives the list in submission order |
| Dashboard.CollectedListsSorted | api/main.py:228-263 | for any completion order, both collected lists sorted by rank are exactly the expected lists |
| Dashboard.Collect | api/main.py:228-261 | the `as_completed` loop appends each finished non-QQQ job's rows in completion order; a finished QQQ job overwrites the reference row instead, so it comes from the last QQQ job to finish |
| Dashboard.FindQqq | api/main.py:264-268 | the fallback finds nothing exactly when no perf row is QQQ; otherwise it gives the four percentages of the first QQQ row |
| Dashboard.ApiDashboard | api/main.py:220-275 | for any completion order, the response's lists are the expected lists (scrape order, QQQ-free), and the reference row is the perf block of the last QQQ job to finish |

## Left out

- Rounding: Python's `round(…, 2)` and `round(…, 4)`, and JavaScript's `toFixed`. All values are exact reals, so each contract describes the value before rounding.
- Floating point: all values are exact reals. The only IEEE behaviour modelled is the NaN from −∞ − −∞ in the comparator, read as 0. Float sums in the portfolio `reduce` and in `_rsi` round, so the identities the contracts state (the round trip of `PctChange`, `ShareForm`, `ri == p1_pl * p5_pl`) hold for the exact values, not for the floats. NaN closes are not modelled.
- Scraped cells are modelled as optional strings. A cell that is not a string is not modelled: for an empty cell pandas `to_dict` gives a NaN float, which is truthy, so `row.get("Name") or …` (api/main.py:196-197, 221) would take it.
- Text.Lower: only ASCII letters are lower-cased. Unicode case mapping has no model here.
- Rendering and async state: the loading and error flags and the failed-load message (web/src/App.tsx:54-55, 78-83), JSX, `SortIcon`, `PerfCell`, `formatPct` and `formatRatio`. These are display, not computation.
- web/src/api.ts and api/fetch_sctr.py are not part of this model. They are a `fetch` wrapper and browser-driven scraping. The scrape is an input: a sequence of rows with the optional keys "Symbol", "symbol", "Name" and "name".
- yfinance: `ticker.history`, `ticker.info` and `_perf1d_from_yfinance`. The closes left after `dropna()` and the `perf1d` value are parameters of `Indicators.SymbolDataOf`. `get_price_performance` repeats the perf half of `get_symbol_data` and is covered by it.
- Concurrency: `ThreadPoolExecutor` and `as_completed` are reduced to a completion order, which is any permutation of the jobs. An exception raised by a future is represented by the all-null outcome of that job (`Indicators.EmptyData(None)`).
- `list.sort` in place: the sorts of `perf_list` and `rebound_list` reassign the list rather than sort it in place. No other code holds an alias to these lists.
- Indicators.Rsi and Indicators.RsiOf require `period ≥ 1`. With period 0 the source divides by zero. Both callers (api/main.py:86 and api/main.py:140) pass 14.
- Dashboard.ApiDashboard and Dashboard.Collect keep four of the reference row's fields. The endpoint actually returns the whole perf block, `rsi_14` included. The response type in web/src/types.ts and the client read only those four.
- The response's `qqq` is never `{}` (see above), so no empty reference row is modelled.
- FastAPI routes, CORS, `HTTPException` on a failed scrape, and `run`/uvicorn. These are transport.
- CSV export and mean/standard-deviation statistics: web/src/App.tsx and api/main.py contain no CSV export and no mean or standard-deviation computation, so neither is modelled.
