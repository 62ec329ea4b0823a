/** The equal-allocation summaries `portfolio60d` and `portfolio20d` of web/src/App.tsx:
    100 invested in every row of the unfiltered performance data, each growing by the
    row's percentage over the horizon (a null percentage counts as 0). */
module Portfolio {
  import opened Types

  const PER_STOCK: real := 100.0

  /** The profit in money and as a percentage of the amount invested. */
  datatype Summary = Summary(profit: real, pct: real)

  /** `row[column] ?? 0` */
  function PctOrZero(row: SctrRow, column: SortKey): real
  {
    match PerfField(row, column)
    case None => 0.0
    case Some(p) => p
  }

  /** One row's value at the end of the horizon: `perStock * (1 + pct / 100)`. */
  function EndValue(row: SctrRow, column: SortKey): real
  {
    PER_STOCK * (1.0 + PctOrZero(row, column) / 100.0)
  }

  /** `data.reduce((sum, row) => sum + EndValue(row), acc)`, folding from the left. */
  function TotalValue(acc: real, data: seq<SctrRow>, column: SortKey): real
    decreases |data|
  {
    if data == [] then acc else TotalValue(acc + EndValue(data[0], column), data[1..], column)
  }

  /** The plain sum of the column's percentages, nulls as 0. */
  function SumPct(data: seq<SctrRow>, column: SortKey): real
  {
    if data == [] then 0.0 else PctOrZero(data[0], column) + SumPct(data[1..], column)
  }

  /** Folding the end values adds 100 per row plus the row's percentage to the start. */
  lemma {:induction false} TotalValueIsSum(acc: real, data: seq<SctrRow>, column: SortKey)
    ensures TotalValue(acc, data, column) == acc + PER_STOCK * |data| as real + SumPct(data, column)
    decreases |data|
  {
    if data != [] {
      TotalValueIsSum(acc + EndValue(data[0], column), data[1..], column);
    }
  }

  /** The summary over a column: the profit is the sum of the rows' percentages (each
      row's 100 gains exactly its percentage), and the percentage is their mean, or 0
      when there is nothing invested. */
  function Summarize(data: seq<SctrRow>, column: SortKey): (s: Summary)
    ensures s.profit == SumPct(data, column)
    ensures s.pct == if |data| == 0 then 0.0 else SumPct(data, column) / |data| as real
  {
    var invested := |data| as real * PER_STOCK;
    var totalValue := TotalValue(0.0, data, column);
    TotalValueIsSum(0.0, data, column);
    var profit := totalValue - invested;
    Summary(profit, if invested > 0.0 then profit / invested * 100.0 else 0.0)
  }

  /** `portfolio60d`: the 60-day percentages summed, and their mean. */
  function Portfolio60d(data: seq<SctrRow>): (s: Summary)
    ensures s.profit == SumPct(data, Perf60d)
    ensures s.pct == if |data| == 0 then 0.0 else SumPct(data, Perf60d) / |data| as real
  {
    Summarize(data, Perf60d)
  }

  /** `portfolio20d`: the 20-day percentages summed, and their mean. */
  function Portfolio20d(data: seq<SctrRow>): (s: Summary)
    ensures s.profit == SumPct(data, Perf20d)
    ensures s.pct == if |data| == 0 then 0.0 else SumPct(data, Perf20d) / |data| as real
  {
    Summarize(data, Perf20d)
  }

  /** The sum over two runs of rows is the sum of their sums. */
  lemma {:induction false} SumPctAppend(a: seq<SctrRow>, b: seq<SctrRow>, column: SortKey)
    ensures SumPct(a + b, column) == SumPct(a, column) + SumPct(b, column)
  {
    if a != [] {
      assert (a + b)[1..] == a[1..] + b;
      SumPctAppend(a[1..], b, column);
    } else {
      assert a + b == b;
    }
  }

  /** Taking row `j` out of `b` takes its percentage out of the sum. */
  lemma SumPctRemove(b: seq<SctrRow>, j: nat, column: SortKey)
    requires j < |b|
    ensures SumPct(b, column) == PctOrZero(b[j], column) + SumPct(b[..j] + b[j + 1..], column)
    ensures multiset(b[..j] + b[j + 1..]) == multiset(b) - multiset{b[j]}
  {
    assert b == b[..j] + ([b[j]] + b[j + 1..]);
    SumPctAppend(b[..j], [b[j]] + b[j + 1..], column);
    SumPctAppend([b[j]], b[j + 1..], column);
    SumPctAppend(b[..j], b[j + 1..], column);
    assert SumPct([b[j]], column) == PctOrZero(b[j], column);
  }

  /** Reordering the data (a permutation of it) leaves the sum unchanged. */
  lemma {:induction false} SumPctPermutation(a: seq<SctrRow>, b: seq<SctrRow>, column: SortKey)
    requires multiset(a) == multiset(b)
    ensures SumPct(a, column) == SumPct(b, column)
    decreases |a|
  {
    if a != [] {
      assert a[0] in multiset(b);
      var j :| 0 <= j < |b| && b[j] == a[0];
      var rest := b[..j] + b[j + 1..];
      SumPctRemove(b, j, column);
      assert multiset(a[1..]) == multiset(rest) by {
        assert a == [a[0]] + a[1..];
        assert multiset(a[1..]) == multiset(a) - multiset{a[0]};
      }
      SumPctPermutation(a[1..], rest, column);
      assert SumPct(a, column) == PctOrZero(a[0], column) + SumPct(a[1..], column);
    } else {
      assert |b| == |multiset(b)| == 0;
    }
  }

  /** Equal allocation gives an order-independent summary. */
  lemma SummaryIgnoresOrder(a: seq<SctrRow>, b: seq<SctrRow>, column: SortKey)
    requires multiset(a) == multiset(b)
    ensures Summarize(a, column) == Summarize(b, column)
  {
    SumPctPermutation(a, b, column);
    assert |a| == |multiset(a)| == |multiset(b)| == |b|;
  }
}
