/** The per-symbol derivations of api/main.py: `_pct_change`, `_rsi`, and the perf and
    rebound blocks of `get_symbol_data` computed from a list of daily closes. Values are
    exact reals: Python's `round(..., 2)` and `round(..., 4)` are not modelled. */
module Indicators {
  import opened Types

  const TRADING_DAYS_5: int := 6
  const TRADING_DAYS_20: int := 21
  const TRADING_DAYS_60: int := 61
  const REBOUND_DAYS: int := 5
  const RSI_PERIOD: int := 14

  /** Python's `s[i]` for an index that may count from the end (`s[-1]` is the last). */
  function At(s: seq<real>, i: int): real
    requires -|s| <= i < |s|
  {
    if i < 0 then s[|s| + i] else s[i]
  }

  /** `_pct_change(current, past)`: no value for a missing or zero past price; otherwise
      the percentage by which `past` grows into `current`. */
  function PctChange(current: real, past: Option<real>): (r: Option<real>)
    ensures r.None? <==> past.None? || past.value == 0.0
    ensures r.Some? ==> past.value * (1.0 + r.value / 100.0) == current
  {
    if past.None? || past.value == 0.0 then None
    else
      var p := past.value;
      var pct := (current - p) / p * 100.0;
      assert p * (1.0 + pct / 100.0) == p + (current - p) / p * p;
      Some(pct)
  }

  /** `max(x, 0.0)` */
  function Max0(x: real): real
  {
    if x >= 0.0 then x else 0.0
  }

  /** One day's price change split into the gain and loss `_rsi` appends. */
  datatype Movement = Movement(gain: real, loss: real)

  /** `max(ch, 0.0)` and `max(-ch, 0.0)`: both non-negative, at most one of them non-zero,
      and the gain minus the loss is the change itself. */
  function Split(ch: real): (m: Movement)
    ensures m.gain >= 0.0 && m.loss >= 0.0
    ensures m.gain == 0.0 || m.loss == 0.0
    ensures m.gain - m.loss == ch
  {
    Movement(Max0(ch), Max0(-ch))
  }

  /** The `period` price changes `_rsi` reads: `closes[i] - closes[i - 1]` for
      `i in range(-period, 0)`. */
  function Changes(closes: seq<real>, period: nat): (c: seq<real>)
    requires |closes| >= period + 1
    ensures |c| == period
  {
    seq(period, k requires 0 <= k < period => At(closes, k - period) - At(closes, k - period - 1))
  }

  function Gains(closes: seq<real>, period: nat): (g: seq<real>)
    requires |closes| >= period + 1
    ensures |g| == period
  {
    seq(period, k requires 0 <= k < period => Split(Changes(closes, period)[k]).gain)
  }

  function Losses(closes: seq<real>, period: nat): (l: seq<real>)
    requires |closes| >= period + 1
    ensures |l| == period
  {
    seq(period, k requires 0 <= k < period => Split(Changes(closes, period)[k]).loss)
  }

  /** Python's `sum` over a list of floats. */
  function Sum(s: seq<real>): real
  {
    if s == [] then 0.0 else s[0] + Sum(s[1..])
  }

  lemma {:induction false} SumNonNegative(s: seq<real>)
    requires forall i :: 0 <= i < |s| ==> s[i] >= 0.0
    ensures Sum(s) >= 0.0
  {
    if s != [] {
      SumNonNegative(s[1..]);
    }
  }

  /** The value `_rsi(closes, period)` computes: none for too short a list; 100 when the
      average loss is 0; otherwise `100 - 100 / (1 + avg_gain / avg_loss)`. */
  function RsiOf(closes: seq<real>, period: nat): (r: Option<real>)
    requires period >= 1
    ensures r.None? <==> |closes| < period + 1
  {
    if |closes| < period + 1 then None
    else
      var avgGain := Sum(Gains(closes, period)) / period as real;
      var avgLoss := Sum(Losses(closes, period)) / period as real;
      if avgLoss == 0.0 then Some(100.0)
      else
        var rs := avgGain / avgLoss;
        SumNonNegative(Gains(closes, period));
        SumNonNegative(Losses(closes, period));
        Some(100.0 - 100.0 / (1.0 + rs))
  }

  /** `_rsi`: the loop appends one gain and one loss per day of the window. */
  method Rsi(closes: seq<real>, period: nat) returns (r: Option<real>)
    requires period >= 1
    ensures r == RsiOf(closes, period)
  {
    if |closes| < period + 1 {
      return None;
    }
    var gains: seq<real> := [];
    var losses: seq<real> := [];
    var i: int := -(period as int);
    while i < 0
      invariant -(period as int) <= i <= 0
      invariant gains == Gains(closes, period)[..i + period]
      invariant losses == Losses(closes, period)[..i + period]
    {
      var ch := At(closes, i) - At(closes, i - 1);
      assert ch == Changes(closes, period)[i + period];
      gains := gains + [Max0(ch)];
      losses := losses + [Max0(-ch)];
      i := i + 1;
    }
    assert gains == Gains(closes, period) && losses == Losses(closes, period);
    var avgGain := Sum(gains) / period as real;
    var avgLoss := Sum(losses) / period as real;
    if avgLoss == 0.0 {
      return Some(100.0);
    }
    var rs := avgGain / avgLoss;
    SumNonNegative(gains);
    SumNonNegative(losses);
    r := Some(100.0 - 100.0 / (1.0 + rs));
  }

  /** The RSI is exactly 100 when no day of the window lost; otherwise it is the gains'
      share of all movement, `100 * G / (G + L)`, which lies in [0, 100). */
  lemma RsiRange(closes: seq<real>, period: nat)
    requires period >= 1 && |closes| >= period + 1
    ensures RsiOf(closes, period).Some?
    ensures var g, l := Sum(Gains(closes, period)), Sum(Losses(closes, period));
      && g >= 0.0 && l >= 0.0
      && (RsiOf(closes, period).value == 100.0 <==> l == 0.0)
      && (l > 0.0 ==> RsiOf(closes, period).value == 100.0 * g / (g + l))
      && 0.0 <= RsiOf(closes, period).value <= 100.0
  {
    var gs, ls := Gains(closes, period), Losses(closes, period);
    SumNonNegative(gs);
    SumNonNegative(ls);
    var g, l := Sum(gs), Sum(ls);
    if l > 0.0 {
      ShareForm(g, l, period as real);
    }
  }

  /** `100 - 100 / (1 + rs)` with `rs` the ratio of the averages is the gains' share. */
  lemma ShareForm(g: real, l: real, n: real)
    requires g >= 0.0 && l > 0.0 && n > 0.0
    ensures (g / n) / (l / n) >= 0.0
    ensures 100.0 - 100.0 / (1.0 + (g / n) / (l / n)) == 100.0 * g / (g + l)
    ensures 0.0 <= 100.0 * g / (g + l) < 100.0
  {
    var rs := (g / n) / (l / n);
    assert (g / n) * n == g && (l / n) * n == l;
    assert rs * (l / n) == g / n;
    assert rs * l == g by {
      assert rs * (l / n) * n == (g / n) * n;
    }
    assert rs >= 0.0;
    var x := 1.0 + rs;
    assert x * l == l + g;
    var y := 100.0 / x;
    assert y * x == 100.0;
    assert y * (g + l) == 100.0 * l by {
      assert y * (g + l) == y * (x * l);
    }
    assert y == 100.0 * l / (g + l);
    var share := 100.0 * g / (g + l);
    assert share * (g + l) == 100.0 * g;
    assert (100.0 - y) * (g + l) == 100.0 * g;
    var d := 100.0 - y - share;
    assert d * (g + l) == 0.0;
    assert d == 0.0;
    assert 100.0 * g / (g + l) < 100.0 by {
      assert 100.0 * g < 100.0 * (g + l);
    }
  }

  /** `_rsi` reads only the last `period + 1` closes: two lists that end alike have the
      same RSI. */
  lemma RsiReadsLastWindow(a: seq<real>, b: seq<real>, period: nat)
    requires period >= 1 && |a| >= period + 1 && |b| >= period + 1
    requires a[|a| - period - 1..] == b[|b| - period - 1..]
    ensures RsiOf(a, period) == RsiOf(b, period)
  {
    var wa, wb := a[|a| - period - 1..], b[|b| - period - 1..];
    forall k | 0 <= k < period ensures Changes(a, period)[k] == Changes(b, period)[k] {
      assert Changes(a, period)[k] == At(a, k - period) - At(a, k - period - 1);
      assert At(a, k - period) == a[|a| - period + k];
      assert Changes(a, period)[k] == a[|a| - period + k] - a[|a| - period + k - 1];
      assert Changes(b, period)[k] == At(b, k - period) - At(b, k - period - 1);
      assert At(b, k - period) == b[|b| - period + k];
      assert Changes(b, period)[k] == b[|b| - period + k] - b[|b| - period + k - 1];
      assert a[|a| - period + k] == wa[k + 1] == wb[k + 1] == b[|b| - period + k];
      assert a[|a| - period + k - 1] == wa[k] == wb[k] == b[|b| - period + k - 1];
    }
    assert Changes(a, period) == Changes(b, period);
  }

  /** `min(range(len(s)), key=lambda i: s[i])`: scanning from the front, the index of the
      first smallest value. */
  function FirstMin(s: seq<real>): (i: nat)
    requires |s| > 0
    ensures i < |s|
    ensures forall j :: 0 <= j < |s| ==> s[i] <= s[j]
    ensures forall j :: 0 <= j < i ==> s[i] < s[j]
  {
    if |s| == 1 then 0
    else
      var t := FirstMin(s[..|s| - 1]);
      if s[|s| - 1] < s[t] then |s| - 1 else t
  }

  /** `max(range(len(s)), key=lambda i: s[i])`: the index of the first largest value. */
  function FirstMax(s: seq<real>): (i: nat)
    requires |s| > 0
    ensures i < |s|
    ensures forall j :: 0 <= j < |s| ==> s[j] <= s[i]
    ensures forall j :: 0 <= j < i ==> s[j] < s[i]
  {
    if |s| == 1 then 0
    else
      var t := FirstMax(s[..|s| - 1]);
      if s[|s| - 1] > s[t] then |s| - 1 else t
  }

  /** The shape as a function of where the first minimum and first maximum lie. */
  function ShapeOfExtremes(idxMin: nat, idxMax: nat): (c: CurveShape)
    ensures c == VShape <==> 1 <= idxMin <= 3
    ensures c == AShape <==> !(1 <= idxMin <= 3) && 1 <= idxMax <= 3
    ensures c == WayDown <==> idxMin == 4 && idxMax == 0
    ensures c == WayUp <==> !(1 <= idxMin <= 3) && !(1 <= idxMax <= 3) && !(idxMin == 4 && idxMax == 0)
  {
    if 1 <= idxMin <= 3 then VShape
    else if 1 <= idxMax <= 3 then AShape
    else if idxMin == 4 && idxMax == 0 then WayDown
    else WayUp
  }

  /** The curve shape of the last five closes, in the order the source tests. It depends
      only on the first-minimum and first-maximum indices: the final endpoint comparison
      is reached only by a flat series, and then gives way-up. */
  function Classify(last5: seq<real>): (c: CurveShape)
    requires |last5| == REBOUND_DAYS
    ensures c == ShapeOfExtremes(FirstMin(last5), FirstMax(last5))
  {
    var idxMin, idxMax := FirstMin(last5), FirstMax(last5);
    assert idxMin == idxMax ==> last5[4] == last5[0];
    if 1 <= idxMin <= 3 then VShape
    else if 1 <= idxMax <= 3 then AShape
    else if idxMin == 0 && idxMax == 4 then WayUp
    else if idxMax == 0 && idxMin == 4 then WayDown
    else if last5[4] >= last5[0] then WayUp else WayDown
  }

  /** A flat series: the fallback branch, which calls it way-up. */
  lemma {:induction false} FlatIsWayUp(last5: seq<real>)
    requires |last5| == REBOUND_DAYS
    requires forall i :: 0 <= i < |last5| ==> last5[i] == last5[0]
    ensures FirstMin(last5) == 0 && FirstMax(last5) == 0
    ensures Classify(last5) == WayUp
  {
    var lo, hi := FirstMin(last5), FirstMax(last5);
    assert last5[lo] == last5[0] == last5[hi];
  }

  /** A strictly rising series is way-up; a strictly falling one is way-down. */
  lemma MonotoneShapes(last5: seq<real>)
    requires |last5| == REBOUND_DAYS
    ensures (forall i :: 0 < i < |last5| ==> last5[i - 1] < last5[i]) ==> Classify(last5) == WayUp
    ensures (forall i :: 0 < i < |last5| ==> last5[i - 1] > last5[i]) ==> Classify(last5) == WayDown
  {
    var lo, hi := FirstMin(last5), FirstMax(last5);
    if forall i :: 0 < i < |last5| ==> last5[i - 1] < last5[i] {
      assert last5[0] < last5[1] < last5[2] < last5[3] < last5[4];
      assert lo == 0 && hi == 4;
    }
    if forall i :: 0 < i < |last5| ==> last5[i - 1] > last5[i] {
      assert last5[0] > last5[1] > last5[2] > last5[3] > last5[4];
      assert lo == 4 && hi == 0;
    }
  }

  /** The relative growth from `base` to `p`, in units of `1 / scale`, turns `base` back
      into `p`; it is non-negative when `p` is not below a positive `base`. */
  lemma GrowthRoundTrip(base: real, p: real, scale: real)
    requires base != 0.0 && scale > 0.0
    ensures base * (1.0 + (p - base) / base * scale / scale) == p
    ensures base > 0.0 && p >= base ==> (p - base) / base * scale >= 0.0
  {
    assert (p - base) / base * scale / scale == (p - base) / base;
    assert base * ((p - base) / base) == p - base;
  }

  /** The two gains over a positive low, per mille, and their product `ri`. */
  lemma GainsOverLow(pl: real, p1: real, p5: real)
    requires pl > 0.0 && p1 >= pl && p5 >= pl
    ensures (p1 - pl) / pl * 1000.0 >= 0.0 && (p5 - pl) / pl * 1000.0 >= 0.0
    ensures pl * (1.0 + (p1 - pl) / pl * 1000.0 / 1000.0) == p1
    ensures pl * (1.0 + (p5 - pl) / pl * 1000.0 / 1000.0) == p5
    ensures (p1 - pl) / pl * ((p5 - pl) / pl) * 1000000.0 == ((p1 - pl) / pl * 1000.0) * ((p5 - pl) / pl * 1000.0)
    ensures (p1 - pl) / pl * ((p5 - pl) / pl) * 1000000.0 >= 0.0
  {
    GrowthRoundTrip(pl, p1, 1000.0);
    GrowthRoundTrip(pl, p5, 1000.0);
    var g1, g5 := (p1 - pl) / pl, (p5 - pl) / pl;
    assert g1 >= 0.0 && g5 >= 0.0;
    assert g1 * g5 >= 0.0;
  }

  /** `round((p5 - p1) / p1, 4) if p1 and p1 != 0 else None`, before rounding: the ratio
      that grows `p1` into `p5`. */
  function FiveDayRatio(p1: real, p5: real): (r: Option<real>)
    ensures r.None? <==> p1 == 0.0
    ensures r.Some? ==> p1 * (1.0 + r.value) == p5
  {
    if p1 != 0.0 then
      GrowthRoundTrip(p1, p5, 1.0);
      Some((p5 - p1) / p1)
    else None
  }

  /** The rebound block of a symbol's row. */
  datatype Rebound = Rebound(
    ri: Option<real>,
    p1Pl: Option<real>,
    p5Pl: Option<real>,
    d5D1GainRatio: Option<real>,
    rsi14: Option<real>,
    curveShape: Option<CurveShape>)

  /** The last five closes, `closes[-REBOUND_DAYS:]`. */
  function Last5(closes: seq<real>): (s: seq<real>)
    requires |closes| >= REBOUND_DAYS
    ensures |s| == REBOUND_DAYS
    ensures forall k {:trigger s[k]} :: 0 <= k < REBOUND_DAYS ==> s[k] == closes[|closes| - REBOUND_DAYS + k]
  {
    closes[|closes| - REBOUND_DAYS..]
  }

  /** `min(last5)`, the low of the last five closes. */
  function Low(closes: seq<real>): real
    requires |closes| >= REBOUND_DAYS
  {
    Last5(closes)[FirstMin(Last5(closes))]
  }

  /** `p1_pl`, `p5_pl` and `ri` of `r` are all present and non-negative, the two gains,
      per mille, turn `low` back into `p1` and `p5`, and `ri` is their product. */
  predicate GainsOver(low: real, p1: real, p5: real, r: Rebound)
  {
    && r.ri.Some? && r.p1Pl.Some? && r.p5Pl.Some?
    && r.p1Pl.value >= 0.0 && r.p5Pl.value >= 0.0 && r.ri.value >= 0.0
    && low * (1.0 + r.p1Pl.value / 1000.0) == p1
    && low * (1.0 + r.p5Pl.value / 1000.0) == p5
    && r.ri.value == r.p1Pl.value * r.p5Pl.value
  }

  /** The row of a positive low: the gains of `p1` and `p5` over it, per mille, and their
      product `ri`. */
  function OverLow(pl: real, p1: real, p5: real, d5d1: Option<real>, rsi14: Option<real>,
                   shape: Option<CurveShape>): (r: Rebound)
    requires pl > 0.0 && p1 >= pl && p5 >= pl
    ensures GainsOver(pl, p1, p5, r)
    ensures r.d5D1GainRatio == d5d1 && r.rsi14 == rsi14 && r.curveShape == shape
  {
    var g1, g5 := (p1 - pl) / pl, (p5 - pl) / pl;
    GainsOverLow(pl, p1, p5);
    Rebound(Some(g1 * g5 * 1000000.0), Some(g1 * 1000.0), Some(g5 * 1000.0), d5d1, rsi14, shape)
  }

  /** The rebound figures of a five-close window: `p1` is its first close, `p5` its last
      and the low its first minimum. */
  function ReboundFrom(last5: seq<real>, rsi14: Option<real>): (r: Rebound)
    requires |last5| == REBOUND_DAYS
    ensures r.rsi14 == rsi14 && r.curveShape == Some(Classify(last5))
    ensures r.ri.None? <==> last5[FirstMin(last5)] <= 0.0
    ensures r.p1Pl.None? == r.ri.None? && r.p5Pl.None? == r.ri.None?
    ensures r.ri.Some? ==> GainsOver(last5[FirstMin(last5)], last5[0], last5[4], r)
    ensures r.d5D1GainRatio == FiveDayRatio(last5[0], last5[4])
  {
    var p1, p5, pl := last5[0], last5[4], last5[FirstMin(last5)];
    var d5d1 := FiveDayRatio(p1, p5);
    if pl > 0.0 then OverLow(pl, p1, p5, d5d1, rsi14, Some(Classify(last5)))
    else Rebound(None, None, None, d5d1, rsi14, Some(Classify(last5)))
  }

  /** Lines 144-172 of `get_symbol_data`: with fewer than 15 closes only the RSI is
      carried; otherwise `p1` is the close five days back and `p5` the last close, the
      gains over the low are reported only when the low is positive, and the five-day
      ratio only when `p1` is not 0. Every reported gain is non-negative and turns the low
      back into `p1` and `p5`; `ri` is the product of the two per-mille gains. */
  function ReboundOf(closes: seq<real>, rsi14: Option<real>): (r: Rebound)
    ensures r.rsi14 == rsi14
    ensures r.curveShape.None? <==> |closes| < 15
    ensures |closes| >= 15 ==> r.curveShape == Some(Classify(Last5(closes)))
    ensures r.ri.None? <==> |closes| < 15 || Low(closes) <= 0.0
    ensures r.p1Pl.None? == r.ri.None? && r.p5Pl.None? == r.ri.None?
    ensures r.ri.Some? ==> GainsOver(Low(closes), At(closes, -REBOUND_DAYS), At(closes, -1), r)
    ensures r.d5D1GainRatio.None? <==> |closes| < 15 || At(closes, -REBOUND_DAYS) == 0.0
    ensures |closes| >= 15 ==> r.d5D1GainRatio == FiveDayRatio(At(closes, -REBOUND_DAYS), At(closes, -1))
  {
    if |closes| < 15 then Rebound(None, None, None, None, rsi14, None)
    else
      var last5 := Last5(closes);
      assert At(closes, -REBOUND_DAYS) == last5[0] && At(closes, -1) == last5[4];
      assert Low(closes) == last5[FirstMin(last5)];
      ReboundFrom(last5, rsi14)
  }

  /** The perf block of a symbol's row. */
  datatype Perf = Perf(
    perf1d: Option<real>,
    perf5d: Option<real>,
    perf20d: Option<real>,
    perf60d: Option<real>,
    rsi14: Option<real>)

  datatype SymbolData = SymbolData(perf: Perf, rebound: Rebound)

  /** The row a symbol gets when its history is missing or short, and the row
      `api_dashboard` uses when fetching a symbol raised. */
  function EmptyData(perf1d: Option<real>): (d: SymbolData)
    ensures d.perf.perf1d == perf1d
    ensures d.perf.perf5d.None? && d.perf.perf20d.None? && d.perf.perf60d.None? && d.perf.rsi14.None?
    ensures d.rebound.ri.None? && d.rebound.p1Pl.None? && d.rebound.p5Pl.None?
    ensures d.rebound.d5D1GainRatio.None? && d.rebound.rsi14.None? && d.rebound.curveShape.None?
  {
    SymbolData(Perf(perf1d, None, None, None, None), Rebound(None, None, None, None, None, None))
  }

  /** `closes.iloc[-days]` when there are that many closes. */
  function Past(closes: seq<real>, days: int): Option<real>
  {
    if 1 <= days <= |closes| then Some(At(closes, -days)) else None
  }

  /** `get_symbol_data` from the closes left after `dropna()`, with `perf1d` the value the
      quote lookup returned. Fewer than 61 closes give only `perf1d`; otherwise every
      horizon's change and the RSI are filled in, the rebound block carries the same RSI,
      and a curve shape is always assigned. */
  function SymbolDataOf(closes: seq<real>, perf1d: Option<real>): (d: SymbolData)
    ensures d.perf.perf1d == perf1d
    ensures d.rebound.rsi14 == d.perf.rsi14
    ensures |closes| < TRADING_DAYS_60 ==> d == EmptyData(perf1d)
    ensures |closes| >= TRADING_DAYS_60 ==>
      && d.perf.rsi14 == RsiOf(closes, RSI_PERIOD) && d.perf.rsi14.Some?
      && d.perf.perf5d == PctChange(At(closes, -1), Past(closes, TRADING_DAYS_5))
      && d.perf.perf20d == PctChange(At(closes, -1), Past(closes, TRADING_DAYS_20))
      && d.perf.perf60d == PctChange(At(closes, -1), Past(closes, TRADING_DAYS_60))
      && d.rebound == ReboundOf(closes, d.perf.rsi14)
      && d.rebound.curveShape.Some?
  {
    if |closes| < TRADING_DAYS_60 then EmptyData(perf1d)
    else
      var last := At(closes, -1);
      var perf5d := if |closes| >= TRADING_DAYS_5 then PctChange(last, Some(At(closes, -TRADING_DAYS_5))) else None;
      var perf20d := if |closes| >= TRADING_DAYS_20 then PctChange(last, Some(At(closes, -TRADING_DAYS_20))) else None;
      var perf60d := if |closes| >= TRADING_DAYS_60 then PctChange(last, Some(At(closes, -TRADING_DAYS_60))) else None;
      var rsi14 := if |closes| >= 15 then RsiOf(closes, RSI_PERIOD) else None;
      SymbolData(Perf(perf1d, perf5d, perf20d, perf60d, rsi14), ReboundOf(closes, rsi14))
  }
}
