/** Row model of the dashboard: the two row kinds, their sort keys, the curve-shape tag
    and the shape of the dashboard response. Every metric is nullable; `name` is optional. */
module Types {

  datatype Option<+T> = None | Some(value: T)

  /** One instrument of the performance table. */
  datatype SctrRow = SctrRow(
    rank: int,
    symbol: string,
    name: Option<string>,
    perf1d: Option<real>,
    perf5d: Option<real>,
    perf20d: Option<real>,
    perf60d: Option<real>,
    rsi14: Option<real>)

  /** The performance table is sortable by its five metrics only (not by rank). */
  datatype SortKey = Perf1d | Perf5d | Perf20d | Perf60d | Rsi14

  datatype SortDir = Asc | Desc

  /** The four-valued classification of the last five closes. */
  datatype CurveShape = VShape | WayUp | AShape | WayDown

  /** One instrument of the rebound table. */
  datatype ReboundRow = ReboundRow(
    rank: int,
    symbol: string,
    name: Option<string>,
    ri: Option<real>,
    p1Pl: Option<real>,
    p5Pl: Option<real>,
    d5D1GainRatio: Option<real>,
    rsi14: Option<real>,
    curveShape: Option<CurveShape>)

  /** The rebound table is sortable by rank, curve shape and five numeric metrics. */
  datatype ReboundSortKey = Rank | Ri | P1Pl | P5Pl | D5D1GainRatio | ReboundRsi14 | Curve

  /** The reference (benchmark) row: four nullable percentages. A key missing from the
      JSON object reads as null. */
  datatype QqqRef = QqqRef(perf1d: Option<real>, perf5d: Option<real>, perf20d: Option<real>, perf60d: Option<real>)

  datatype DashboardResponse = DashboardResponse(perf: seq<SctrRow>, rebound: seq<ReboundRow>, qqq: QqqRef)

  /** `row[key]` for a performance sort key. */
  function PerfField(r: SctrRow, k: SortKey): Option<real>
  {
    match k
    case Perf1d => r.perf1d
    case Perf5d => r.perf5d
    case Perf20d => r.perf20d
    case Perf60d => r.perf60d
    case Rsi14 => r.rsi14
  }
}
