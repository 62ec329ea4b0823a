/** The sort stage of web/src/App.tsx: how each table turns a sort key into a comparator
    key (`sortedData` and `sortedReboundData`), and what the sorted views promise. */
module Views {
  import opened Types
  import opened Sorting

  /** The display order of the curve shapes. */
  const CURVE_ORDER: seq<CurveShape> := [VShape, WayUp, AShape, WayDown]

  /** `order.indexOf(c)`: the first position of `c` in `order`, or -1. */
  function IndexOf(order: seq<CurveShape>, c: CurveShape): (i: int)
    ensures -1 <= i < |order|
    ensures 0 <= i ==> order[i] == c && forall j :: 0 <= j < i ==> order[j] != c
    ensures i == -1 <==> c !in order
  {
    if order == [] then -1
    else if order[0] == c then 0
    else
      var j := IndexOf(order[1..], c);
      assert forall d :: d in order <==> d == order[0] || d in order[1..];
      if j == -1 then -1 else j + 1
  }

  /** Every curve shape is listed in the display order, at its own place. */
  lemma CurveOrderListsEveryShape(c: CurveShape)
    ensures 0 <= IndexOf(CURVE_ORDER, c) < 4
    ensures IndexOf(CURVE_ORDER, c) == match c case VShape => 0 case WayUp => 1 case AShape => 2 case WayDown => 3
  {
  }

  /** `a.curve_shape ? CURVE_ORDER.indexOf(a.curve_shape) : -1` */
  function CurveRank(shape: Option<CurveShape>): (r: int)
    ensures -1 <= r < |CURVE_ORDER|
    ensures r == -1 <==> shape.None?
    ensures shape.Some? ==> CURVE_ORDER[r] == shape.value
  {
    match shape
    case None => -1
    case Some(c) => CurveOrderListsEveryShape(c); IndexOf(CURVE_ORDER, c)
  }

  /** `v ?? -Infinity` */
  function NullableKey(v: Option<real>): Key
  {
    match v
    case None => NegInf
    case Some(x) => Finite(x)
  }

  /** The comparator key of the performance table for a sort key. */
  function PerfKeyOf(k: SortKey): (key: SctrRow -> Key)
    ensures forall r :: key(r) == NegInf <==> PerfField(r, k).None?
    ensures forall r :: PerfField(r, k).Some? ==> key(r) == Finite(PerfField(r, k).value)
  {
    (r: SctrRow) => NullableKey(PerfField(r, k))
  }

  /** The comparator key of the rebound table: the curve shape by its display rank, every
      other key by its (nullable) number. */
  function ReboundKeyOf(k: ReboundSortKey): (key: ReboundRow -> Key)
    ensures k == Curve ==> forall r :: key(r) == Finite(CurveRank(r.curveShape) as real)
    ensures k != Curve ==> forall r :: key(r) == NegInf <==> ReboundField(r, k).None?
    ensures k != Curve ==> forall r :: ReboundField(r, k).Some? ==> key(r) == Finite(ReboundField(r, k).value)
  {
    if k == Curve then (r: ReboundRow) => Finite(CurveRank(r.curveShape) as real)
    else (r: ReboundRow) => NullableKey(ReboundField(r, k))
  }

  /** `row[key]` for a numeric rebound key; rank is never null. The curve shape is not a
      numeric column and reads as null here. */
  function ReboundField(r: ReboundRow, k: ReboundSortKey): (v: Option<real>)
    ensures v.None? ==> k != Rank
    ensures k == Rank ==> v == Some(r.rank as real)
    ensures k == Curve ==> v.None?
    ensures k == ReboundRsi14 ==> v == r.rsi14
  {
    match k
    case Rank => Some(r.rank as real)
    case Ri => r.ri
    case P1Pl => r.p1Pl
    case P5Pl => r.p5Pl
    case D5D1GainRatio => r.d5D1GainRatio
    case ReboundRsi14 => r.rsi14
    case Curve => None
  }

  /** `sortedData`: without a sort key the filtered rows themselves; otherwise a new,
      stably sorted arrangement of the same rows. */
  function SortedPerf(rows: seq<SctrRow>, key: Option<SortKey>, dir: SortDir): (r: seq<SctrRow>)
    ensures key.None? ==> r == rows
    ensures |r| == |rows| && multiset(r) == multiset(rows)
    ensures key.Some? ==> Sorted(r, PerfKeyOf(key.value), dir)
    ensures key.Some? ==> forall k :: Select(r, PerfKeyOf(key.value), k) == Select(rows, PerfKeyOf(key.value), k)
  {
    match key
    case None => rows
    case Some(k) =>
      SortBySorted(rows, PerfKeyOf(k), dir);
      SortByStable(rows, PerfKeyOf(k), dir);
      SortBy(rows, PerfKeyOf(k), dir)
  }

  /** `sortedReboundData`, with the same promises for the rebound table. */
  function SortedRebound(rows: seq<ReboundRow>, key: Option<ReboundSortKey>, dir: SortDir): (r: seq<ReboundRow>)
    ensures key.None? ==> r == rows
    ensures |r| == |rows| && multiset(r) == multiset(rows)
    ensures key.Some? ==> Sorted(r, ReboundKeyOf(key.value), dir)
    ensures key.Some? ==> forall k :: Select(r, ReboundKeyOf(key.value), k) == Select(rows, ReboundKeyOf(key.value), k)
  {
    match key
    case None => rows
    case Some(k) =>
      SortBySorted(rows, ReboundKeyOf(k), dir);
      SortByStable(rows, ReboundKeyOf(k), dir);
      SortBy(rows, ReboundKeyOf(k), dir)
  }

  /** `a` may come before `b` in ascending order: null is the smallest value. */
  predicate NullableLe(a: Option<real>, b: Option<real>)
  {
    a.None? || (b.Some? && a.value <= b.value)
  }

  /** Performance sort by a column: ascending puts nulls first and then the values in
      increasing order; descending puts the values in decreasing order and nulls last. */
  lemma PerfSortOrder(rows: seq<SctrRow>, k: SortKey, dir: SortDir)
    ensures var r := SortedPerf(rows, Some(k), dir);
      forall i, j :: 0 <= i < j < |r| ==>
        if dir == Asc then NullableLe(PerfField(r[i], k), PerfField(r[j], k))
        else NullableLe(PerfField(r[j], k), PerfField(r[i], k))
  {
    var r := SortedPerf(rows, Some(k), dir);
    forall i, j | 0 <= i < j < |r|
      ensures if dir == Asc then NullableLe(PerfField(r[i], k), PerfField(r[j], k))
              else NullableLe(PerfField(r[j], k), PerfField(r[i], k))
    {
      assert Compare(dir, PerfKeyOf(k)(r[i]), PerfKeyOf(k)(r[j])) <= 0;
    }
  }

  /** Curve-shape sort: ascending gives no shape, then V-shape, way-up, arch, way-down;
      descending gives exactly the reverse class order. */
  lemma CurveSortOrder(rows: seq<ReboundRow>, dir: SortDir)
    ensures var r := SortedRebound(rows, Some(Curve), dir);
      forall i, j :: 0 <= i < j < |r| ==>
        if dir == Asc then CurveRank(r[i].curveShape) <= CurveRank(r[j].curveShape)
        else CurveRank(r[i].curveShape) >= CurveRank(r[j].curveShape)
  {
    var r := SortedRebound(rows, Some(Curve), dir);
    forall i, j | 0 <= i < j < |r|
      ensures if dir == Asc then CurveRank(r[i].curveShape) <= CurveRank(r[j].curveShape)
              else CurveRank(r[i].curveShape) >= CurveRank(r[j].curveShape)
    {
      assert Compare(dir, ReboundKeyOf(Curve)(r[i]), ReboundKeyOf(Curve)(r[j])) <= 0;
    }
  }

  /** The curve ranks run from -1 (no shape) through the four shapes in display order. */
  lemma CurveRankOrder()
    ensures CurveRank(None) < CurveRank(Some(VShape)) < CurveRank(Some(WayUp))
            < CurveRank(Some(AShape)) < CurveRank(Some(WayDown))
  {
    CurveOrderListsEveryShape(VShape);
    CurveOrderListsEveryShape(WayUp);
    CurveOrderListsEveryShape(AShape);
    CurveOrderListsEveryShape(WayDown);
  }

  /** Rebound sort by a numeric column, or by rank (never null), orders like the
      performance sort: nulls at the low end. */
  lemma ReboundNumericSortOrder(rows: seq<ReboundRow>, k: ReboundSortKey, dir: SortDir)
    requires k != Curve
    ensures var r := SortedRebound(rows, Some(k), dir);
      forall i, j :: 0 <= i < j < |r| ==>
        if dir == Asc then NullableLe(ReboundField(r[i], k), ReboundField(r[j], k))
        else NullableLe(ReboundField(r[j], k), ReboundField(r[i], k))
  {
    var r := SortedRebound(rows, Some(k), dir);
    forall i, j | 0 <= i < j < |r|
      ensures if dir == Asc then NullableLe(ReboundField(r[i], k), ReboundField(r[j], k))
              else NullableLe(ReboundField(r[j], k), ReboundField(r[i], k))
    {
      assert Compare(dir, ReboundKeyOf(k)(r[i]), ReboundKeyOf(k)(r[j])) <= 0;
    }
  }
}
