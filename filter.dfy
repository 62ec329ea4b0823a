/** The filter stage (`filterRows` in web/src/App.tsx): a row is kept when its lower-cased
    symbol, or its lower-cased name (a missing name reads as ''), contains the trimmed,
    lower-cased query. A blank query keeps the rows as they are. */
module Filter {
  import opened Types
  import opened Text

  /** The two searchable fields every row kind has. */
  datatype Label = Label(symbol: string, name: Option<string>)

  function SctrLabel(r: SctrRow): Label { Label(r.symbol, r.name) }

  function ReboundLabel(r: ReboundRow): Label { Label(r.symbol, r.name) }

  /** `r.name ?? ''` */
  function NameOrEmpty(name: Option<string>): string
  {
    match name
    case None => ""
    case Some(n) => n
  }

  /** The predicate given to `rows.filter`, for an already trimmed and lower-cased query. */
  predicate Matches(l: Label, q: string)
  {
    Contains(Lower(l.symbol), q) || Contains(Lower(NameOrEmpty(l.name)), q)
  }

  /** The query as `filterRows` uses it: trimmed, then lower-cased. */
  function Needle(query: string): string
  {
    Lower(Trim(query))
  }

  /** Lower-casing keeps the length, so past the blank-query early return the needle
      is never empty. */
  lemma NeedleNonEmpty(query: string)
    ensures |Needle(query)| == |Trim(query)|
    ensures Trim(query) != [] ==> Needle(query) != []
  {
  }

  /** A row survives filtering: the query is blank, or the row matches it. */
  predicate Selected(l: Label, query: string)
  {
    Trim(query) == [] || Matches(l, Needle(query))
  }

  /** `rows.filter(p)`, one row at a time from the front. */
  function Keep<T>(rows: seq<T>, p: T -> bool): (r: seq<T>)
    ensures |r| <= |rows|
    ensures forall x :: x in r ==> x in rows
    ensures (forall i :: 0 <= i < |rows| ==> p(rows[i])) ==> r == rows
  {
    if rows == [] then []
    else (if p(rows[0]) then [rows[0]] else []) + Keep(rows[1..], p)
  }

  /** Every row `rows.filter(p)` returns satisfies `p`. */
  lemma {:induction false} KeepSound<T>(rows: seq<T>, p: T -> bool)
    ensures forall k :: 0 <= k < |Keep(rows, p)| ==> p(Keep(rows, p)[k])
  {
    if rows != [] {
      KeepSound(rows[1..], p);
    }
  }

  /** The callback `filterRows` hands to `rows.filter`. */
  function MatcherOf<T>(labelOf: T -> Label, q: string): T -> bool
  {
    x => Matches(labelOf(x), q)
  }

  /** A row survives `filterRows(_, query)`, as a callback. */
  function SelectorOf<T>(labelOf: T -> Label, query: string): T -> bool
  {
    x => Selected(labelOf(x), query)
  }

  /** `filterRows(rows, query)`: the rows whose label is selected by the query. */
  function FilterRows<T>(rows: seq<T>, labelOf: T -> Label, query: string): (r: seq<T>)
    ensures Trim(query) == [] ==> r == rows
    ensures |r| <= |rows|
    ensures forall x :: x in r ==> x in rows
    ensures forall k :: 0 <= k < |r| ==> Selected(labelOf(r[k]), query)
  {
    if Trim(query) == [] then rows
    else
      KeepSound(rows, MatcherOf(labelOf, Needle(query)));
      Keep(rows, MatcherOf(labelOf, Needle(query)))
  }

  /** `idx` picks out exactly the rows of `rows` that satisfy `p`, in order, and they
      make up `r`. */
  ghost predicate PicksOut<T>(idx: seq<nat>, rows: seq<T>, p: T -> bool, r: seq<T>)
  {
    && |idx| == |r|
    && (forall k :: 0 <= k < |idx| ==> idx[k] < |rows| && r[k] == rows[idx[k]])
    && (forall k, l :: 0 <= k < l < |idx| ==> idx[k] < idx[l])
    && (forall i :: 0 <= i < |rows| ==> (i in idx <==> p(rows[i])))
  }

  /** Every index moved one place to the right. */
  function Shift(tail: seq<nat>): (s: seq<nat>)
    ensures |s| == |tail|
    ensures forall k :: 0 <= k < |s| ==> s[k] == tail[k] + 1
    ensures forall i: int :: i in s <==> 1 <= i && i - 1 in tail
  {
    var s := seq(|tail|, k requires 0 <= k < |tail| => tail[k] + 1);
    assert forall i: int :: 1 <= i && i - 1 in tail ==> i in s by {
      forall i: int | 1 <= i && i - 1 in tail ensures i in s {
        var k :| 0 <= k < |tail| && tail[k] == i - 1;
        assert s[k] == i;
      }
    }
    s
  }

  /** The indices of the rows behind the head, moved one place to the right. */
  lemma Shifted<T>(rows: seq<T>, p: T -> bool, tail: seq<nat>, rest: seq<T>)
    requires rows != []
    requires PicksOut(tail, rows[1..], p, rest)
    ensures |Shift(tail)| == |rest|
    ensures forall k :: 0 <= k < |rest| ==> 1 <= Shift(tail)[k] < |rows| && rest[k] == rows[Shift(tail)[k]]
    ensures forall k, l :: 0 <= k < l < |rest| ==> Shift(tail)[k] < Shift(tail)[l]
    ensures forall i :: 1 <= i < |rows| ==> (i in Shift(tail) <==> p(rows[i]))
    ensures 0 !in Shift(tail)
  {
    var s := Shift(tail);
    forall k | 0 <= k < |s| ensures 1 <= s[k] < |rows| && rest[k] == rows[s[k]] {
      assert rest[k] == rows[1..][tail[k]];
    }
    forall i | 1 <= i < |rows| ensures i in s <==> p(rows[i]) {
      assert rows[1..][i - 1] == rows[i];
    }
  }

  /** With the head kept, its index goes in front of the shifted ones. */
  lemma PrependHead<T>(rows: seq<T>, p: T -> bool, s: seq<nat>, rest: seq<T>)
    requires rows != [] && p(rows[0])
    requires |s| == |rest|
    requires forall k :: 0 <= k < |s| ==> 1 <= s[k] < |rows| && rest[k] == rows[s[k]]
    requires forall k, l :: 0 <= k < l < |s| ==> s[k] < s[l]
    requires forall i :: 1 <= i < |rows| ==> (i in s <==> p(rows[i]))
    ensures PicksOut([0] + s, rows, p, [rows[0]] + rest)
  {
    var idx, r := [0] + s, [rows[0]] + rest;
    forall k | 0 <= k < |idx| ensures idx[k] < |rows| && r[k] == rows[idx[k]] {
      if k > 0 {
        assert idx[k] == s[k - 1] && r[k] == rest[k - 1];
      }
    }
    forall k, l | 0 <= k < l < |idx| ensures idx[k] < idx[l] {
      assert idx[l] == s[l - 1];
      if k > 0 {
        assert idx[k] == s[k - 1];
      }
    }
    forall i | 0 <= i < |rows| ensures i in idx <==> p(rows[i]) {
      assert i in idx <==> i == 0 || i in s;
    }
  }

  /** The filtered rows are exactly the rows satisfying `p`, in input order: an increasing
      index map picks them out, and an input position is picked iff its row satisfies `p`. */
  lemma {:induction false} KeepIsSubsequence<T>(rows: seq<T>, p: T -> bool)
    returns (idx: seq<nat>)
    ensures PicksOut(idx, rows, p, Keep(rows, p))
  {
    if rows == [] {
      idx := [];
    } else {
      var rest := Keep(rows[1..], p);
      var tail := KeepIsSubsequence(rows[1..], p);
      Shifted(rows, p, tail, rest);
      var s := Shift(tail);
      if p(rows[0]) {
        assert Keep(rows, p) == [rows[0]] + rest;
        PrependHead(rows, p, s, rest);
        idx := [0] + s;
      } else {
        assert Keep(rows, p) == rest;
        idx := s;
      }
    }
  }

  /** `filterRows` returns an order-preserving subsequence of its input that keeps exactly
      the selected rows. */
  lemma FilterIsSubsequence<T>(rows: seq<T>, labelOf: T -> Label, query: string)
    returns (idx: seq<nat>)
    ensures PicksOut(idx, rows, SelectorOf(labelOf, query), FilterRows(rows, labelOf, query))
  {
    var selected := SelectorOf(labelOf, query);
    if Trim(query) == [] {
      idx := seq(|rows|, i requires 0 <= i < |rows| => i);
      forall i | 0 <= i < |rows| ensures i in idx <==> selected(rows[i]) {
        assert idx[i] == i;
      }
    } else {
      var matches := MatcherOf(labelOf, Needle(query));
      idx := KeepIsSubsequence(rows, matches);
      assert forall i :: 0 <= i < |rows| ==> matches(rows[i]) == selected(rows[i]);
    }
  }
}
