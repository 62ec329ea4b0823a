/** The sort engine shared by the client's tables and the backend's rank sort: the
    comparators of web/src/App.tsx (a null field is `-Infinity`, and a `NaN` difference
    counts as 0, as `Array.prototype.sort` reads it), and a stable sort. Both JavaScript's
    `Array.prototype.sort` (ECMA-262, 2019 edition and later) and Python's `list.sort` are
    stable, so the sort is modelled as a stable insertion sort. */
module Sorting {
  import opened Types

  /** A sort key as the comparators see it: `row[key] ?? -Infinity`. */
  datatype Key = NegInf | Finite(v: real)

  /** The strict order on keys: `-Infinity` lies below every number. */
  predicate Below(a: Key, b: Key)
  {
    match (a, b)
    case (NegInf, Finite(_)) => true
    case (Finite(x), Finite(y)) => x < y
    case _ => false
  }

  /** The value of `x - y` in IEEE arithmetic, for the operands keys can produce. */
  datatype Diff = DiffNegInf | DiffFinite(d: real) | DiffPosInf | DiffNaN

  function Subtract(x: Key, y: Key): Diff
  {
    match (x, y)
    case (Finite(a), Finite(b)) => DiffFinite(a - b)
    case (Finite(_), NegInf) => DiffPosInf
    case (NegInf, Finite(_)) => DiffNegInf
    case (NegInf, NegInf) => DiffNaN
  }

  /** The sign `Array.prototype.sort` reads from a comparator result (NaN reads as 0). */
  function Sign(d: Diff): int
  {
    match d
    case DiffNegInf => -1
    case DiffPosInf => 1
    case DiffNaN => 0
    case DiffFinite(r) => if r < 0.0 then -1 else if r > 0.0 then 1 else 0
  }

  /** `x - y` is negative exactly when `x` lies below `y`, and reads as 0 exactly when the
      two keys are equal (two nulls give NaN, which reads as 0). */
  lemma SignOfDifference(x: Key, y: Key)
    ensures Sign(Subtract(x, y)) < 0 <==> Below(x, y)
    ensures Sign(Subtract(x, y)) == 0 <==> x == y
  {
    match (x, y)
    case (Finite(p), Finite(q)) =>
    case (Finite(_), NegInf) =>
    case (NegInf, Finite(_)) =>
    case (NegInf, NegInf) =>
  }

  /** The comparator: `vb - va` descending, `va - vb` ascending. A negative result puts
      `a` first. It orders keys by `Below` (reversed when descending), and it ties
      exactly the equal keys, two nulls included. */
  function Compare(dir: SortDir, a: Key, b: Key): (c: int)
    ensures -1 <= c <= 1
    ensures c < 0 <==> (if dir == Asc then Below(a, b) else Below(b, a))
    ensures c == 0 <==> a == b
  {
    match dir
    case Asc =>
      SignOfDifference(a, b);
      Sign(Subtract(a, b))
    case Desc =>
      SignOfDifference(b, a);
      Sign(Subtract(b, a))
  }

  /** The comparator is consistent in the sense ECMA-262 demands of a sort comparator. */
  lemma CompareTransitive(dir: SortDir, a: Key, b: Key, c: Key)
    requires Compare(dir, a, b) <= 0 && Compare(dir, b, c) <= 0
    ensures Compare(dir, a, c) <= 0
    ensures Compare(dir, a, b) < 0 || Compare(dir, b, c) < 0 ==> Compare(dir, a, c) < 0
  {
  }

  /** No element is placed after one the comparator puts strictly before it. */
  ghost predicate Sorted<T>(s: seq<T>, key: T -> Key, dir: SortDir)
  {
    forall i, j :: 0 <= i < j < |s| ==> Compare(dir, key(s[i]), key(s[j])) <= 0
  }

  /** Every element is placed strictly before each later one (no ties at all). */
  ghost predicate StrictlySorted<T>(s: seq<T>, key: T -> Key, dir: SortDir)
  {
    forall i, j :: 0 <= i < j < |s| ==> Compare(dir, key(s[i]), key(s[j])) < 0
  }

  /** The elements of `s` whose key is `k`, in the order of `s`. */
  function Select<T>(s: seq<T>, key: T -> Key, k: Key): seq<T>
  {
    if s == [] then [] else (if key(s[0]) == k then [s[0]] else []) + Select(s[1..], key, k)
  }

  /** Puts `x` in front of the first element that is not strictly before it. */
  function Insert<T>(x: T, s: seq<T>, key: T -> Key, dir: SortDir): (r: seq<T>)
    ensures |r| == |s| + 1
    ensures multiset(r) == multiset(s) + multiset{x}
  {
    if s == [] || Compare(dir, key(s[0]), key(x)) >= 0 then [x] + s
    else
      assert s == [s[0]] + s[1..];
      [s[0]] + Insert(x, s[1..], key, dir)
  }

  /** `[...rows].sort(comparator)`: a new sequence holding the same rows. */
  function SortBy<T>(s: seq<T>, key: T -> Key, dir: SortDir): (r: seq<T>)
    ensures |r| == |s|
    ensures multiset(r) == multiset(s)
  {
    if s == [] then []
    else
      assert s == [s[0]] + s[1..];
      Insert(s[0], SortBy(s[1..], key, dir), key, dir)
  }

  /** Every element of `Insert(x, s)` is `x` or an element of `s`. */
  lemma InsertMember<T>(x: T, s: seq<T>, key: T -> Key, dir: SortDir, m: nat)
    requires m < |s| + 1
    ensures Insert(x, s, key, dir)[m] == x || exists i :: 0 <= i < |s| && s[i] == Insert(x, s, key, dir)[m]
  {
    var y := Insert(x, s, key, dir)[m];
    assert y in multiset(Insert(x, s, key, dir));
    if y != x {
      assert y in multiset(s);
    }
  }

  lemma {:induction false} InsertSorted<T>(x: T, s: seq<T>, key: T -> Key, dir: SortDir)
    requires Sorted(s, key, dir)
    ensures Sorted(Insert(x, s, key, dir), key, dir)
  {
    var r := Insert(x, s, key, dir);
    if s == [] || Compare(dir, key(s[0]), key(x)) >= 0 {
      assert r == [x] + s;
      forall i, j | 0 <= i < j < |r| ensures Compare(dir, key(r[i]), key(r[j])) <= 0 {
        if i == 0 {
          assert r[j] == s[j - 1];
          if j > 1 {
            CompareTransitive(dir, key(x), key(s[0]), key(s[j - 1]));
          }
        } else {
          assert r[i] == s[i - 1] && r[j] == s[j - 1];
        }
      }
    } else {
      var tail := s[1..];
      var rest := Insert(x, tail, key, dir);
      assert r == [s[0]] + rest;
      assert Sorted(tail, key, dir) by {
        forall i, j | 0 <= i < j < |tail| ensures Compare(dir, key(tail[i]), key(tail[j])) <= 0 {
          assert tail[i] == s[i + 1] && tail[j] == s[j + 1];
        }
      }
      InsertSorted(x, tail, key, dir);
      forall j | 0 <= j < |rest| ensures Compare(dir, key(s[0]), key(rest[j])) <= 0 {
        InsertMember(x, tail, key, dir, j);
        if rest[j] != x {
          var m :| 0 <= m < |tail| && tail[m] == rest[j];
          assert s[m + 1] == rest[j];
        }
      }
      forall i, j | 0 <= i < j < |r| ensures Compare(dir, key(r[i]), key(r[j])) <= 0 {
        assert r[j] == rest[j - 1];
        if i > 0 {
          assert r[i] == rest[i - 1];
        }
      }
    }
  }

  /** The sorted view is ordered by the comparator. */
  lemma {:induction false} SortBySorted<T>(s: seq<T>, key: T -> Key, dir: SortDir)
    ensures Sorted(SortBy(s, key, dir), key, dir)
  {
    if s != [] {
      SortBySorted(s[1..], key, dir);
      InsertSorted(s[0], SortBy(s[1..], key, dir), key, dir);
    }
  }

  lemma SelectCons<T>(x: T, t: seq<T>, key: T -> Key, k: Key)
    ensures Select([x] + t, key, k) == (if key(x) == k then [x] else []) + Select(t, key, k)
  {
    assert ([x] + t)[1..] == t;
  }

  /** Inserting `x` puts it in front of every element that ties with it. */
  lemma {:induction false} InsertSelect<T>(x: T, s: seq<T>, key: T -> Key, dir: SortDir, k: Key)
    ensures Select(Insert(x, s, key, dir), key, k) == (if key(x) == k then [x] else []) + Select(s, key, k)
  {
    if s == [] || Compare(dir, key(s[0]), key(x)) >= 0 {
      SelectCons(x, s, key, k);
    } else {
      var rest := Insert(x, s[1..], key, dir);
      assert Insert(x, s, key, dir) == [s[0]] + rest;
      SelectCons(s[0], rest, key, k);
      InsertSelect(x, s[1..], key, dir, k);
      assert s == [s[0]] + s[1..];
      SelectCons(s[0], s[1..], key, k);
      assert key(s[0]) != key(x);
      if key(x) == k {
        assert Select(Insert(x, s, key, dir), key, k) == [x] + Select(s[1..], key, k);
      } else if key(s[0]) == k {
        assert Select(Insert(x, s, key, dir), key, k) == [s[0]] + Select(s[1..], key, k);
      }
    }
  }

  lemma {:induction false} SortByStableAt<T>(s: seq<T>, key: T -> Key, dir: SortDir, k: Key)
    ensures Select(SortBy(s, key, dir), key, k) == Select(s, key, k)
  {
    if s != [] {
      SortByStableAt(s[1..], key, dir, k);
      InsertSelect(s[0], SortBy(s[1..], key, dir), key, dir, k);
    }
  }

  /** Stability: for every key value, the rows carrying it keep their relative order. */
  lemma SortByStable<T>(s: seq<T>, key: T -> Key, dir: SortDir)
    ensures forall k :: Select(SortBy(s, key, dir), key, k) == Select(s, key, k)
  {
    forall k ensures Select(SortBy(s, key, dir), key, k) == Select(s, key, k) {
      SortByStableAt(s, key, dir, k);
    }
  }

  /** A tie-free sequence and a sorted one holding the same elements start alike. */
  lemma SameHead<T>(a: seq<T>, b: seq<T>, key: T -> Key, dir: SortDir)
    requires a != [] && b != []
    requires StrictlySorted(a, key, dir)
    requires Sorted(b, key, dir)
    requires multiset(a) == multiset(b)
    ensures a[0] == b[0]
  {
    assert b[0] in multiset(a);
    var i :| 0 <= i < |a| && a[i] == b[0];
    assert a[0] in multiset(b);
    var j :| 0 <= j < |b| && b[j] == a[0];
    if i != 0 {
      assert Compare(dir, key(a[0]), key(a[i])) < 0;
      if j != 0 {
        assert Compare(dir, key(b[0]), key(b[j])) <= 0;
        CompareTransitive(dir, key(a[0]), key(a[i]), key(b[j]));
      }
      assert false;
    }
  }

  lemma SortedTail<T>(s: seq<T>, key: T -> Key, dir: SortDir)
    requires s != []
    ensures Sorted(s, key, dir) ==> Sorted(s[1..], key, dir)
    ensures StrictlySorted(s, key, dir) ==> StrictlySorted(s[1..], key, dir)
  {
    forall i, j | 0 <= i < j < |s| - 1 ensures s[1..][i] == s[i + 1] && s[1..][j] == s[j + 1] {
    }
  }

  lemma MultisetTail<T>(a: seq<T>, b: seq<T>)
    requires a != [] && b != [] && a[0] == b[0]
    requires multiset(a) == multiset(b)
    ensures multiset(a[1..]) == multiset(b[1..])
  {
    assert a == [a[0]] + a[1..] && b == [b[0]] + b[1..];
    assert multiset(a[1..]) == multiset(a) - multiset{a[0]};
    assert multiset(b[1..]) == multiset(b) - multiset{b[0]};
  }

  /** A sequence with no ties is the only sorted arrangement of its elements. */
  lemma {:induction false} SortedUnique<T>(a: seq<T>, b: seq<T>, key: T -> Key, dir: SortDir)
    requires StrictlySorted(a, key, dir)
    requires Sorted(b, key, dir)
    requires multiset(a) == multiset(b)
    ensures a == b
  {
    assert |multiset(a)| == |a| && |multiset(b)| == |b|;
    if a != [] {
      SameHead(a, b, key, dir);
      MultisetTail(a, b);
      SortedTail(a, key, dir);
      SortedTail(b, key, dir);
      SortedUnique(a[1..], b[1..], key, dir);
      assert a == [a[0]] + a[1..] && b == [b[0]] + b[1..];
    }
  }
}
