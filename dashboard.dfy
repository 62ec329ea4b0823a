/** The assembly endpoints of api/main.py: `api_sctr_top300` numbers the scraped rows,
    and `api_dashboard` fetches every scraped symbol (plus QQQ as the reference row),
    collects the results in completion order and sorts them back by rank. The scrape and
    the per-symbol fetches are inputs: one outcome per job (the fetched data, or the
    all-null row a failed fetch is replaced by) and the order in which the jobs finished. */
module Dashboard {
  import opened Types
  import opened Sorting
  import opened Indicators

  /** A scraped table row: the four keys the endpoints read, each possibly absent. */
  datatype ScrapedRow = ScrapedRow(
    upperSymbol: Option<string>,
    lowerSymbol: Option<string>,
    upperName: Option<string>,
    lowerName: Option<string>)

  /** `a or b or ""` over two optional strings: the first one present and non-empty. */
  function FirstNonEmpty(a: Option<string>, b: Option<string>): (s: string)
    ensures s == "" <==> (a.None? || a.value == "") && (b.None? || b.value == "")
    ensures a.Some? && a.value != "" ==> s == a.value
    ensures (a.None? || a.value == "") && b.Some? ==> s == b.value
  {
    if a.Some? && a.value != "" then a.value
    else if b.Some? && b.value != "" then b.value
    else ""
  }

  /** `(rank, symbol, name)` of a scraped row. */
  datatype Meta = Meta(rank: int, symbol: string, name: string)

  /** The meta of the row at 0-based position `i`: rank `i + 1`, the symbol from "Symbol"
      then "symbol", the name from "Name" then "name". */
  function MetaOf(rows: seq<ScrapedRow>, i: nat): Meta
    requires i < |rows|
  {
    Meta(i + 1, FirstNonEmpty(rows[i].upperSymbol, rows[i].lowerSymbol), FirstNonEmpty(rows[i].upperName, rows[i].lowerName))
  }

  /** `symbols_with_meta` */
  function Metas(rows: seq<ScrapedRow>): (m: seq<Meta>)
    ensures |m| == |rows|
    ensures forall i :: 0 <= i < |m| ==> m[i] == MetaOf(rows, i)
  {
    seq(|rows|, i requires 0 <= i < |rows| => MetaOf(rows, i))
  }

  /** `api_sctr_top300`: ranks 1 to n in scrape order, each with its row's symbol and name. */
  method SctrTop300(rows: seq<ScrapedRow>) returns (result: seq<Meta>)
    ensures |result| == |rows|
    ensures forall i :: 0 <= i < |rows| ==> result[i].rank == i + 1
    ensures forall i :: 0 <= i < |rows| ==> result[i].symbol == FirstNonEmpty(rows[i].upperSymbol, rows[i].lowerSymbol)
    ensures forall i :: 0 <= i < |rows| ==> result[i].name == FirstNonEmpty(rows[i].upperName, rows[i].lowerName)
  {
    result := [];
    var i := 0;
    while i < |rows|
      invariant 0 <= i <= |rows|
      invariant |result| == i
      invariant forall k :: 0 <= k < i ==> result[k] == MetaOf(rows, k)
    {
      var symbol := FirstNonEmpty(rows[i].upperSymbol, rows[i].lowerSymbol);
      var name := FirstNonEmpty(rows[i].upperName, rows[i].lowerName);
      result := result + [Meta(i + 1, symbol, name)];
      i := i + 1;
    }
  }

  const QQQ: string := "QQQ"

  /** The scraped rows that get a fetch: those with a non-empty symbol, in scrape order. */
  function Submitted(metas: seq<Meta>): (s: seq<Meta>)
    ensures forall m :: m in s ==> m in metas && m.symbol != ""
    ensures forall m :: m in metas && m.symbol != "" ==> m in s
  {
    if metas == [] then []
    else (if metas[0].symbol != "" then [metas[0]] else []) + Submitted(metas[1..])
  }

  /** `"QQQ" in symbols` */
  predicate ScrapedQqq(metas: seq<Meta>)
  {
    exists m :: m in Submitted(metas) && m.symbol == QQQ
  }

  /** The jobs of `future_to_idx`, in submission order: every scraped row with a symbol,
      then QQQ with rank -1 and no name when the scrape did not list it. */
  function Jobs(metas: seq<Meta>): (jobs: seq<Meta>)
    ensures |Submitted(metas)| <= |jobs| <= |Submitted(metas)| + 1
    ensures jobs[..|Submitted(metas)|] == Submitted(metas)
    ensures forall k :: |Submitted(metas)| <= k < |jobs| ==> !ScrapedQqq(metas) && jobs[k] == Meta(-1, QQQ, "")
    ensures forall k :: 0 <= k < |jobs| ==> jobs[k].symbol != ""
  {
    var sub := Submitted(metas);
    var jobs := sub + (if ScrapedQqq(metas) then [] else [Meta(-1, QQQ, "")]);
    assert forall k :: 0 <= k < |sub| ==> jobs[k] == sub[k] && sub[k] in sub;
    jobs
  }

  /** The reference row, from a perf block. */
  function RefOf(p: Perf): QqqRef
  {
    QqqRef(p.perf1d, p.perf5d, p.perf20d, p.perf60d)
  }

  function PerfRowOf(job: Meta, p: Perf): SctrRow
  {
    SctrRow(job.rank, job.symbol, Some(job.name), p.perf1d, p.perf5d, p.perf20d, p.perf60d, p.rsi14)
  }

  function ReboundRowOf(job: Meta, r: Rebound): ReboundRow
  {
    ReboundRow(job.rank, job.symbol, Some(job.name), r.ri, r.p1Pl, r.p5Pl, r.d5D1GainRatio, r.rsi14, r.curveShape)
  }

  /** What finishing job `j` appends to `perf_list`: nothing for QQQ. */
  function PerfEntry(jobs: seq<Meta>, outcomes: seq<SymbolData>): nat -> Option<SctrRow>
  {
    (j: nat) => if j < |jobs| && j < |outcomes| && jobs[j].symbol != QQQ then Some(PerfRowOf(jobs[j], outcomes[j].perf)) else None
  }

  /** What finishing job `j` appends to `rebound_list`: nothing for QQQ. */
  function ReboundEntry(jobs: seq<Meta>, outcomes: seq<SymbolData>): nat -> Option<ReboundRow>
  {
    (j: nat) => if j < |jobs| && j < |outcomes| && jobs[j].symbol != QQQ then Some(ReboundRowOf(jobs[j], outcomes[j].rebound)) else None
  }

  /** What a sequence of finished jobs appends, in that order. */
  function Harvest<A>(idx: seq<nat>, f: nat -> Option<A>): (r: seq<A>)
    ensures |r| <= |idx|
  {
    if idx == [] then []
    else
      var init := Harvest(idx[..|idx| - 1], f);
      match f(idx[|idx| - 1])
      case None => init
      case Some(x) => init + [x]
  }

  /** `[0, 1, ..., n - 1]` */
  function Indices(n: nat): (s: seq<nat>)
    ensures |s| == n && forall i :: 0 <= i < n ==> s[i] == i
  {
    seq(n, i requires 0 <= i < n => i)
  }

  function PerfRank(r: SctrRow): Key { Finite(r.rank as real) }

  function ReboundRank(r: ReboundRow): Key { Finite(r.rank as real) }

  /** The perf list the endpoint returns whatever the completion order: the perf rows of
      the jobs, in submission order. */
  function ExpectedPerf(rows: seq<ScrapedRow>, outcomes: seq<SymbolData>): (r: seq<SctrRow>)
    ensures |r| <= |Jobs(Metas(rows))|
  {
    var jobs := Jobs(Metas(rows));
    Harvest(Indices(|jobs|), PerfEntry(jobs, outcomes))
  }

  function ExpectedRebound(rows: seq<ScrapedRow>, outcomes: seq<SymbolData>): (r: seq<ReboundRow>)
    ensures |r| <= |Jobs(Metas(rows))|
  {
    var jobs := Jobs(Metas(rows));
    Harvest(Indices(|jobs|), ReboundEntry(jobs, outcomes))
  }

  lemma {:induction false} HarvestAppend<A>(a: seq<nat>, b: seq<nat>, f: nat -> Option<A>)
    ensures Harvest(a + b, f) == Harvest(a, f) + Harvest(b, f)
    decreases |b|
  {
    if b == [] {
      assert a + b == a;
    } else {
      var n := |b| - 1;
      assert (a + b)[..|a + b| - 1] == a + b[..n];
      assert (a + b)[|a + b| - 1] == b[n];
      HarvestAppend(a, b[..n], f);
    }
  }

  /** The sequence without its element at `j`, as multisets. */
  lemma RemoveAt<T>(b: seq<T>, j: nat)
    requires j < |b|
    ensures b == b[..j] + ([b[j]] + b[j + 1..])
    ensures multiset(b[..j] + b[j + 1..]) == multiset(b) - multiset{b[j]}
  {
    assert b == b[..j] + ([b[j]] + b[j + 1..]);
  }

  /** The harvest of three runs of jobs, as multisets. */
  lemma HarvestSplit<A>(pre: seq<nat>, x: nat, post: seq<nat>, f: nat -> Option<A>)
    ensures multiset(Harvest(pre + ([x] + post), f))
         == multiset(Harvest([x], f)) + multiset(Harvest(pre + post, f))
  {
    HarvestAppend(pre, [x] + post, f);
    HarvestAppend([x], post, f);
    HarvestAppend(pre, post, f);
  }

  /** Taking the job at position `j` out of `b` takes its row out of the harvest. */
  lemma HarvestRemove<A>(b: seq<nat>, j: nat, f: nat -> Option<A>)
    requires j < |b|
    ensures multiset(b[..j] + b[j + 1..]) == multiset(b) - multiset{b[j]}
    ensures multiset(Harvest(b, f)) == multiset(Harvest([b[j]], f)) + multiset(Harvest(b[..j] + b[j + 1..], f))
  {
    RemoveAt(b, j);
    HarvestSplit(b[..j], b[j], b[j + 1..], f);
  }

  /** The rows a set of finished jobs appends do not depend on the order they finished
      in, as a multiset. */
  lemma {:induction false} HarvestPermutation<A>(a: seq<nat>, b: seq<nat>, f: nat -> Option<A>)
    requires multiset(a) == multiset(b)
    ensures multiset(Harvest(a, f)) == multiset(Harvest(b, f))
    decreases |a|
  {
    if a == [] {
      assert |b| == |multiset(b)| == 0;
    } else {
      assert a[0] in multiset(b);
      var j :| 0 <= j < |b| && b[j] == a[0];
      var rest := b[..j] + b[j + 1..];
      HarvestRemove(b, j, f);
      HarvestRemove(a, 0, f);
      assert a[..0] + a[1..] == a[1..];
      HarvestPermutation(a[1..], rest, f);
    }
  }

  /** Where each harvested row came from: `src[k]` is the position in `idx` of the job
      that appended row `k`; positions increase, and every job that appends is listed. */
  ghost predicate SourcedBy<A>(src: seq<nat>, idx: seq<nat>, f: nat -> Option<A>, r: seq<A>)
  {
    && |src| == |r|
    && (forall k :: 0 <= k < |src| ==> src[k] < |idx| && f(idx[src[k]]) == Some(r[k]))
    && (forall k, l :: 0 <= k < l < |src| ==> src[k] < src[l])
    && (forall p :: 0 <= p < |idx| && f(idx[p]).Some? ==> p in src)
  }

  /** One more finished job: its row, if any, comes from the last position. */
  lemma ExtendSources<A>(init: seq<nat>, last: nat, f: nat -> Option<A>, s0: seq<nat>) returns (src: seq<nat>)
    requires SourcedBy(s0, init, f, Harvest(init, f))
    ensures SourcedBy(src, init + [last], f, Harvest(init + [last], f))
  {
    var idx := init + [last];
    var n := |init|;
    assert idx[..n] == init;
    var h0 := Harvest(init, f);
    var r := Harvest(idx, f);
    assert forall p :: 0 <= p < n ==> idx[p] == init[p];
    if f(last).Some? {
      src := s0 + [n];
      assert r == h0 + [f(last).value];
      forall k | 0 <= k < |src| ensures src[k] < |idx| && f(idx[src[k]]) == Some(r[k]) {
        if k < |s0| {
          assert src[k] == s0[k] && r[k] == h0[k];
        }
      }
      forall p | 0 <= p < |idx| && f(idx[p]).Some? ensures p in src {
        if p < n {
          assert p in s0;
        }
      }
    } else {
      src := s0;
      assert r == h0;
    }
  }

  lemma {:induction false} HarvestSources<A>(idx: seq<nat>, f: nat -> Option<A>) returns (src: seq<nat>)
    ensures SourcedBy(src, idx, f, Harvest(idx, f))
  {
    if idx == [] {
      src := [];
    } else {
      var n := |idx| - 1;
      var s0 := HarvestSources(idx[..n], f);
      assert idx == idx[..n] + [idx[n]];
      src := ExtendSources(idx[..n], idx[n], f, s0);
    }
  }

  /** Jobs that finish in increasing key order append rows in strictly increasing order. */
  lemma HarvestStrictlySorted<A>(idx: seq<nat>, f: nat -> Option<A>, key: A -> Key)
    requires forall p, q :: 0 <= p < q < |idx| && f(idx[p]).Some? && f(idx[q]).Some? ==>
      Below(key(f(idx[p]).value), key(f(idx[q]).value))
    ensures StrictlySorted(Harvest(idx, f), key, Asc)
  {
    var r := Harvest(idx, f);
    var src := HarvestSources(idx, f);
    forall k, l | 0 <= k < l < |r| ensures Compare(Asc, key(r[k]), key(r[l])) < 0 {
      assert f(idx[src[k]]) == Some(r[k]) && f(idx[src[l]]) == Some(r[l]);
    }
  }

  /** Two harvests over the same jobs whose entries agree on which jobs append, and on the
      meta of what they append, agree row by row on that meta. */
  lemma {:induction false} HarvestParallel(idx: seq<nat>, f: nat -> Option<SctrRow>, g: nat -> Option<ReboundRow>)
    requires forall j :: f(j).Some? == g(j).Some?
    requires forall j :: f(j).Some? ==> PerfMeta(f(j).value) == ReboundMeta(g(j).value)
    ensures |Harvest(idx, f)| == |Harvest(idx, g)|
    ensures forall k :: 0 <= k < |Harvest(idx, f)| ==> PerfMeta(Harvest(idx, f)[k]) == ReboundMeta(Harvest(idx, g)[k])
  {
    if idx != [] {
      HarvestParallel(idx[..|idx| - 1], f, g);
    }
  }

  function PerfMeta(r: SctrRow): Meta { Meta(r.rank, r.symbol, if r.name.Some? then r.name.value else "") }

  function ReboundMeta(r: ReboundRow): Meta { Meta(r.rank, r.symbol, if r.name.Some? then r.name.value else "") }

  /** Submission keeps the scrape's strictly increasing ranks. */
  lemma {:induction false} SubmittedRanksIncrease(metas: seq<Meta>)
    requires forall p, q :: 0 <= p < q < |metas| ==> metas[p].rank < metas[q].rank
    ensures forall p, q :: 0 <= p < q < |Submitted(metas)| ==> Submitted(metas)[p].rank < Submitted(metas)[q].rank
  {
    if metas != [] {
      var tail := Submitted(metas[1..]);
      SubmittedRanksIncrease(metas[1..]);
      forall m | m in tail ensures metas[0].rank < m.rank {
        var q :| 0 <= q < |metas[1..]| && metas[1..][q] == m;
        assert metas[q + 1] == m;
      }
    }
  }

  /** Every job but the added QQQ one is the meta of the scraped row at its rank. */
  lemma JobsAreScraped(rows: seq<ScrapedRow>)
    ensures var jobs := Jobs(Metas(rows));
      forall j :: 0 <= j < |jobs| && jobs[j].rank != -1 ==>
        1 <= jobs[j].rank <= |rows| && jobs[j] == MetaOf(rows, jobs[j].rank - 1)
  {
    var metas := Metas(rows);
    var sub := Submitted(metas);
    var jobs := Jobs(metas);
    forall j | 0 <= j < |jobs| && jobs[j].rank != -1
      ensures 1 <= jobs[j].rank <= |rows| && jobs[j] == MetaOf(rows, jobs[j].rank - 1)
    {
      assert j < |sub|;
      assert jobs[j] in metas;
    }
  }

  /** Some job is QQQ: the scraped one, or the one added for the reference row. */
  lemma JobsIncludeQqq(rows: seq<ScrapedRow>)
    ensures var jobs := Jobs(Metas(rows));
      exists j :: 0 <= j < |jobs| && jobs[j].symbol == QQQ
  {
    var metas := Metas(rows);
    var sub := Submitted(metas);
    var jobs := Jobs(metas);
    if ScrapedQqq(metas) {
      var m :| m in sub && m.symbol == QQQ;
      var j :| 0 <= j < |sub| && sub[j] == m;
      assert jobs[j].symbol == QQQ;
    } else {
      assert jobs[|sub|].symbol == QQQ;
    }
  }

  /** Every job has a symbol; every job but the added QQQ one is the meta of the scraped
      row at its rank; the jobs other than QQQ come in strictly increasing rank; and some
      job is QQQ. */
  lemma JobsFacts(rows: seq<ScrapedRow>)
    ensures var jobs := Jobs(Metas(rows));
      && (forall j :: 0 <= j < |jobs| ==> jobs[j].symbol != "")
      && (forall j :: 0 <= j < |jobs| && jobs[j].rank != -1 ==>
            1 <= jobs[j].rank <= |rows| && jobs[j] == MetaOf(rows, jobs[j].rank - 1))
      && (forall p, q :: 0 <= p < q < |jobs| && jobs[p].symbol != QQQ && jobs[q].symbol != QQQ ==>
            jobs[p].rank < jobs[q].rank)
      && (exists j :: 0 <= j < |jobs| && jobs[j].symbol == QQQ)
  {
    SubmittedRanksIncrease(Metas(rows));
    JobsAreScraped(rows);
    JobsIncludeQqq(rows);
  }

  /** The perf list is in strictly increasing rank. */
  lemma ExpectedPerfSorted(rows: seq<ScrapedRow>, outcomes: seq<SymbolData>)
    ensures StrictlySorted(ExpectedPerf(rows, outcomes), PerfRank, Asc)
  {
    var jobs := Jobs(Metas(rows));
    var idx := Indices(|jobs|);
    var f := PerfEntry(jobs, outcomes);
    JobsFacts(rows);
    forall p, q | 0 <= p < q < |idx| && f(idx[p]).Some? && f(idx[q]).Some?
      ensures Below(PerfRank(f(idx[p]).value), PerfRank(f(idx[q]).value))
    {
      assert jobs[p].symbol != QQQ && jobs[q].symbol != QQQ;
    }
    HarvestStrictlySorted(idx, f, PerfRank);
  }

  /** Every perf row is a scraped symbol other than QQQ, with the rank, symbol and name of
      the scraped row at that rank. */
  lemma ExpectedPerfRows(rows: seq<ScrapedRow>, outcomes: seq<SymbolData>)
    ensures var perf := ExpectedPerf(rows, outcomes);
      forall k :: 0 <= k < |perf| ==>
        && perf[k].symbol != "" && perf[k].symbol != QQQ
        && 1 <= perf[k].rank <= |rows|
        && PerfMeta(perf[k]) == MetaOf(rows, perf[k].rank - 1)
  {
    var jobs := Jobs(Metas(rows));
    var idx := Indices(|jobs|);
    var f := PerfEntry(jobs, outcomes);
    var perf := Harvest(idx, f);
    JobsFacts(rows);
    var src := HarvestSources(idx, f);
    forall k | 0 <= k < |perf|
      ensures perf[k].symbol != "" && perf[k].symbol != QQQ
      ensures 1 <= perf[k].rank <= |rows| && PerfMeta(perf[k]) == MetaOf(rows, perf[k].rank - 1)
    {
      var j := src[k];
      assert f(j) == Some(perf[k]);
      assert jobs[j].symbol != QQQ;
    }
  }

  /** The scraped row at position `i`, if it has a symbol, is a job at some position. */
  lemma SubmittedAt(rows: seq<ScrapedRow>, i: nat) returns (j: nat)
    requires i < |rows| && MetaOf(rows, i).symbol != ""
    ensures j < |Jobs(Metas(rows))| && Jobs(Metas(rows))[j] == MetaOf(rows, i)
  {
    var sub := Submitted(Metas(rows));
    assert Metas(rows)[i] == MetaOf(rows, i);
    assert MetaOf(rows, i) in sub;
    j :| 0 <= j < |sub| && sub[j] == MetaOf(rows, i);
  }

  /** Every scraped row with a symbol other than QQQ has its perf row, built from the
      outcome of its own job. */
  lemma ExpectedPerfComplete(rows: seq<ScrapedRow>, outcomes: seq<SymbolData>, i: nat)
    requires |outcomes| == |Jobs(Metas(rows))|
    requires i < |rows| && MetaOf(rows, i).symbol != "" && MetaOf(rows, i).symbol != QQQ
    ensures exists j, k ::
      && 0 <= j < |outcomes| && Jobs(Metas(rows))[j] == MetaOf(rows, i)
      && 0 <= k < |ExpectedPerf(rows, outcomes)| && ExpectedPerf(rows, outcomes)[k] == PerfRowOf(MetaOf(rows, i), outcomes[j].perf)
  {
    var jobs := Jobs(Metas(rows));
    var idx := Indices(|jobs|);
    var f := PerfEntry(jobs, outcomes);
    var src := HarvestSources(idx, f);
    var j := SubmittedAt(rows, i);
    assert f(idx[j]).Some?;
    assert j in src;
    var k :| 0 <= k < |src| && src[k] == j;
    assert ExpectedPerf(rows, outcomes) == Harvest(idx, f);
    assert Harvest(idx, f)[k] == PerfRowOf(MetaOf(rows, i), outcomes[j].perf);
    assert jobs[j] == MetaOf(rows, i);
  }

  /** The two lists carry the same (rank, symbol, name) sequence. */
  lemma PerfAndReboundAgree(rows: seq<ScrapedRow>, outcomes: seq<SymbolData>)
    ensures |ExpectedPerf(rows, outcomes)| == |ExpectedRebound(rows, outcomes)|
    ensures forall k :: 0 <= k < |ExpectedPerf(rows, outcomes)| ==>
      PerfMeta(ExpectedPerf(rows, outcomes)[k]) == ReboundMeta(ExpectedRebound(rows, outcomes)[k])
  {
    var jobs := Jobs(Metas(rows));
    HarvestParallel(Indices(|jobs|), PerfEntry(jobs, outcomes), ReboundEntry(jobs, outcomes));
  }

  /** A finished job's index is a job index. */
  lemma OrderInRange(order: seq<nat>, n: nat)
    requires multiset(order) == multiset(Indices(n))
    ensures |order| == n
    ensures forall t :: 0 <= t < |order| ==> order[t] < n
  {
    assert |order| == |multiset(order)| == |multiset(Indices(n))| == n;
    forall t | 0 <= t < |order| ensures order[t] < n {
      assert order[t] in multiset(Indices(n));
    }
  }

  /** Some job is QQQ, so some finished job is QQQ. */
  lemma QqqJobFinishes(rows: seq<ScrapedRow>, order: seq<nat>) returns (s: nat)
    requires multiset(order) == multiset(Indices(|Jobs(Metas(rows))|))
    ensures s < |order| && order[s] < |Jobs(Metas(rows))| && Jobs(Metas(rows))[order[s]].symbol == QQQ
  {
    var jobs := Jobs(Metas(rows));
    JobsFacts(rows);
    var j :| 0 <= j < |jobs| && jobs[j].symbol == QQQ;
    assert Indices(|jobs|)[j] == j;
    assert j in multiset(order);
    s :| 0 <= s < |order| && order[s] == j;
  }

  /** None of the first `t` finished jobs is QQQ. */
  predicate NoQqqAmong(jobs: seq<Meta>, order: seq<nat>, t: nat)
    requires t <= |order|
  {
    t == 0 || ((order[t - 1] >= |jobs| || jobs[order[t - 1]].symbol != QQQ) && NoQqqAmong(jobs, order, t - 1))
  }

  /** The QQQ job finishing at position `s` is the last QQQ job among the first `t` to
      finish, so its perf block is the one `qqq_data` holds after them. */
  predicate LastQqqAt(jobs: seq<Meta>, order: seq<nat>, s: nat, t: nat)
    requires t <= |order|
  {
    && s < t && order[s] < |jobs| && jobs[order[s]].symbol == QQQ
    && forall u :: s < u < t ==> order[u] >= |jobs| || jobs[order[u]].symbol != QQQ
  }

  /** Once the QQQ job has finished, the prefix is no longer free of it. */
  lemma {:induction false} QqqAmong(jobs: seq<Meta>, order: seq<nat>, t: nat, s: nat)
    requires s < t <= |order| && order[s] < |jobs| && jobs[order[s]].symbol == QQQ
    ensures !NoQqqAmong(jobs, order, t)
  {
    if s < t - 1 {
      QqqAmong(jobs, order, t - 1, s);
    }
  }

  /** Finishing one more job appends its row, if any. */
  lemma HarvestStep<A>(order: seq<nat>, t: nat, f: nat -> Option<A>)
    requires t < |order|
    ensures Harvest(order[..t + 1], f) == Harvest(order[..t], f) + (if f(order[t]).Some? then [f(order[t]).value] else [])
  {
    assert order[..t + 1][..t] == order[..t];
  }

  /** The collected list, sorted by rank, is the expected list. */
  lemma SortedHarvest<A>(order: seq<nat>, n: nat, f: nat -> Option<A>, key: A -> Key)
    requires multiset(order) == multiset(Indices(n))
    requires StrictlySorted(Harvest(Indices(n), f), key, Asc)
    ensures SortBy(Harvest(order, f), key, Asc) == Harvest(Indices(n), f)
  {
    var sorted := SortBy(Harvest(order, f), key, Asc);
    HarvestPermutation(order, Indices(n), f);
    SortBySorted(Harvest(order, f), key, Asc);
    SortedUnique(Harvest(Indices(n), f), sorted, key, Asc);
  }

  /** The rebound list is in strictly increasing rank, like the perf list. */
  lemma ExpectedReboundSorted(rows: seq<ScrapedRow>, outcomes: seq<SymbolData>)
    ensures StrictlySorted(ExpectedRebound(rows, outcomes), ReboundRank, Asc)
  {
    ExpectedPerfSorted(rows, outcomes);
    PerfAndReboundAgree(rows, outcomes);
    var perf, rebound := ExpectedPerf(rows, outcomes), ExpectedRebound(rows, outcomes);
    forall k, l | 0 <= k < l < |rebound| ensures Compare(Asc, ReboundRank(rebound[k]), ReboundRank(rebound[l])) < 0 {
      assert PerfMeta(perf[k]).rank == rebound[k].rank && PerfMeta(perf[l]).rank == rebound[l].rank;
      assert Compare(Asc, PerfRank(perf[k]), PerfRank(perf[l])) < 0;
    }
  }

  /** Whatever order the jobs finish in, sorting what they appended by rank gives the
      lists in submission order. */
  lemma CollectedListsSorted(rows: seq<ScrapedRow>, outcomes: seq<SymbolData>, order: seq<nat>)
    requires |outcomes| == |Jobs(Metas(rows))|
    requires multiset(order) == multiset(Indices(|outcomes|))
    ensures var jobs := Jobs(Metas(rows));
      && SortBy(Harvest(order, PerfEntry(jobs, outcomes)), PerfRank, Asc) == ExpectedPerf(rows, outcomes)
      && SortBy(Harvest(order, ReboundEntry(jobs, outcomes)), ReboundRank, Asc) == ExpectedRebound(rows, outcomes)
  {
    var jobs := Jobs(Metas(rows));
    ExpectedPerfSorted(rows, outcomes);
    ExpectedReboundSorted(rows, outcomes);
    SortedHarvest(order, |outcomes|, PerfEntry(jobs, outcomes), PerfRank);
    SortedHarvest(order, |outcomes|, ReboundEntry(jobs, outcomes), ReboundRank);
  }

  /** The `as_completed` loop of `api_dashboard`: each finished job's rows are appended
      in completion order, except a QQQ job, whose perf block overwrites the reference row
      instead, so the last QQQ job to finish supplies it. */
  method Collect(jobs: seq<Meta>, outcomes: seq<SymbolData>, order: seq<nat>)
    returns (perfList: seq<SctrRow>, reboundList: seq<ReboundRow>, qqqData: Option<QqqRef>)
    requires |outcomes| == |jobs|
    requires forall s :: 0 <= s < |order| ==> order[s] < |outcomes|
    ensures perfList == Harvest(order, PerfEntry(jobs, outcomes))
    ensures reboundList == Harvest(order, ReboundEntry(jobs, outcomes))
    ensures qqqData.None? ==> NoQqqAmong(jobs, order, |order|)
    ensures qqqData.Some? ==> exists s: nat :: LastQqqAt(jobs, order, s, |order|) && qqqData.value == RefOf(outcomes[order[s]].perf)
  {
    perfList, reboundList, qqqData := [], [], None;
    ghost var pe, re := PerfEntry(jobs, outcomes), ReboundEntry(jobs, outcomes);
    ghost var qqqAt: nat := 0;
    var t := 0;
    while t < |order|
      invariant 0 <= t <= |order|
      invariant perfList == Harvest(order[..t], pe)
      invariant reboundList == Harvest(order[..t], re)
      invariant qqqData.None? ==> NoQqqAmong(jobs, order, t)
      invariant qqqData.Some? ==> LastQqqAt(jobs, order, qqqAt, t) && qqqData.value == RefOf(outcomes[order[qqqAt]].perf)
    {
      var j := order[t];
      HarvestStep(order, t, pe);
      HarvestStep(order, t, re);
      if jobs[j].symbol == QQQ {
        qqqData := Some(RefOf(outcomes[j].perf));
        qqqAt := t;
      } else {
        perfList := perfList + [PerfRowOf(jobs[j], outcomes[j].perf)];
        reboundList := reboundList + [ReboundRowOf(jobs[j], outcomes[j].rebound)];
      }
      t := t + 1;
    }
    assert order[..|order|] == order;
  }

  /** The fallback of `api_dashboard`: the first QQQ row of the sorted perf list, if any,
      as a reference row. */
  method FindQqq(perfList: seq<SctrRow>) returns (q: Option<QqqRef>)
    ensures q.None? <==> forall i :: 0 <= i < |perfList| ==> perfList[i].symbol != QQQ
    ensures q.Some? ==> exists i ::
      && 0 <= i < |perfList| && perfList[i].symbol == QQQ
      && (forall j :: 0 <= j < i ==> perfList[j].symbol != QQQ)
      && q.value == QqqRef(perfList[i].perf1d, perfList[i].perf5d, perfList[i].perf20d, perfList[i].perf60d)
  {
    q := None;
    var k := 0;
    while k < |perfList|
      invariant 0 <= k <= |perfList|
      invariant forall i :: 0 <= i < k ==> perfList[i].symbol != QQQ
    {
      if perfList[k].symbol == QQQ {
        var p := perfList[k];
        q := Some(QqqRef(p.perf1d, p.perf5d, p.perf20d, p.perf60d));
        return;
      }
      k := k + 1;
    }
  }

  /** `api_dashboard` given the scrape, each job's outcome, and the order in which the
      jobs completed (any permutation of the jobs). The lists come out in submission order
      whatever the completion order, and the reference row is the perf block of the last QQQ
      job to finish. */
  method ApiDashboard(rows: seq<ScrapedRow>, outcomes: seq<SymbolData>, order: seq<nat>)
    returns (resp: DashboardResponse)
    requires |outcomes| == |Jobs(Metas(rows))|
    requires multiset(order) == multiset(Indices(|outcomes|))
    ensures resp.perf == ExpectedPerf(rows, outcomes)
    ensures resp.rebound == ExpectedRebound(rows, outcomes)
    ensures exists s: nat :: LastQqqAt(Jobs(Metas(rows)), order, s, |order|) && resp.qqq == RefOf(outcomes[order[s]].perf)
  {
    var jobs := Jobs(Metas(rows));
    OrderInRange(order, |outcomes|);
    var perfList, reboundList, qqqData := Collect(jobs, outcomes, order);
    perfList := SortBy(perfList, PerfRank, Asc);
    reboundList := SortBy(reboundList, ReboundRank, Asc);
    if qqqData.None? {
      qqqData := FindQqq(perfList);
    }
    CollectedListsSorted(rows, outcomes, order);
    ghost var s := QqqJobFinishes(rows, order);
    QqqAmong(jobs, order, |order|, s);
    resp := DashboardResponse(perfList, reboundList, if qqqData.Some? then qqqData.value else QqqRef(None, None, None, None));
  }
}
