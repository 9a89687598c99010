/** The probability lab (pages/probability.py): for every stock, how many
    months of a report year its revenue growth fell into a band `[low,
    high)` (its "hits"); the stocks grouped by hits with the annual-return
    statistics of each group, computed by one SQL query or, when that fails,
    by a Python loop; the expected-value scores of each group; and the
    multi-year return lookup for a list of stocks. */
module Probability {
  import opened Common
  import opened Text
  import opened ReportCalendar
  import opened Buckets

  // ---------------------------------------------------------------------
  // Hits.

  /** One monthly revenue row. */
  datatype RevenueRow = RevenueRow(stockId: string, reportMonth: string, metric: Option<real>)

  /** A row is a hit: it is in the report year and its metric lies in
      `[low, high)`; a NULL metric is never a hit. */
  predicate IsHit(row: RevenueRow, y: int, low: real, high: real)
  {
    InHitWindow(row.reportMonth, y) && row.metric.Some? && low <= row.metric.value < high
  }

  /** How many of a stock's rows are hits. */
  function HitCount(rows: seq<RevenueRow>, id: string, y: int, low: real, high: real): (n: nat)
    ensures n <= |rows|
  {
    if rows == [] then 0
    else (if rows[0].stockId == id && IsHit(rows[0], y, low, high) then 1 else 0) + HitCount(rows[1..], id, y, low, high)
  }

  /** The `hit_table`: `COUNT(*) ... GROUP BY stock_id` over the hit rows. */
  function HitTable(rows: seq<RevenueRow>, y: int, low: real, high: real): (t: map<string, nat>)
  {
    if rows == [] then map[]
    else
      var t := HitTable(rows[1..], y, low, high);
      var id := rows[0].stockId;
      if IsHit(rows[0], y, low, high) then t[id := (if id in t then t[id] else 0) + 1] else t
  }

  /** A stock is in the hit table exactly when it has a hit, and its entry is
      its number of hits; stocks without hits do not appear. */
  lemma {:induction false} HitTableExact(rows: seq<RevenueRow>, y: int, low: real, high: real, id: string)
    ensures id in HitTable(rows, y, low, high) <==> HitCount(rows, id, y, low, high) > 0
    ensures id in HitTable(rows, y, low, high) ==> HitTable(rows, y, low, high)[id] == HitCount(rows, id, y, low, high)
  {
    if rows != [] {
      HitTableExact(rows[1..], y, low, high, id);
    }
  }

  /** With well-formed keys, the hits of a stock are its rows of last
      December and January to November whose metric is in the band. */
  lemma HitMonths(ky: nat, km: nat, y: nat, m: Option<real>, low: real, high: real, id: string)
    requires ValidMonth(ky, km) && 101 <= y <= 999
    ensures IsHit(RevenueRow(id, Key(ky, km), m), y, low, high) <==>
      InReportYear(ky, km, y) && m.Some? && low <= m.value < high
  {
    HitWindowExact(ky, km, y);
  }

  /** One row of the annual price table as `perf_table` reads it: a ticker,
      its year and its annual return, NULL when a price is missing. */
  datatype PerfRow = PerfRow(symbol: string, year: int, ret: Option<real>)

  /** A joined stock: its hits and its annual return (NULL when missing). */
  datatype Sample = Sample(hits: nat, ret: Option<real>)

  /** The price row of year `year` joins the stock of the hit table its
      ticker names, yielding `x`. */
  predicate Yields(row: PerfRow, table: map<string, nat>, year: int, x: Sample)
  {
    row.year == year && BeforeDot(row.symbol) in table && x == Sample(table[BeforeDot(row.symbol)], row.ret)
  }

  /** What one price row contributes to the join: its stock's sample when
      the row is of `year` and its stock has hits, else nothing. */
  function JoinRow(row: PerfRow, table: map<string, nat>, year: int): (s: seq<Sample>)
    ensures |s| <= 1
    ensures forall x :: x in s <==> Yields(row, table, year, x)
  {
    var id := BeforeDot(row.symbol);
    if row.year == year && id in table then [Sample(table[id], row.ret)] else []
  }

  /** `hit_table JOIN perf_table ON h.stock_id = SPLIT_PART(symbol, '.', 1)`,
      with `perf_table` restricted to the rows of `year`. */
  function Joined(perf: seq<PerfRow>, table: map<string, nat>, year: int): (s: seq<Sample>)
    ensures |s| <= |perf|
  {
    if perf == [] then [] else JoinRow(perf[0], table, year) + Joined(perf[1..], table, year)
  }

  /** The join goes row by row: joining two runs of price rows joins each. */
  lemma {:induction false} JoinedAppend(a: seq<PerfRow>, b: seq<PerfRow>, table: map<string, nat>, year: int)
    ensures Joined(a + b, table, year) == Joined(a, table, year) + Joined(b, table, year)
  {
    if a == [] {
      assert a + b == b;
    } else {
      assert (a + b)[0] == a[0];
      assert (a + b)[1..] == a[1..] + b;
      JoinedAppend(a[1..], b, table, year);
    }
  }

  /** A sample is joined exactly when some price row of the year names a
      stock with hits; the sample carries that stock's hits and that row's
      return. */
  lemma {:induction false} JoinedExact(perf: seq<PerfRow>, table: map<string, nat>, year: int, x: Sample)
    ensures x in Joined(perf, table, year) <==> exists k :: 0 <= k < |perf| && Yields(perf[k], table, year, x)
  {
    if perf != [] {
      JoinedExact(perf[1..], table, year, x);
      if exists k :: 0 <= k < |perf| && Yields(perf[k], table, year, x) {
        var k :| 0 <= k < |perf| && Yields(perf[k], table, year, x);
        if k > 0 {
          assert perf[1..][k - 1] == perf[k];
        }
      }
      if x in Joined(perf[1..], table, year) {
        var k :| 0 <= k < |perf[1..]| && Yields(perf[1..][k], table, year, x);
        assert perf[k + 1] == perf[1..][k];
      }
    }
  }

  /** Every joined sample has at least one hit. */
  lemma {:induction false} JoinedHaveHits(perf: seq<PerfRow>, rows: seq<RevenueRow>, y: int, low: real, high: real, year: int)
    ensures forall j :: 0 <= j < |Joined(perf, HitTable(rows, y, low, high), year)| ==>
      Joined(perf, HitTable(rows, y, low, high), year)[j].hits >= 1
  {
    var t := HitTable(rows, y, low, high);
    forall id | id in t
      ensures t[id] >= 1
    {
      HitTableExact(rows, y, low, high, id);
    }
    JoinedKeepsTable(perf, t, year);
  }

  lemma {:induction false} JoinedKeepsTable(perf: seq<PerfRow>, table: map<string, nat>, year: int)
    requires forall id :: id in table ==> table[id] >= 1
    ensures forall j :: 0 <= j < |Joined(perf, table, year)| ==> Joined(perf, table, year)[j].hits >= 1
  {
    if perf != [] {
      JoinedKeepsTable(perf[1..], table, year);
    }
  }

  // ---------------------------------------------------------------------
  // Groups by hits.

  /** The statistics of one hit group. `count` counts every joined stock;
      the other statistics skip missing returns and are NULL when none is
      left. The SQL path leaves `std` NULL for fewer than two returns
      (sample standard deviation); the Python path prints 0 for a
      single-stock group. */
  datatype GroupStat = GroupStat(
    hits: nat,
    count: nat,
    avg: Option<real>,
    median: Option<real>,
    winRate: real,
    doubleRate: real,
    minRet: Option<real>,
    maxRet: Option<real>,
    std: Option<real>)

  /** The returns of the samples with `h` hits. */
  function RetsWith(samples: seq<Sample>, h: nat): (r: seq<Option<real>>)
    ensures |r| <= |samples|
  {
    if samples == [] then []
    else (if samples[0].hits == h then [samples[0].ret] else []) + RetsWith(samples[1..], h)
  }

  function Min(xs: seq<real>): (m: real)
    requires xs != []
    ensures m in xs && forall x :: x in xs ==> m <= x
  {
    if |xs| == 1 then xs[0]
    else
      var rest := Min(xs[1..]);
      assert forall x :: x in xs ==> x == xs[0] || x in xs[1..];
      if xs[0] <= rest then xs[0] else rest
  }

  function Max(xs: seq<real>): (m: real)
    requires xs != []
    ensures m in xs && forall x :: x in xs ==> x <= m
  {
    if |xs| == 1 then xs[0]
    else
      var rest := Max(xs[1..]);
      assert forall x :: x in xs ==> x == xs[0] || x in xs[1..];
      if xs[0] >= rest then xs[0] else rest
  }

  /** The group of the samples with `h` hits, as the SQL query computes it:
      `COUNT(*)` and the rate denominators count every stock, a missing
      return is never above a threshold, and AVG, the median, MIN, MAX and
      STDDEV see only the present returns. The median and the standard
      deviation are floating-point library results and come in as
      functions. */
  function GroupOf(samples: seq<Sample>, h: nat, medianOf: seq<real> -> real, stdOf: seq<real> -> real): (g: GroupStat)
    requires HasGroup(samples, h)
    ensures g.hits == h && g.count == |RetsWith(samples, h)| && g.count >= 1
    ensures 0.0 <= g.doubleRate <= g.winRate <= 100.0
  {
    HasGroupRets(samples, h);
    var rets := RetsWith(samples, h);
    var vals := Present(rets);
    var n := |rets|;
    CountAboveAntitone(vals, 20.0, 100.0);
    PercentMonotone(CountAbove(vals, 100.0), CountAbove(vals, 20.0), n);
    GroupStat(
      hits := h,
      count := n,
      avg := Mean(vals),
      median := if vals == [] then None else Some(medianOf(vals)),
      winRate := Percent(CountAbove(vals, 20.0), n),
      doubleRate := Percent(CountAbove(vals, 100.0), n),
      minRet := if vals == [] then None else Some(Min(vals)),
      maxRet := if vals == [] then None else Some(Max(vals)),
      std := if |vals| > 1 then Some(stdOf(vals)) else None)
  }

  /** The rates count the present returns above 20 and above 100 against all
      the group's stocks; the average is the mean of the present returns;
      the median, lowest and highest return exist exactly when some return
      is present. */
  lemma GroupStatsExact(samples: seq<Sample>, h: nat, medianOf: seq<real> -> real, stdOf: seq<real> -> real)
    requires HasGroup(samples, h)
    ensures var g := GroupOf(samples, h, medianOf, stdOf);
      g.winRate == Percent(CountAbove(Present(RetsWith(samples, h)), 20.0), g.count)
    ensures var g := GroupOf(samples, h, medianOf, stdOf);
      g.doubleRate == Percent(CountAbove(Present(RetsWith(samples, h)), 100.0), g.count)
    ensures GroupOf(samples, h, medianOf, stdOf).avg == Mean(Present(RetsWith(samples, h)))
    ensures GroupOf(samples, h, medianOf, stdOf).median.Some? <==> Present(RetsWith(samples, h)) != []
    ensures GroupOf(samples, h, medianOf, stdOf).minRet.Some? <==> Present(RetsWith(samples, h)) != []
    ensures GroupOf(samples, h, medianOf, stdOf).maxRet.Some? <==> Present(RetsWith(samples, h)) != []
    ensures GroupOf(samples, h, medianOf, stdOf).std.None? <==> |Present(RetsWith(samples, h))| <= 1
  {
  }

  /** The group's lowest and highest return are returns of the group, bound
      all of them, and its average lies between them. */
  lemma GroupExtremes(samples: seq<Sample>, h: nat, medianOf: seq<real> -> real, stdOf: seq<real> -> real)
    requires HasGroup(samples, h)
    ensures var g := GroupOf(samples, h, medianOf, stdOf);
      g.minRet.Some? ==> (Some(g.minRet.value) in RetsWith(samples, h) &&
        forall x :: Some(x) in RetsWith(samples, h) ==> g.minRet.value <= x)
    ensures var g := GroupOf(samples, h, medianOf, stdOf);
      g.maxRet.Some? ==> (Some(g.maxRet.value) in RetsWith(samples, h) &&
        forall x :: Some(x) in RetsWith(samples, h) ==> x <= g.maxRet.value)
    ensures var g := GroupOf(samples, h, medianOf, stdOf);
      g.avg.Some? ==> g.minRet.value <= g.avg.value <= g.maxRet.value
  {
    var rets := RetsWith(samples, h);
    var vals := Present(rets);
    if vals != [] {
      AverageBetween(vals, Min(vals), Max(vals));
      PresentExact(rets, Min(vals));
      PresentExact(rets, Max(vals));
      forall x | Some(x) in rets
        ensures Min(vals) <= x <= Max(vals)
      {
        PresentExact(rets, x);
      }
    }
  }

  /** A stock whose return is missing counts in its group's size but never
      as a win, so its group's win rate stays below 100. */
  lemma MissingReturnNeverWins(samples: seq<Sample>, h: nat, medianOf: seq<real> -> real, stdOf: seq<real> -> real)
    requires HasGroup(samples, h) && None in RetsWith(samples, h)
    ensures GroupOf(samples, h, medianOf, stdOf).winRate < 100.0
  {
    var vals := Present(RetsWith(samples, h));
    PresentMissing(RetsWith(samples, h));
    assert CountAbove(vals, 20.0) <= |vals|;
  }

  lemma AverageBetween(xs: seq<real>, lo: real, hi: real)
    requires xs != [] && forall x :: x in xs ==> lo <= x <= hi
    ensures lo <= Sum(xs) / |xs| as real <= hi
  {
    forall i | 0 <= i < |xs|
      ensures lo <= xs[i] <= hi
    {
      assert xs[i] in xs;
    }
    SumBetween(xs, lo, hi);
    DivideBounds(Sum(xs), |xs| as real, lo, hi);
  }

  lemma DivideBounds(total: real, n: real, lo: real, hi: real)
    requires n > 0.0 && n * lo <= total <= n * hi
    ensures lo <= total / n <= hi
  {
    var a := total / n;
    assert a * n == total;
    assert n * lo <= n * a <= n * hi;
  }

  lemma {:induction false} SumBetween(xs: seq<real>, lo: real, hi: real)
    requires forall i :: 0 <= i < |xs| ==> lo <= xs[i] <= hi
    ensures |xs| as real * lo <= Sum(xs) <= |xs| as real * hi
  {
    if xs != [] {
      var rest := xs[1..];
      SumBetween(rest, lo, hi);
      var n := |rest| as real;
      MulAddOne(n, lo);
      MulAddOne(n, hi);
      assert |xs| as real == n + 1.0;
    }
  }

  lemma MulAddOne(n: real, c: real)
    ensures (n + 1.0) * c == n * c + c
  {
  }

  /** The hit counts the samples have: the keys of `groupby('hits')`. */
  function HitKeys(samples: seq<Sample>): set<nat>
  {
    if samples == [] then {} else {samples[0].hits} + HitKeys(samples[1..])
  }

  /** Whether some sample has `h` hits. */
  predicate HasGroup(samples: seq<Sample>, h: nat)
  {
    h in HitKeys(samples)
  }

  /** A hit count has returns exactly when some sample has it. */
  lemma {:induction false} HasGroupRets(samples: seq<Sample>, h: nat)
    ensures HasGroup(samples, h) <==> RetsWith(samples, h) != []
  {
    if samples != [] {
      HasGroupRets(samples[1..], h);
    }
  }

  /** Every sample's hit count has a group. */
  lemma {:induction false} HasGroupOf(samples: seq<Sample>, j: nat)
    requires j < |samples|
    ensures HasGroup(samples, samples[j].hits)
  {
    if j > 0 {
      HasGroupOf(samples[1..], j - 1);
      assert samples[1..][j - 1] == samples[j];
    }
  }

  /** The largest hit count among the samples (0 for none). */
  function MaxHits(samples: seq<Sample>): (m: nat)
    ensures forall j :: 0 <= j < |samples| ==> samples[j].hits <= m
  {
    if samples == [] then 0
    else
      var rest := MaxHits(samples[1..]);
      if samples[0].hits >= rest then samples[0].hits else rest
  }

  /** The keys from `h` down to 1, most first. */
  function KeysDown(keys: set<nat>, h: nat): (vs: seq<nat>)
    ensures forall j :: 0 <= j < |vs| ==> 1 <= vs[j] <= h && vs[j] in keys
  {
    if h == 0 then [] else (if h in keys then [h] else []) + KeysDown(keys, h - 1)
  }

  /** The hit counts from `h` down to 1 that some sample has, most first:
      the keys of `GROUP BY hits ORDER BY hits DESC`. */
  function HitValues(samples: seq<Sample>, h: nat): (vs: seq<nat>)
    ensures forall j :: 0 <= j < |vs| ==> 1 <= vs[j] <= h && HasGroup(samples, vs[j])
  {
    KeysDown(HitKeys(samples), h)
  }

  /** The groups for the listed hit counts, in the same order. */
  function GroupsFor(samples: seq<Sample>, vs: seq<nat>, medianOf: seq<real> -> real, stdOf: seq<real> -> real): (gs: seq<GroupStat>)
    requires forall j :: 0 <= j < |vs| ==> HasGroup(samples, vs[j])
    ensures |gs| == |vs|
  {
    if vs == [] then [] else [GroupOf(samples, vs[0], medianOf, stdOf)] + GroupsFor(samples, vs[1..], medianOf, stdOf)
  }

  lemma {:induction false} GroupsForHits(samples: seq<Sample>, vs: seq<nat>, medianOf: seq<real> -> real, stdOf: seq<real> -> real)
    requires forall j :: 0 <= j < |vs| ==> HasGroup(samples, vs[j])
    ensures forall j :: 0 <= j < |vs| ==> GroupsFor(samples, vs, medianOf, stdOf)[j].hits == vs[j]
  {
    if vs != [] {
      GroupsForHits(samples, vs[1..], medianOf, stdOf);
      var gs := GroupsFor(samples, vs, medianOf, stdOf);
      assert gs[1..] == GroupsFor(samples, vs[1..], medianOf, stdOf);
    }
  }

  /** The result of the SQL path. */
  function ProbGroups(samples: seq<Sample>, medianOf: seq<real> -> real, stdOf: seq<real> -> real): seq<GroupStat>
  {
    GroupsFor(samples, HitValues(samples, MaxHits(samples)), medianOf, stdOf)
  }

  predicate StrictlyDescending(gs: seq<GroupStat>)
  {
    forall i, j :: 0 <= i < j < |gs| ==> gs[i].hits > gs[j].hits
  }

  predicate Decreasing(vs: seq<nat>)
  {
    forall i, j :: 0 <= i < j < |vs| ==> vs[i] > vs[j]
  }

  lemma {:induction false} KeysDownDecreasing(keys: set<nat>, h: nat)
    ensures Decreasing(KeysDown(keys, h))
  {
    if h > 0 {
      KeysDownDecreasing(keys, h - 1);
      var rest := KeysDown(keys, h - 1);
      var vs := KeysDown(keys, h);
      if h in keys {
        assert vs == [h] + rest;
        forall i, j | 0 <= i < j < |vs|
          ensures vs[i] > vs[j]
        {
          assert vs[j] == rest[j - 1];
        }
      } else {
        assert vs == rest;
      }
    }
  }

  /** One more hit count keeps the keys listed so far and puts the new one
      first when some sample has it. */
  lemma HitValuesStep(samples: seq<Sample>, h: nat)
    requires h > 0
    ensures HasGroup(samples, h) ==> HitValues(samples, h) == [h] + HitValues(samples, h - 1)
    ensures !HasGroup(samples, h) ==> HitValues(samples, h) == HitValues(samples, h - 1)
  {
  }

  lemma {:induction false} KeysDownExact(keys: set<nat>, h: nat, v: nat)
    requires 1 <= v <= h
    ensures v in KeysDown(keys, h) <==> v in keys
  {
    var rest := KeysDown(keys, h - 1);
    if v < h {
      KeysDownExact(keys, h - 1, v);
    } else {
      assert v !in rest;
    }
  }

  /** Groups come in strictly decreasing order of hits, so each hit count
      appears once, and there is a group for exactly the hit counts some
      joined stock has. */
  lemma GroupsDescending(samples: seq<Sample>, medianOf: seq<real> -> real, stdOf: seq<real> -> real)
    ensures StrictlyDescending(ProbGroups(samples, medianOf, stdOf))
    ensures forall j :: 0 <= j < |samples| && samples[j].hits >= 1 ==>
      exists i :: 0 <= i < |ProbGroups(samples, medianOf, stdOf)| && ProbGroups(samples, medianOf, stdOf)[i].hits == samples[j].hits
  {
    var top := MaxHits(samples);
    var vs := HitValues(samples, top);
    var gs := ProbGroups(samples, medianOf, stdOf);
    KeysDownDecreasing(HitKeys(samples), top);
    GroupsForHits(samples, vs, medianOf, stdOf);
    forall j | 0 <= j < |samples| && samples[j].hits >= 1
      ensures exists i :: 0 <= i < |gs| && gs[i].hits == samples[j].hits
    {
      var v := samples[j].hits;
      HasGroupOf(samples, j);
      KeysDownExact(HitKeys(samples), top, v);
      var i :| 0 <= i < |vs| && vs[i] == v;
      assert gs[i].hits == v;
    }
  }

  /** The group sizes add up to the samples with 1 to `h` hits. */
  function CountSum(gs: seq<GroupStat>): nat
  {
    if gs == [] then 0 else gs[0].count + CountSum(gs[1..])
  }

  /** How many samples have each of the listed hit counts, summed. */
  function SizesOf(samples: seq<Sample>, vs: seq<nat>): nat
  {
    if vs == [] then 0 else |RetsWith(samples, vs[0])| + SizesOf(samples, vs[1..])
  }

  function SamplesUpTo(samples: seq<Sample>, h: nat): nat
  {
    if samples == [] then 0
    else (if 1 <= samples[0].hits <= h then 1 else 0) + SamplesUpTo(samples[1..], h)
  }

  lemma {:induction false} CountSumSizes(samples: seq<Sample>, vs: seq<nat>, medianOf: seq<real> -> real, stdOf: seq<real> -> real)
    requires forall j :: 0 <= j < |vs| ==> HasGroup(samples, vs[j])
    ensures CountSum(GroupsFor(samples, vs, medianOf, stdOf)) == SizesOf(samples, vs)
  {
    if vs != [] {
      CountSumSizes(samples, vs[1..], medianOf, stdOf);
      var gs := GroupsFor(samples, vs, medianOf, stdOf);
      assert gs[1..] == GroupsFor(samples, vs[1..], medianOf, stdOf);
    }
  }

  lemma {:induction false} SizesUpTo(samples: seq<Sample>, h: nat)
    ensures SizesOf(samples, HitValues(samples, h)) == SamplesUpTo(samples, h)
  {
    if h == 0 {
      SamplesUpToNone(samples);
    } else {
      SizesUpTo(samples, h - 1);
      SamplesUpToStep(samples, h);
      HasGroupRets(samples, h);
      HitValuesStep(samples, h);
      if HasGroup(samples, h) {
        SizesCons(samples, h, HitValues(samples, h - 1));
      }
    }
  }

  lemma SizesCons(samples: seq<Sample>, h: nat, rest: seq<nat>)
    requires h > 0 && HasGroup(samples, h) && rest == HitValues(samples, h - 1)
    ensures SizesOf(samples, HitValues(samples, h)) == |RetsWith(samples, h)| + SizesOf(samples, rest)
  {
    HitValuesStep(samples, h);
    var vs := HitValues(samples, h);
    assert vs[1..] == rest;
  }

  lemma {:induction false} SamplesUpToNone(samples: seq<Sample>)
    ensures SamplesUpTo(samples, 0) == 0
  {
    if samples != [] {
      SamplesUpToNone(samples[1..]);
    }
  }

  lemma {:induction false} SamplesUpToStep(samples: seq<Sample>, h: nat)
    requires h > 0
    ensures SamplesUpTo(samples, h) == SamplesUpTo(samples, h - 1) + |RetsWith(samples, h)|
  {
    if samples != [] {
      SamplesUpToStep(samples[1..], h);
    }
  }

  lemma {:induction false} SamplesUpToAll(samples: seq<Sample>, h: nat)
    requires forall j :: 0 <= j < |samples| ==> 1 <= samples[j].hits <= h
    ensures SamplesUpTo(samples, h) == |samples|
  {
    if samples != [] {
      SamplesUpToAll(samples[1..], h);
    }
  }

  /** Every joined stock is in exactly one group: the group sizes add up to
      the number of joined stocks. */
  lemma EveryStockInOneGroup(samples: seq<Sample>, medianOf: seq<real> -> real, stdOf: seq<real> -> real)
    requires forall j :: 0 <= j < |samples| ==> samples[j].hits >= 1
    ensures CountSum(ProbGroups(samples, medianOf, stdOf)) == |samples|
  {
    var top := MaxHits(samples);
    CountSumSizes(samples, HitValues(samples, top), medianOf, stdOf);
    SizesUpTo(samples, top);
    SamplesUpToAll(samples, top);
  }

  /** The Python path's record of a group: pandas skips missing returns as
      SQL does, so every value agrees, except that a single-stock group
      reports a standard deviation of 0 where SQL reports NULL. */
  function AltStat(g: GroupStat): (a: GroupStat)
    ensures g.count != 1 ==> a == g
    ensures g.count == 1 ==> a.std == Some(0.0)
  {
    if g.count == 1 then g.(std := Some(0.0)) else g
  }

  /** The Python record differs from the SQL one in the standard deviation only. */
  lemma AltStatOnlyStd(g: GroupStat)
    ensures AltStat(g).(std := g.std) == g
  {
  }

  /** `reversed(xs)`. */
  function Reversed<T>(xs: seq<T>): (r: seq<T>)
    ensures |r| == |xs|
  {
    if xs == [] then [] else [xs[|xs| - 1]] + Reversed(xs[..|xs| - 1])
  }

  function AltAll(gs: seq<GroupStat>): (r: seq<GroupStat>)
    ensures |r| == |gs|
  {
    if gs == [] then [] else [AltStat(gs[0])] + AltAll(gs[1..])
  }

  /** The Python records of the groups with 1 to `h` hits, fewest hits
      first, as `groupby` visits them. */
  function AltAscending(samples: seq<Sample>, h: nat, medianOf: seq<real> -> real, stdOf: seq<real> -> real): seq<GroupStat>
  {
    if h == 0 then []
    else
      AltAscending(samples, h - 1, medianOf, stdOf)
      + (if HasGroup(samples, h) then [AltStat(GroupOf(samples, h, medianOf, stdOf))] else [])
  }

  /** Sorting the records by hits, most first, gives the SQL path's groups
      with the Python standard deviations. */
  lemma {:induction false} AltAscendingReversed(samples: seq<Sample>, h: nat, medianOf: seq<real> -> real, stdOf: seq<real> -> real)
    ensures Reversed(AltAscending(samples, h, medianOf, stdOf)) == AltAll(GroupsFor(samples, HitValues(samples, h), medianOf, stdOf))
  {
    if h > 0 {
      AltAscendingReversed(samples, h - 1, medianOf, stdOf);
      if HasGroup(samples, h) {
        AltAscendingGrows(samples, h, medianOf, stdOf);
      } else {
        AltAscendingSkips(samples, h, medianOf, stdOf);
      }
    }
  }

  lemma AltAscendingGrows(samples: seq<Sample>, h: nat, medianOf: seq<real> -> real, stdOf: seq<real> -> real)
    requires h > 0 && HasGroup(samples, h)
    requires Reversed(AltAscending(samples, h - 1, medianOf, stdOf)) == AltAll(GroupsFor(samples, HitValues(samples, h - 1), medianOf, stdOf))
    ensures Reversed(AltAscending(samples, h, medianOf, stdOf)) == AltAll(GroupsFor(samples, HitValues(samples, h), medianOf, stdOf))
  {
    var rest := HitValues(samples, h - 1);
    AltAscendingStep(samples, h, medianOf, stdOf);
    GroupsForCons(samples, h, rest, medianOf, stdOf);
    ReversedCons(AltAscending(samples, h - 1, medianOf, stdOf), AltStat(GroupOf(samples, h, medianOf, stdOf)),
      AltAll(GroupsFor(samples, rest, medianOf, stdOf)));
  }

  lemma AltAscendingSkips(samples: seq<Sample>, h: nat, medianOf: seq<real> -> real, stdOf: seq<real> -> real)
    requires h > 0 && !HasGroup(samples, h)
    requires Reversed(AltAscending(samples, h - 1, medianOf, stdOf)) == AltAll(GroupsFor(samples, HitValues(samples, h - 1), medianOf, stdOf))
    ensures Reversed(AltAscending(samples, h, medianOf, stdOf)) == AltAll(GroupsFor(samples, HitValues(samples, h), medianOf, stdOf))
  {
    AltAscendingStep(samples, h, medianOf, stdOf);
    HitValuesStep(samples, h);
  }

  lemma AltAscendingStep(samples: seq<Sample>, h: nat, medianOf: seq<real> -> real, stdOf: seq<real> -> real)
    requires h > 0
    ensures HasGroup(samples, h) ==> (AltAscending(samples, h, medianOf, stdOf)
      == AltAscending(samples, h - 1, medianOf, stdOf) + [AltStat(GroupOf(samples, h, medianOf, stdOf))])
    ensures !HasGroup(samples, h) ==> AltAscending(samples, h, medianOf, stdOf) == AltAscending(samples, h - 1, medianOf, stdOf)
  {
  }

  /** Reversing one more record at the end puts it first. */
  lemma ReversedCons<T>(before: seq<T>, a: T, rest: seq<T>)
    requires Reversed(before) == rest
    ensures Reversed(before + [a]) == [a] + rest
  {
    ReversedSnoc(before, a);
  }

  lemma ReversedSnoc<T>(xs: seq<T>, x: T)
    ensures Reversed(xs + [x]) == [x] + Reversed(xs)
  {
    var ys := xs + [x];
    assert ys[..|ys| - 1] == xs;
  }

  lemma GroupsForCons(samples: seq<Sample>, h: nat, rest: seq<nat>, medianOf: seq<real> -> real, stdOf: seq<real> -> real)
    requires h > 0 && HasGroup(samples, h) && rest == HitValues(samples, h - 1)
    ensures AltAll(GroupsFor(samples, HitValues(samples, h), medianOf, stdOf))
      == [AltStat(GroupOf(samples, h, medianOf, stdOf))] + AltAll(GroupsFor(samples, rest, medianOf, stdOf))
  {
    var vs := HitValues(samples, h);
    assert vs == [h] + rest;
    assert vs[1..] == rest;
    var gs := GroupsFor(samples, vs, medianOf, stdOf);
    assert gs == [GroupOf(samples, h, medianOf, stdOf)] + GroupsFor(samples, rest, medianOf, stdOf);
    assert gs[1..] == GroupsFor(samples, rest, medianOf, stdOf);
  }

  /** The Python fallback: nothing for no joined stocks; otherwise a record
      per hit group, built in increasing order of hits by `groupby`, then
      sorted by hits, most first. It agrees with the SQL path on every group
      and every field, except that a single-stock group reports a standard
      deviation of 0 where SQL reports NULL. */
  method FetchProbDataAlt(samples: seq<Sample>, medianOf: seq<real> -> real, stdOf: seq<real> -> real)
    returns (result: seq<GroupStat>)
    ensures samples == [] ==> result == []
    ensures result == AltAll(ProbGroups(samples, medianOf, stdOf))
  {
    if samples == [] {
      return [];
    }
    var top := MaxHits(samples);
    var ascending: seq<GroupStat> := [];
    var h := 0;
    while h < top
      invariant 0 <= h <= top
      invariant ascending == AltAscending(samples, h, medianOf, stdOf)
    {
      h := h + 1;
      if HasGroup(samples, h) {
        ascending := ascending + [AltStat(GroupOf(samples, h, medianOf, stdOf))];
      }
    }
    AltAscendingReversed(samples, top, medianOf, stdOf);
    result := Reversed(ascending);
  }

  // ---------------------------------------------------------------------
  // Expected-value scores.

  /** One scored group, before rounding. `None` stands for NaN: a NULL
      average or median reaches pandas as NaN and every score computed
      from it is NaN too. */
  datatype ScoreRow = ScoreRow(
    hits: nat,
    count: nat,
    avg: Option<real>,
    median: Option<real>,
    meanMedianDiff: Option<real>,
    winRate: real,
    doubleRate: real,
    expectedScore: Option<real>,
    riskScore: Option<real>,
    successScore: Option<real>,
    composite: Option<real>)

  /** `max(row.get("標準差%", 1), 1)`. */
  function ClampStd(std: real): (s: real)
    ensures s >= 1.0 && s >= std && (s == std || s == 1.0)
  {
    if std >= 1.0 then std else 1.0
  }

  /** The risk-adjusted score as written: a missing standard deviation is
      NaN, `max(NaN, 1)` keeps NaN, `NaN > 0` is false, so the score is 0;
      otherwise a missing average makes it NaN. */
  function RiskAdjustedAsWritten(avg: Option<real>, std: Option<real>): (r: Option<real>)
    ensures std.None? ==> r == Some(0.0)
    ensures std.Some? ==> (r.Some? <==> avg.Some?)
    ensures std.Some? && r.Some? ==> r.value * ClampStd(std.value) == avg.value
  {
    if std.None? then Some(0.0)
    else if avg.None? then None
    else Some(avg.value / ClampStd(std.value))
  }

  /** The risk-adjusted score with the clamp applied to a missing standard
      deviation too (it is missing only for fewer than two returns, whose
      spread is 0). */
  function RiskAdjusted(avg: Option<real>, std: Option<real>): (r: Option<real>)
    ensures r.Some? <==> avg.Some?
    ensures r.Some? ==> r.value * ClampStd(if std.Some? then std.value else 0.0) == avg.value
  {
    if avg.None? then None
    else Some(avg.value / ClampStd(if std.Some? then std.value else 0.0))
  }

  /** The correction changes nothing where a standard deviation is present. */
  lemma RiskAdjustedAgrees(avg: Option<real>, std: Option<real>)
    requires std.Some?
    ensures RiskAdjusted(avg, std) == RiskAdjustedAsWritten(avg, std)
  {
  }

  /** The clamp keeps the risk score no larger in size than the average. */
  lemma RiskAdjustedBounded(avg: real, std: Option<real>)
    ensures RiskAdjusted(Some(avg), std).Some?
    ensures Abs(RiskAdjusted(Some(avg), std).value) <= Abs(avg)
    ensures avg >= 0.0 ==> RiskAdjusted(Some(avg), std).value >= 0.0
  {
    var s := ClampStd(if std.Some? then std.value else 0.0);
    var r := RiskAdjusted(Some(avg), std).value;
    assert r * s == avg;
    if avg >= 0.0 {
      assert r >= 0.0;
      assert r <= r * s;
    } else {
      assert r < 0.0;
      assert r * s <= r;
    }
  }

  /** The scores of one group given its risk-adjusted score: the expected
      score is the average weighted by the group size, over 100 (0 when that
      product is 0); the success score is the average weighted by the win
      rate; the composite is the mean of the three (0 with the expected
      score). */
  function Scored(g: GroupStat, risk: Option<real>): (s: ScoreRow)
    ensures s.hits == g.hits && s.count == g.count && s.avg == g.avg && s.median == g.median
    ensures s.winRate == g.winRate && s.doubleRate == g.doubleRate && s.riskScore == risk
    ensures s.meanMedianDiff.Some? <==> g.avg.Some? && g.median.Some?
    ensures s.meanMedianDiff.Some? ==> s.meanMedianDiff.value + g.median.value == g.avg.value
    ensures s.expectedScore.Some? <==> g.avg.Some?
    ensures s.expectedScore.Some? ==> s.expectedScore.value * 100.0 == g.avg.value * g.count as real
    ensures s.successScore.Some? <==> g.avg.Some?
    ensures s.successScore.Some? ==> s.successScore.value * 100.0 == g.avg.value * g.winRate
    ensures s.composite.Some? <==> g.avg.Some? && (g.avg.value * g.count as real == 0.0 || risk.Some?)
    ensures g.avg.Some? && g.avg.value * g.count as real == 0.0 ==> s.composite == Some(0.0)
    ensures s.composite.Some? && g.avg.value * g.count as real != 0.0 ==>
      s.composite.value * 3.0 == s.expectedScore.value + risk.value + s.successScore.value
  {
    var ev := if g.avg.Some? then Some(g.avg.value * g.count as real) else None;
    var success := if g.avg.Some? then Some(g.avg.value * (g.winRate / 100.0)) else None;
    ScoreRow(
      hits := g.hits,
      count := g.count,
      avg := g.avg,
      median := g.median,
      meanMedianDiff := if g.avg.Some? && g.median.Some? then Some(g.avg.value - g.median.value) else None,
      winRate := g.winRate,
      doubleRate := g.doubleRate,
      expectedScore := if ev == Some(0.0) then Some(0.0) else if ev.Some? then Some(ev.value / 100.0) else None,
      riskScore := risk,
      successScore := success,
      composite :=
        if ev == Some(0.0) then Some(0.0)
        else if ev.Some? && risk.Some? then Some((ev.value / 100.0 + risk.value + success.value) / 3.0)
        else None)
  }

  /** The scores of one group as `calculate_expected_value` computes them: a
      missing standard deviation counts its risk score as 0, so the composite
      is then the mean of the other two scores and a zero. */
  function ScoreOf(g: GroupStat): (s: ScoreRow)
    ensures s.riskScore == RiskAdjustedAsWritten(g.avg, g.std)
    ensures g.std.None? ==> (s.composite.Some? <==> g.avg.Some?)
    ensures g.std.None? && g.avg.Some? && g.avg.value * g.count as real != 0.0 ==>
      s.expectedScore.Some? && s.successScore.Some? && s.composite.Some? &&
      s.composite.value * 3.0 == s.expectedScore.value + s.successScore.value
  {
    Scored(g, RiskAdjustedAsWritten(g.avg, g.std))
  }

  /** The scores with the corrected risk-adjusted score: the composite is
      defined whenever the average is. */
  function CorrectedScoreOf(g: GroupStat): (s: ScoreRow)
    ensures s.riskScore == RiskAdjusted(g.avg, g.std)
    ensures s.composite.Some? <==> g.avg.Some?
  {
    Scored(g, RiskAdjusted(g.avg, g.std))
  }

  /** The correction touches only the risk and composite scores, and only
      where the standard deviation is missing. */
  lemma CorrectionOnlyForMissingDeviation(g: GroupStat)
    ensures g.std.Some? ==> CorrectedScoreOf(g) == ScoreOf(g)
    ensures CorrectedScoreOf(g).(riskScore := ScoreOf(g).riskScore, composite := ScoreOf(g).composite) == ScoreOf(g)
  {
  }

  /** A group of stocks with a zero average return scores 0 in expectation
      and overall; a nonzero average never scores 0 in expectation. */
  lemma ZeroAverageScoresZero(g: GroupStat)
    requires g.count >= 1
    ensures ScoreOf(g).expectedScore == Some(0.0) <==> g.avg == Some(0.0)
    ensures g.avg == Some(0.0) ==> ScoreOf(g).composite == Some(0.0)
  {
    assert g.count as real > 0.0;
    if g.avg.Some? && g.avg.value != 0.0 {
      assert g.avg.value * g.count as real != 0.0;
    }
  }

  /** A single-stock group with a nonzero return gets a risk score of 0 on
      the SQL path but its full return on the Python path, although both
      describe the same stock. */
  lemma SingleStockScoresDependOnPath(samples: seq<Sample>, h: nat, medianOf: seq<real> -> real, stdOf: seq<real> -> real)
    requires HasGroup(samples, h) && |RetsWith(samples, h)| == 1
    requires RetsWith(samples, h)[0].Some? && RetsWith(samples, h)[0].value != 0.0
    ensures ScoreOf(GroupOf(samples, h, medianOf, stdOf)).riskScore == Some(0.0)
    ensures ScoreOf(AltStat(GroupOf(samples, h, medianOf, stdOf))).riskScore == RetsWith(samples, h)[0]
    ensures ScoreOf(GroupOf(samples, h, medianOf, stdOf)).riskScore != ScoreOf(AltStat(GroupOf(samples, h, medianOf, stdOf))).riskScore
  {
    var rets := RetsWith(samples, h);
    var v := rets[0].value;
    assert rets == [Some(v)];
    PresentSingle(v);
    assert Sum([v]) == v;
  }

  /** With the corrected risk score, both query paths give every group the
      same scores. */
  lemma PathsScoreAlike(samples: seq<Sample>, h: nat, medianOf: seq<real> -> real, stdOf: seq<real> -> real)
    requires HasGroup(samples, h)
    ensures CorrectedScoreOf(AltStat(GroupOf(samples, h, medianOf, stdOf))) == CorrectedScoreOf(GroupOf(samples, h, medianOf, stdOf))
  {
    GroupStatsExact(samples, h, medianOf, stdOf);
  }

  /** `calculate_expected_value`: nothing for no groups, otherwise one scored
      row per group, in the groups' order. */
  method CalculateExpectedValue(groups: seq<GroupStat>) returns (results: seq<ScoreRow>)
    ensures |results| == |groups|
    ensures forall i :: 0 <= i < |groups| ==> results[i] == ScoreOf(groups[i])
  {
    results := [];
    for i := 0 to |groups|
      invariant |results| == i
      invariant forall j :: 0 <= j < i ==> results[j] == ScoreOf(groups[j])
    {
      results := results + [ScoreOf(groups[i])];
    }
  }

  // ---------------------------------------------------------------------
  // Multi-year returns.

  /** One row of the annual price table. */
  datatype AnnualRow = AnnualRow(symbol: string, year: int, open: Option<real>, price: Option<real>)

  /** One result row: the stock, the year and its return. */
  datatype YearReturn = YearReturn(stockId: string, year: int, ret: SqlNumber)

  /** What `fetch_multi_year_data` does: no query for an empty stock list;
      otherwise the query's rows, or a failure when a selected row divides by
      a zero open price. */
  datatype MultiYearFetch = NoQuery | QueryFailed | Fetched(rows: seq<YearReturn>)

  /** The rows of the listed stocks within two years before and one year after the target. */
  predicate Selected(row: AnnualRow, stocks: seq<string>, target: int)
  {
    BeforeDot(row.symbol) in stocks && target - 2 <= row.year <= target + 1
  }

  /** The result row the query computes from a price row. */
  function YearOf(row: AnnualRow): (r: YearReturn)
    ensures r.stockId == BeforeDot(row.symbol) && r.year == row.year
    ensures r.ret.Null? <==> row.open.None? || row.price.None?
  {
    YearReturn(BeforeDot(row.symbol), row.year, ReturnSql(row.open, row.price))
  }

  function YearRows(annual: seq<AnnualRow>, stocks: seq<string>, target: int): (r: seq<YearReturn>)
    ensures forall j :: 0 <= j < |r| ==> r[j].stockId in stocks && target - 2 <= r[j].year <= target + 1
  {
    if annual == [] then []
    else
      (if Selected(annual[0], stocks, target) then [YearOf(annual[0])] else [])
      + YearRows(annual[1..], stocks, target)
  }

  /** The query returns exactly the rows of the listed stocks within the
      year range, each with the return SQL computes for it. */
  lemma {:induction false} YearRowsExact(annual: seq<AnnualRow>, stocks: seq<string>, target: int, x: YearReturn)
    ensures x in YearRows(annual, stocks, target) <==>
      exists k :: 0 <= k < |annual| && Selected(annual[k], stocks, target) && x == YearOf(annual[k])
  {
    if annual != [] {
      YearRowsExact(annual[1..], stocks, target, x);
      if exists k :: 0 <= k < |annual| && Selected(annual[k], stocks, target) && x == YearOf(annual[k]) {
        var k :| 0 <= k < |annual| && Selected(annual[k], stocks, target) && x == YearOf(annual[k]);
        if k > 0 {
          assert annual[1..][k - 1] == annual[k];
        }
      }
      if x in YearRows(annual[1..], stocks, target) {
        var k :| 0 <= k < |annual[1..]| && Selected(annual[1..][k], stocks, target) && x == YearOf(annual[1..][k]);
        assert annual[k + 1] == annual[1..][k];
      }
    }
  }

  /** Some returned row divides by zero exactly when some selected price row
      has a zero open price and a closing price. */
  lemma YearRowsFail(annual: seq<AnnualRow>, stocks: seq<string>, target: int)
    ensures (exists j :: 0 <= j < |YearRows(annual, stocks, target)| && YearRows(annual, stocks, target)[j].ret.DivisionByZero?)
      <==> exists k :: 0 <= k < |annual| && Selected(annual[k], stocks, target) && ReturnSql(annual[k].open, annual[k].price).DivisionByZero?
  {
    var rows := YearRows(annual, stocks, target);
    if exists j :: 0 <= j < |rows| && rows[j].ret.DivisionByZero? {
      var j :| 0 <= j < |rows| && rows[j].ret.DivisionByZero?;
      YearRowsExact(annual, stocks, target, rows[j]);
    }
    if exists k :: 0 <= k < |annual| && Selected(annual[k], stocks, target) && ReturnSql(annual[k].open, annual[k].price).DivisionByZero? {
      var k :| 0 <= k < |annual| && Selected(annual[k], stocks, target) && ReturnSql(annual[k].open, annual[k].price).DivisionByZero?;
      YearRowsExact(annual, stocks, target, YearOf(annual[k]));
      var j :| 0 <= j < |rows| && rows[j] == YearOf(annual[k]);
    }
  }

  /** No query for an empty stock list; otherwise the query fails exactly
      when a selected row has a zero open price, and else returns the
      selected rows. */
  function MultiYearData(stocks: seq<string>, target: int, annual: seq<AnnualRow>): (f: MultiYearFetch)
    ensures f.NoQuery? <==> stocks == []
    ensures f.QueryFailed? <==> (stocks != [] &&
      exists k :: 0 <= k < |annual| && Selected(annual[k], stocks, target) && ReturnSql(annual[k].open, annual[k].price).DivisionByZero?)
    ensures f.Fetched? ==> f.rows == YearRows(annual, stocks, target)
    ensures f.Fetched? ==> forall j :: 0 <= j < |f.rows| ==> !f.rows[j].ret.DivisionByZero?
  {
    if stocks == [] then NoQuery
    else
      var rows := YearRows(annual, stocks, target);
      YearRowsFail(annual, stocks, target);
      if exists j :: 0 <= j < |rows| && rows[j].ret.DivisionByZero? then QueryFailed
      else Fetched(rows)
  }
}
