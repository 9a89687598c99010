/** The announcement-timing lab (pages/timing_lab.py): the "spark" rule that
    picks the month a stock's revenue growth first crosses a threshold, the
    day windows around the announcement date in which weekly returns are
    averaged, and the statistics the page prints about each window's
    returns: the five-bucket distribution summary, the advanced statistics
    with their significance labels, and the interquartile outlier filter. */
module Timing {
  import opened Common
  import opened Text
  import opened ReportCalendar

  // ---------------------------------------------------------------------
  // The distribution summary.

  /** The five buckets of `np.histogram` with edges -inf, -5, -1, 1, 5, +inf:
      each bucket holds its lower edge, and the last also holds +inf. */
  function DistBin(x: real): (k: nat)
    ensures k < 5
  {
    if x < -5.0 then 0
    else if x < -1.0 then 1
    else if x < 1.0 then 2
    else if x < 5.0 then 3
    else 4
  }

  /** Bucket `k` as an interval. */
  predicate InDistBin(k: nat, x: real)
  {
    (k == 0 && x < -5.0) || (k == 1 && -5.0 <= x < -1.0) || (k == 2 && -1.0 <= x < 1.0)
    || (k == 3 && 1.0 <= x < 5.0) || (k == 4 && x >= 5.0)
  }

  lemma DistBinExact(x: real, k: nat)
    ensures DistBin(x) == k <==> InDistBin(k, x)
  {
  }

  const DistLabels: seq<string> := ["大跌(<-5%)", "小跌", "持平", "小漲", "大漲(>5%)"]

  /** How many values fall into bucket `k`. */
  function BinCount(data: seq<real>, k: nat): (n: nat)
    ensures n <= |data|
  {
    if data == [] then 0 else (if DistBin(data[0]) == k then 1 else 0) + BinCount(data[1..], k)
  }

  /** Every value falls into exactly one of the five buckets. */
  lemma {:induction false} BinCountsPartition(data: seq<real>)
    ensures BinCount(data, 0) + BinCount(data, 1) + BinCount(data, 2) + BinCount(data, 3) + BinCount(data, 4) == |data|
  {
    if data != [] {
      BinCountsPartition(data[1..]);
    }
  }

  /** A listed bucket: its position among the labels and its count. */
  datatype DistEntry = DistEntry(bin: nat, count: nat)

  /** The non-empty buckets among the first `k`, in label order. */
  function DistEntries(data: seq<real>, k: nat): (es: seq<DistEntry>)
    requires k <= 5
    ensures forall j :: 0 <= j < |es| ==> es[j].bin < k
  {
    if k == 0 then []
    else
      var rest := DistEntries(data, k - 1);
      if BinCount(data, k - 1) > 0 then rest + [DistEntry(k - 1, BinCount(data, k - 1))] else rest
  }

  /** Exactly the non-empty buckets are listed, each once, in label order,
      with its count. */
  lemma DistEntriesExact(data: seq<real>, k: nat)
    requires k <= 5
    ensures forall j :: 0 <= j < |DistEntries(data, k)| ==>
      DistEntries(data, k)[j].count > 0 && DistEntries(data, k)[j].count == BinCount(data, DistEntries(data, k)[j].bin)
    ensures forall i, j :: 0 <= i < j < |DistEntries(data, k)| ==> DistEntries(data, k)[i].bin < DistEntries(data, k)[j].bin
    ensures forall b :: 0 <= b < k && BinCount(data, b) > 0 ==>
      exists j :: 0 <= j < |DistEntries(data, k)| && DistEntries(data, k)[j].bin == b
  {
    DistEntriesCounts(data, k);
    DistEntriesOrdered(data, k);
    DistEntriesComplete(data, k);
  }

  /** One more bucket keeps the entries listed so far and appends the new
      bucket when it is not empty. */
  lemma DistEntriesStep(data: seq<real>, k: nat)
    requires 0 < k <= 5
    ensures BinCount(data, k - 1) > 0 ==>
      DistEntries(data, k) == DistEntries(data, k - 1) + [DistEntry(k - 1, BinCount(data, k - 1))]
    ensures BinCount(data, k - 1) == 0 ==> DistEntries(data, k) == DistEntries(data, k - 1)
  {
  }

  lemma {:induction false} DistEntriesCounts(data: seq<real>, k: nat)
    requires k <= 5
    ensures forall j :: 0 <= j < |DistEntries(data, k)| ==>
      DistEntries(data, k)[j].count > 0 && DistEntries(data, k)[j].count == BinCount(data, DistEntries(data, k)[j].bin)
  {
    if k > 0 {
      DistEntriesCounts(data, k - 1);
      DistEntriesStep(data, k);
    }
  }

  lemma {:induction false} DistEntriesOrdered(data: seq<real>, k: nat)
    requires k <= 5
    ensures forall i, j :: 0 <= i < j < |DistEntries(data, k)| ==> DistEntries(data, k)[i].bin < DistEntries(data, k)[j].bin
  {
    if k > 0 {
      DistEntriesOrdered(data, k - 1);
      DistEntriesStep(data, k);
    }
  }

  lemma {:induction false} DistEntriesComplete(data: seq<real>, k: nat)
    requires k <= 5
    ensures forall b :: 0 <= b < k && BinCount(data, b) > 0 ==>
      exists j :: 0 <= j < |DistEntries(data, k)| && DistEntries(data, k)[j].bin == b
  {
    if k > 0 {
      DistEntriesComplete(data, k - 1);
      DistEntriesStep(data, k);
      var rest := DistEntries(data, k - 1);
      var es := DistEntries(data, k);
      forall b | 0 <= b < k && BinCount(data, b) > 0
        ensures exists j :: 0 <= j < |es| && es[j].bin == b
      {
        if b < k - 1 {
          var j :| 0 <= j < |rest| && rest[j].bin == b;
          assert es[j] == rest[j];
        } else {
          assert es[|rest|].bin == b;
        }
      }
    }
  }

  function EntryTotal(es: seq<DistEntry>): nat
  {
    if es == [] then 0 else EntryTotal(es[..|es| - 1]) + es[|es| - 1].count
  }

  /** The listed counts add up to the number of values: empty buckets are
      left out, but they count nothing. */
  lemma ListedCountsCoverData(data: seq<real>)
    ensures EntryTotal(DistEntries(data, 5)) == |data|
  {
    BinCountsPartition(data);
    EntriesTotalUpTo(data, 5);
    assert BinsUpTo(data, 1) == BinCount(data, 0);
    assert BinsUpTo(data, 3) == BinsUpTo(data, 1) + BinCount(data, 1) + BinCount(data, 2);
    assert BinsUpTo(data, 5) == BinsUpTo(data, 3) + BinCount(data, 3) + BinCount(data, 4);
  }

  lemma {:induction false} EntriesTotalUpTo(data: seq<real>, k: nat)
    requires k <= 5
    ensures EntryTotal(DistEntries(data, k)) == BinsUpTo(data, k)
  {
    if k > 0 {
      EntriesTotalUpTo(data, k - 1);
      var rest := DistEntries(data, k - 1);
      var es := DistEntries(data, k);
      if BinCount(data, k - 1) > 0 {
        assert es[..|es| - 1] == rest;
      }
    }
  }

  function BinsUpTo(data: seq<real>, k: nat): nat
  {
    if k == 0 then 0 else BinsUpTo(data, k - 1) + BinCount(data, k - 1)
  }

  /** One listed bucket: `label:count檔(pct%)`; `fmt` is the `:.1f` rendering. */
  function EntryText(e: DistEntry, total: nat, fmt: real -> string): string
    requires e.bin < 5 && total > 0
  {
    DistLabels[e.bin] + ":" + IntToString(e.count) + "檔(" + fmt(e.count as real / total as real * 100.0) + "%)"
  }

  /** `sep.join(parts)`. */
  function Join(parts: seq<string>, sep: string): string
  {
    if parts == [] then []
    else if |parts| == 1 then parts[0]
    else Join(parts[..|parts| - 1], sep) + sep + parts[|parts| - 1]
  }

  function EntryTexts(es: seq<DistEntry>, total: nat, fmt: real -> string): (ts: seq<string>)
    requires total > 0 && forall j :: 0 <= j < |es| ==> es[j].bin < 5
    ensures |ts| == |es|
  {
    if es == [] then [] else EntryTexts(es[..|es| - 1], total, fmt) + [EntryText(es[|es| - 1], total, fmt)]
  }

  /** The distribution summary of a column: "無數據" when it holds no value,
      otherwise the non-empty buckets in label order, joined by " / ". */
  method AiSummaryDist(column: seq<Option<real>>, fmt: real -> string) returns (text: string)
    ensures Present(column) == [] ==> text == "無數據"
    ensures Present(column) != [] ==>
      text == Join(EntryTexts(DistEntries(Present(column), 5), |Present(column)|, fmt), " / ")
  {
    var data := Present(column);
    if data == [] {
      return "無數據";
    }
    var total := |data|;
    var summary: seq<string> := [];
    for k := 0 to 5
      invariant summary == EntryTexts(DistEntries(data, k), total, fmt)
    {
      var count := BinCount(data, k);
      if count > 0 {
        summary := summary + [EntryText(DistEntry(k, count), total, fmt)];
      }
    }
    text := Join(summary, " / ");
  }

  // ---------------------------------------------------------------------
  // Advanced statistics of one column.

  /** A real or infinity (`float('inf')`). */
  datatype Extended = Finite(v: real) | Infinity

  /** The floating-point statistics the page takes from pandas, given as
      inputs: median, sample standard deviation, skewness, excess kurtosis
      and the two quartiles. The skewness is used only for three values or
      more and the kurtosis only for four or more: below that pandas gives
      NaN. */
  datatype GivenMoments = GivenMoments(median: real, std: real, skew: real, kurtosis: real, q25: real, q75: real)

  datatype AdvancedStats = AdvancedStats(
    mean: real,
    median: real,
    std: real,
    skew: Option<real>,
    kurtosis: Option<real>,
    cv: Extended,
    q25: real,
    q75: real,
    iqr: real,
    winRate: real,
    tailRatio: Extended,
    leftTail: nat,
    rightTail: nat,
    skewSignificance: string,
    kurtosisSignificance: string,
    meanMedianDiff: real,
    dataPoints: nat)

  function SkewSignificance(skew: real): (s: string)
  {
    if skew > 0.5 then "顯著右偏" else if skew < -0.5 then "顯著左偏" else "接近對稱"
  }

  function KurtosisSignificance(kurtosis: real): (s: string)
  {
    if kurtosis > 2.0 then "高峰態" else if kurtosis < -2.0 then "低峰態" else "常態峰態"
  }

  /** A distribution and its mirror image get opposite skew labels; a
      skewness within ±0.5 counts as symmetric, boundaries included. */
  lemma SkewLabelsMirror(skew: real)
    ensures SkewSignificance(skew) == "顯著右偏" <==> SkewSignificance(-skew) == "顯著左偏"
    ensures SkewSignificance(skew) == "接近對稱" <==> -0.5 <= skew <= 0.5
    ensures SkewSignificance(skew) == "接近對稱" <==> SkewSignificance(-skew) == "接近對稱"
  {
  }

  /** Excess kurtosis above 2 is peaked, below -2 flat, otherwise normal. */
  lemma KurtosisLabelsExact(kurtosis: real)
    ensures KurtosisSignificance(kurtosis) == "高峰態" <==> kurtosis > 2.0
    ensures KurtosisSignificance(kurtosis) == "低峰態" <==> kurtosis < -2.0
    ensures KurtosisSignificance(kurtosis) == "常態峰態" <==> -2.0 <= kurtosis <= 2.0
  {
  }

  /** The statistics of the values present in a column; `None` below two
      values. A NaN skewness (fewer than three values) or kurtosis (fewer
      than four) is `None`; it fails both comparisons of its label, which is
      then the neutral one. */
  function AdvancedStatsOf(column: seq<Option<real>>, m: GivenMoments): (r: Option<AdvancedStats>)
    ensures r.None? <==> |Present(column)| < 2
    ensures r.Some? ==> r.value.dataPoints == |Present(column)|
    ensures r.Some? ==> 0.0 <= r.value.winRate <= 100.0
    ensures r.Some? ==> r.value.leftTail + r.value.rightTail <= r.value.dataPoints
    ensures r.Some? ==> (r.value.tailRatio == Infinity <==> r.value.leftTail == 0)
    ensures r.Some? ==> (r.value.cv == Infinity <==> r.value.mean == 0.0)
    ensures r.Some? ==> r.value.meanMedianDiff == r.value.mean - r.value.median
    ensures r.Some? ==> r.value.mean == Sum(Present(column)) / |Present(column)| as real
    ensures r.Some? ==> r.value.winRate == Percent(CountAbove(Present(column), 0.0), |Present(column)|)
    ensures r.Some? ==> r.value.leftTail == CountBelow(Present(column), -5.0) && r.value.rightTail == CountAbove(Present(column), 5.0)
    ensures r.Some? && r.value.leftTail > 0 ==> r.value.tailRatio == Finite(r.value.rightTail as real / r.value.leftTail as real)
    ensures r.Some? && r.value.mean != 0.0 ==> r.value.cv == Finite(m.std / Abs(r.value.mean) * 100.0)
    ensures r.Some? ==> (r.value.skew.Some? <==> |Present(column)| >= 3)
    ensures r.Some? ==> (r.value.kurtosis.Some? <==> |Present(column)| >= 4)
    ensures r.Some? && r.value.skew.Some? ==> r.value.skew.value == m.skew && r.value.skewSignificance == SkewSignificance(m.skew)
    ensures r.Some? && r.value.kurtosis.Some? ==> r.value.kurtosis.value == m.kurtosis && r.value.kurtosisSignificance == KurtosisSignificance(m.kurtosis)
    ensures r.Some? && r.value.skew.None? ==> r.value.skewSignificance == "接近對稱"
    ensures r.Some? && r.value.kurtosis.None? ==> r.value.kurtosisSignificance == "常態峰態"
    ensures r.Some? ==> r.value.iqr == m.q75 - m.q25
  {
    var data := Present(column);
    if |data| < 2 then None
    else
      var n := |data|;
      var mean := Sum(data) / n as real;
      var left := CountBelow(data, -5.0);
      var right := CountAbove(data, 5.0);
      TailsDisjoint(data, -5.0, 5.0);
      var wins := CountAbove(data, 0.0);
      Some(AdvancedStats(
        mean := mean,
        median := m.median,
        std := m.std,
        skew := if n >= 3 then Some(m.skew) else None,
        kurtosis := if n >= 4 then Some(m.kurtosis) else None,
        cv := if mean != 0.0 then Finite(m.std / Abs(mean) * 100.0) else Infinity,
        q25 := m.q25,
        q75 := m.q75,
        iqr := m.q75 - m.q25,
        winRate := Percent(wins, n),
        tailRatio := if left > 0 then Finite(right as real / left as real) else Infinity,
        leftTail := left,
        rightTail := right,
        skewSignificance := if n >= 3 then SkewSignificance(m.skew) else "接近對稱",
        kurtosisSignificance := if n >= 4 then KurtosisSignificance(m.kurtosis) else "常態峰態",
        meanMedianDiff := mean - m.median,
        dataPoints := n))
  }

  /** With only two values pandas' skewness and kurtosis are NaN, so both
      labels are the neutral ones whatever the given moments are. */
  lemma TwoValuesNeutralLabels(column: seq<Option<real>>, m: GivenMoments)
    requires |Present(column)| == 2
    ensures AdvancedStatsOf(column, m).Some?
    ensures AdvancedStatsOf(column, m).value.skewSignificance == "接近對稱"
    ensures AdvancedStatsOf(column, m).value.kurtosisSignificance == "常態峰態"
  {
  }

  /** The five windows around the announcement date, in page order. */
  datatype Stage = PreMonth | PreWeek | AnnounceWeek | AfterWeek1 | AfterMonth

  const Stages: seq<Stage> := [PreMonth, PreWeek, AnnounceWeek, AfterWeek1, AfterMonth]

  /** A stage that has statistics, and its statistics. */
  datatype StageStats = StageStats(stage: Stage, stats: AdvancedStats)

  /** The stages among the first `k` whose column yields statistics, in stage order. */
  function StagesWithStats(columns: seq<seq<Option<real>>>, given: seq<GivenMoments>, k: nat): (r: seq<StageStats>)
    requires |columns| == 5 && |given| == 5 && k <= 5
    ensures |r| <= k
  {
    if k == 0 then []
    else
      var rest := StagesWithStats(columns, given, k - 1);
      match AdvancedStatsOf(columns[k - 1], given[k - 1])
      case None => rest
      case Some(s) => rest + [StageStats(Stages[k - 1], s)]
  }

  /** The loop that fills `advanced_stats`, one stage at a time. */
  method CollectAdvancedStats(columns: seq<seq<Option<real>>>, given: seq<GivenMoments>) returns (stats: seq<StageStats>)
    requires |columns| == 5 && |given| == 5
    ensures stats == StagesWithStats(columns, given, 5)
  {
    stats := [];
    for k := 0 to 5
      invariant stats == StagesWithStats(columns, given, k)
    {
      var s := AdvancedStatsOf(columns[k], given[k]);
      if s.Some? {
        stats := stats + [StageStats(Stages[k], s.value)];
      }
    }
  }

  function StageIndex(s: Stage): (i: nat)
    ensures i < 5 && Stages[i] == s
  {
    match s
    case PreMonth => 0
    case PreWeek => 1
    case AnnounceWeek => 2
    case AfterWeek1 => 3
    case AfterMonth => 4
  }

  /** The listed stages keep page order. */
  predicate InStageOrder(r: seq<StageStats>)
  {
    forall i, j :: 0 <= i < j < |r| ==> StageIndex(r[i].stage) < StageIndex(r[j].stage)
  }

  /** Every listed stage is among the first `k` and carries its column's statistics. */
  predicate FromColumns(r: seq<StageStats>, columns: seq<seq<Option<real>>>, given: seq<GivenMoments>, k: nat)
    requires |columns| == 5 && |given| == 5
  {
    forall i :: 0 <= i < |r| ==>
      (StageIndex(r[i].stage) < k
       && AdvancedStatsOf(columns[StageIndex(r[i].stage)], given[StageIndex(r[i].stage)]) == Some(r[i].stats))
  }

  /** Every stage among the first `k` whose column has two values is listed. */
  predicate ListsEvery(r: seq<StageStats>, columns: seq<seq<Option<real>>>, k: nat)
    requires |columns| == 5 && k <= 5
  {
    forall b :: 0 <= b < k && |Present(columns[b])| >= 2 ==> exists i :: 0 <= i < |r| && r[i].stage == Stages[b]
  }

  /** A stage is listed exactly when its column has at least two values, with
      the statistics of that column, and the listed stages keep page order. */
  lemma StagesWithStatsExact(columns: seq<seq<Option<real>>>, given: seq<GivenMoments>)
    requires |columns| == 5 && |given| == 5
    ensures InStageOrder(StagesWithStats(columns, given, 5))
    ensures FromColumns(StagesWithStats(columns, given, 5), columns, given, 5)
    ensures ListsEvery(StagesWithStats(columns, given, 5), columns, 5)
  {
    StagesInOrder(columns, given, 5);
    StagesFromColumns(columns, given, 5);
    StagesListEvery(columns, given, 5);
  }

  lemma StageIndexOfStages(k: nat)
    requires k < 5
    ensures StageIndex(Stages[k]) == k
  {
    assert Stages[k] == Stages[StageIndex(Stages[k])];
  }

  /** One more stage keeps the stages already listed and appends the new
      one when its column has two values. */
  lemma StagesExtend(columns: seq<seq<Option<real>>>, given: seq<GivenMoments>, k: nat)
    requires |columns| == 5 && |given| == 5 && 0 < k <= 5
    ensures AdvancedStatsOf(columns[k - 1], given[k - 1]).Some? ==>
      StagesWithStats(columns, given, k)
      == StagesWithStats(columns, given, k - 1) + [StageStats(Stages[k - 1], AdvancedStatsOf(columns[k - 1], given[k - 1]).value)]
    ensures AdvancedStatsOf(columns[k - 1], given[k - 1]).None? ==>
      StagesWithStats(columns, given, k) == StagesWithStats(columns, given, k - 1)
  {
  }

  lemma {:induction false} StagesFromColumns(columns: seq<seq<Option<real>>>, given: seq<GivenMoments>, k: nat)
    requires |columns| == 5 && |given| == 5 && k <= 5
    ensures FromColumns(StagesWithStats(columns, given, k), columns, given, k)
  {
    if k > 0 {
      StagesFromColumns(columns, given, k - 1);
      StagesExtend(columns, given, k);
      StageIndexOfStages(k - 1);
      var rest := StagesWithStats(columns, given, k - 1);
      var r := StagesWithStats(columns, given, k);
      if AdvancedStatsOf(columns[k - 1], given[k - 1]).Some? {
        forall i | 0 <= i < |rest|
          ensures r[i] == rest[i]
        {
        }
      }
    }
  }

  lemma {:induction false} StagesInOrder(columns: seq<seq<Option<real>>>, given: seq<GivenMoments>, k: nat)
    requires |columns| == 5 && |given| == 5 && k <= 5
    ensures InStageOrder(StagesWithStats(columns, given, k))
  {
    if k > 0 {
      StagesInOrder(columns, given, k - 1);
      StagesFromColumns(columns, given, k - 1);
      StagesExtend(columns, given, k);
      StageIndexOfStages(k - 1);
      var rest := StagesWithStats(columns, given, k - 1);
      var st := AdvancedStatsOf(columns[k - 1], given[k - 1]);
      if st.Some? {
        InStageOrderSnoc(rest, StageStats(Stages[k - 1], st.value), k - 1);
      }
    }
  }

  /** A stage later than every listed one can be appended in order. */
  lemma InStageOrderSnoc(rest: seq<StageStats>, x: StageStats, k: nat)
    requires InStageOrder(rest) && StageIndex(x.stage) == k
    requires forall i :: 0 <= i < |rest| ==> StageIndex(rest[i].stage) < k
    ensures InStageOrder(rest + [x])
  {
    var r := rest + [x];
    forall i, j | 0 <= i < j < |r|
      ensures StageIndex(r[i].stage) < StageIndex(r[j].stage)
    {
      assert r[i] == rest[i];
    }
  }

  lemma {:induction false} StagesListEvery(columns: seq<seq<Option<real>>>, given: seq<GivenMoments>, k: nat)
    requires |columns| == 5 && |given| == 5 && k <= 5
    ensures ListsEvery(StagesWithStats(columns, given, k), columns, k)
  {
    if k > 0 {
      StagesListEvery(columns, given, k - 1);
      StagesExtend(columns, given, k);
      var rest := StagesWithStats(columns, given, k - 1);
      var r := StagesWithStats(columns, given, k);
      forall b | 0 <= b < k && |Present(columns[b])| >= 2
        ensures exists i :: 0 <= i < |r| && r[i].stage == Stages[b]
      {
        if b < k - 1 {
          var i :| 0 <= i < |rest| && rest[i].stage == Stages[b];
          assert r[i] == rest[i];
        } else {
          assert r[|rest|].stage == Stages[b];
        }
      }
    }
  }

  // ---------------------------------------------------------------------
  // The outlier filter.

  const DefaultOutlierThreshold: real := 1.5

  /** The interquartile fences. */
  function LowerFence(q1: real, q3: real, t: real): real { q1 - t * (q3 - q1) }
  function UpperFence(q1: real, q3: real, t: real): real { q3 + t * (q3 - q1) }

  predicate IsOutlier(x: Option<real>, q1: real, q3: real, t: real)
  {
    x.Some? && (x.value < LowerFence(q1, q3, t) || x.value > UpperFence(q1, q3, t))
  }

  /** The positions, from `from` on, of the values outside the fences. */
  function OutliersFrom(column: seq<Option<real>>, q1: real, q3: real, t: real, from: nat): (r: seq<nat>)
    requires from <= |column|
    ensures forall i :: i in r <==> from <= i < |column| && IsOutlier(column[i], q1, q3, t)
    ensures forall i, j :: 0 <= i < j < |r| ==> r[i] < r[j]
    ensures forall j :: 0 <= j < |r| ==> r[j] >= from
    decreases |column| - from
  {
    if from == |column| then []
    else
      var rest := OutliersFrom(column, q1, q3, t, from + 1);
      if IsOutlier(column[from], q1, q3, t) then [from] + rest else rest
  }

  /** `detect_outliers`: nothing when fewer than four values are present;
      otherwise the rows, in order, strictly below `Q1 - t·IQR` or strictly
      above `Q3 + t·IQR` (a missing value is neither). The quartiles are inputs. */
  function DetectOutliers(column: seq<Option<real>>, q1: real, q3: real, t: real): (r: seq<nat>)
    ensures |Present(column)| < 4 ==> r == []
    ensures |Present(column)| >= 4 ==> forall i :: i in r <==> 0 <= i < |column| && IsOutlier(column[i], q1, q3, t)
    ensures forall i, j :: 0 <= i < j < |r| ==> r[i] < r[j]
  {
    if |Present(column)| < 4 then [] else OutliersFrom(column, q1, q3, t, 0)
  }

  /** A wider fence (a larger threshold) flags no new rows. */
  lemma OutliersShrinkWithThreshold(column: seq<Option<real>>, q1: real, q3: real, t1: real, t2: real)
    requires q1 <= q3 && t1 <= t2
    ensures forall i :: i in DetectOutliers(column, q1, q3, t2) ==> i in DetectOutliers(column, q1, q3, t1)
  {
    assert t1 * (q3 - q1) <= t2 * (q3 - q1) by {
      assert (t2 - t1) * (q3 - q1) >= 0.0;
    }
  }

  // ---------------------------------------------------------------------
  // First-crossing ("spark") events.

  /** One monthly revenue row of a stock. */
  datatype RevenueMonth = RevenueMonth(reportMonth: string, metric: Option<real>)

  /** The rows the query reads for a stock: the target year and last December. */
  function RawEvents(rows: seq<RevenueMonth>, y: int): (r: seq<RevenueMonth>)
    ensures |r| <= |rows|
    ensures forall x :: x in r <==> x in rows && InTimingRows(x.reportMonth, y)
  {
    if rows == [] then []
    else (if InTimingRows(rows[0].reportMonth, y) then [rows[0]] else []) + RawEvents(rows[1..], y)
  }

  /** `LAG(metric) OVER (PARTITION BY stock_id ORDER BY report_month)`: the
      previous row's metric, NULL for the first row. */
  function PrevMetric(rows: seq<RevenueMonth>, i: nat): Option<real>
    requires i < |rows|
  {
    if i == 0 then None else rows[i - 1].metric
  }

  /** Row `i` of a stock's rows (read in `report_month` order) is a spark: a
      target-year month whose metric reaches the limit while the previous
      row's did not or is missing. */
  predicate IsSpark(rows: seq<RevenueMonth>, i: nat, y: int, limit: real)
    requires i < |rows|
  {
    rows[i].metric.Some? && rows[i].metric.value >= limit
    && (PrevMetric(rows, i).None? || PrevMetric(rows, i).value < limit)
    && InTimingTarget(rows[i].reportMonth, y)
  }

  /** The spark months of one stock; `rows` are its rows in `report_month` order. */
  function SparkMonths(rows: seq<RevenueMonth>, y: int, limit: real): (months: seq<string>)
    ensures forall m :: m in months ==> InTimingTarget(m, y)
  {
    var raw := RawEvents(rows, y);
    SparksFrom(raw, y, limit, 0)
  }

  function SparksFrom(raw: seq<RevenueMonth>, y: int, limit: real, from: nat): (months: seq<string>)
    requires from <= |raw|
    ensures forall m :: m in months <==> exists i :: from <= i < |raw| && IsSpark(raw, i, y, limit) && raw[i].reportMonth == m
    decreases |raw| - from
  {
    if from == |raw| then []
    else
      var rest := SparksFrom(raw, y, limit, from + 1);
      if IsSpark(raw, from, y, limit) then [raw[from].reportMonth] + rest else rest
  }

  /** A spark is a first crossing: the next row of the same stock cannot be one. */
  lemma NoAdjacentSparks(rows: seq<RevenueMonth>, i: nat, y: int, limit: real)
    requires i + 1 < |rows| && IsSpark(rows, i, y, limit)
    ensures !IsSpark(rows, i + 1, y, limit)
  {
  }

  /** Last December's row is read only as a predecessor: dropping it can turn
      the target year's first month into a spark, and changes nothing else. */
  lemma PreviousDecemberOnlySuppresses(rows: seq<RevenueMonth>, i: nat, y: int, limit: real)
    requires 1 <= i < |rows| && !InTimingTarget(rows[0].reportMonth, y)
    ensures !IsSpark(rows, 0, y, limit)
    ensures IsSpark(rows, i, y, limit) ==> IsSpark(rows[1..], i - 1, y, limit)
    ensures i >= 2 ==> (IsSpark(rows, i, y, limit) <==> IsSpark(rows[1..], i - 1, y, limit))
  {
  }

  // ---------------------------------------------------------------------
  // Day windows around the announcement date.

  /** `(w_close - LAG(w_close)) / NULLIF(LAG(w_close), 0) * 100`. */
  function WeeklyReturn(prevClose: Option<real>, close: Option<real>): (r: Option<real>)
    ensures r.Some? <==> prevClose.Some? && close.Some? && prevClose.value != 0.0
  {
    if prevClose.None? || close.None? || prevClose.value == 0.0 then None
    else Some((close.value - prevClose.value) / prevClose.value * 100.0)
  }

  /** Whether a weekly bar `d` days after the base date belongs to a stage. */
  predicate InStage(s: Stage, d: int)
  {
    match s
    case PreMonth => -38 <= d < -9
    case PreWeek => -9 <= d <= -3
    case AnnounceWeek => -3 < d <= 4
    case AfterWeek1 => 4 < d <= 11
    case AfterMonth => 11 < d <= 30
  }

  /** The stage of a day offset, if any. */
  function StageOf(d: int): (s: Option<Stage>)
    ensures s.Some? <==> -38 <= d <= 30
  {
    if -38 <= d < -9 then Some(PreMonth)
    else if d <= -3 && -38 <= d then Some(PreWeek)
    else if -38 <= d <= 4 then Some(AnnounceWeek)
    else if 4 < d <= 11 then Some(AfterWeek1)
    else if 11 < d <= 30 then Some(AfterMonth)
    else None
  }

  /** The windows are disjoint and cover days -38 to 30: a bar is in a stage
      exactly when that stage is its stage. */
  lemma StageWindowsPartition(d: int, s: Stage)
    ensures InStage(s, d) <==> StageOf(d) == Some(s)
  {
  }

  /** One weekly bar joined to an event: its day offset from the base date and its return. */
  datatype WeekBar = WeekBar(offset: int, ret: Option<real>)

  /** The returns `AVG(CASE WHEN <window> THEN weekly_ret END)` averages. */
  function StageReturns(bars: seq<WeekBar>, s: Stage): (r: seq<real>)
    ensures |r| <= |bars|
  {
    if bars == [] then []
    else
      var rest := StageReturns(bars[1..], s);
      if InStage(s, bars[0].offset) && bars[0].ret.Some? then [bars[0].ret.value] + rest else rest
  }

  /** The stage's average, NULL when no bar of the window has a return;
      the month before the announcement is scaled by four weeks. */
  function StageAverage(bars: seq<WeekBar>, s: Stage): (r: Option<real>)
    ensures r.None? <==> StageReturns(bars, s) == []
  {
    match Mean(StageReturns(bars, s))
    case None => None
    case Some(a) => Some(if s == PreMonth then a * 4.0 else a)
  }

  /** An event is reported only when its week-before average exists. */
  predicate EventKept(bars: seq<WeekBar>)
  {
    StageAverage(bars, PreWeek).Some?
  }

  /** A stage has an average exactly when some bar of its window has a return. */
  lemma {:induction false} StageReturnsExist(bars: seq<WeekBar>, s: Stage)
    ensures StageReturns(bars, s) != [] <==> exists j :: 0 <= j < |bars| && InStage(s, bars[j].offset) && bars[j].ret.Some?
  {
    if bars != [] {
      StageReturnsExist(bars[1..], s);
      assert forall j :: 1 <= j < |bars| ==> bars[1..][j - 1] == bars[j];
    }
  }

  /** `WHERE pre_week IS NOT NULL`: an event is kept exactly when some weekly
      bar 9 to 3 days before the base date has a return. */
  lemma EventKeptExact(bars: seq<WeekBar>)
    ensures EventKept(bars) <==> exists j :: 0 <= j < |bars| && -9 <= bars[j].offset <= -3 && bars[j].ret.Some?
  {
    StageReturnsExist(bars, PreWeek);
  }

  /** The bars with a return within days -38 to 30. */
  function InWindowCount(bars: seq<WeekBar>): nat
  {
    if bars == [] then 0
    else (if -38 <= bars[0].offset <= 30 && bars[0].ret.Some? then 1 else 0) + InWindowCount(bars[1..])
  }

  /** Each bar with a return inside days -38 to 30 is averaged into exactly one stage. */
  lemma {:induction false} StagesShareBars(bars: seq<WeekBar>)
    ensures |StageReturns(bars, PreMonth)| + |StageReturns(bars, PreWeek)| + |StageReturns(bars, AnnounceWeek)|
      + |StageReturns(bars, AfterWeek1)| + |StageReturns(bars, AfterMonth)| == InWindowCount(bars)
  {
    if bars != [] {
      StagesShareBars(bars[1..]);
    }
  }
}
