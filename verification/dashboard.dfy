/** The main heatmap dashboard (app.py) and its maximum-return twin: the
    choice of the aggregate the heatmap shows, the per-bucket summary rows,
    the "worst falling" and "best rising" buckets picked for the analysis
    prompt, the falling and rising totals, the sample count shown at the top
    of the page, and the summary table the prompt embeds. */
module Dashboard {
  import opened Common
  import opened Text
  import opened Buckets

  // ---------------------------------------------------------------------
  // The aggregate dispatch.

  /** The aggregates the heatmap can show. */
  datatype Aggregate = Median | Average | StdDev | CoefVar | Skewness | Kurtosis | Iqr | PositiveShare

  /** The choice the dispatch makes: the aggregate and the label it prints. */
  datatype Selection = Selection(agg: Aggregate, statLabel: string)

  /** The sidebar name of each aggregate. */
  function MethodName(a: Aggregate): string
  {
    match a
    case Median => "中位數 (排除極端值)"
    case Average => "平均值 (含極端值)"
    case StdDev => "標準差 (波動程度)"
    case CoefVar => "變異係數 (相對波動)"
    case Skewness => "偏度 (分佈形狀)"
    case Kurtosis => "峰度 (尾部厚度)"
    case Iqr => "四分位距 (離散程度)"
    case PositiveShare => "正樣本比例"
  }

  /** The label printed beside each aggregate. */
  function StatLabel(a: Aggregate): string
  {
    match a
    case Median => "中位數"
    case Average => "平均值"
    case StdDev => "標準差"
    case CoefVar => "變異係數%"
    case Skewness => "偏度"
    case Kurtosis => "峰度"
    case Iqr => "四分位距"
    case PositiveShare => "正增長比例%"
  }

  /** The sidebar's list of methods, in the order it offers them. */
  const MethodNames: seq<string> := [
    "中位數 (排除極端值)",
    "平均值 (含極端值)",
    "標準差 (波動程度)",
    "變異係數 (相對波動)",
    "偏度 (分佈形狀)",
    "峰度 (尾部厚度)",
    "四分位距 (離散程度)",
    "正樣本比例"
  ]

  /** The `if`/`elif` chain on the method name; an unknown name falls back to
      the average. */
  function SelectAggregate(name: string): (sel: Selection)
    ensures sel.agg == Average ==> sel.statLabel == "平均值"
  {
    if name == "中位數 (排除極端值)" then Selection(Median, "中位數")
    else if name == "平均值 (含極端值)" then Selection(Average, "平均值")
    else if name == "標準差 (波動程度)" then Selection(StdDev, "標準差")
    else if name == "變異係數 (相對波動)" then Selection(CoefVar, "變異係數%")
    else if name == "偏度 (分佈形狀)" then Selection(Skewness, "偏度")
    else if name == "峰度 (尾部厚度)" then Selection(Kurtosis, "峰度")
    else if name == "四分位距 (離散程度)" then Selection(Iqr, "四分位距")
    else if name == "正樣本比例" then Selection(PositiveShare, "正增長比例%")
    else Selection(Average, "平均值")
  }

  /** Each named method selects its own aggregate and label. */
  lemma SelectNamedMethod(a: Aggregate)
    ensures SelectAggregate(MethodName(a)) == Selection(a, StatLabel(a))
  {
  }

  /** A name that is none of the eight selects the average, labelled 平均值. */
  lemma UnknownMethodIsAverage(name: string)
    requires forall a: Aggregate :: name != MethodName(a)
    ensures SelectAggregate(name) == Selection(Average, "平均值")
  {
    assert name != MethodName(Median) && name != MethodName(Average);
    assert name != MethodName(StdDev) && name != MethodName(CoefVar);
    assert name != MethodName(Skewness) && name != MethodName(Kurtosis);
    assert name != MethodName(Iqr) && name != MethodName(PositiveShare);
  }

  /** The sidebar offers exactly the eight names the dispatch knows. */
  lemma SidebarOffersEveryMethod()
    ensures |MethodNames| == 8
    ensures forall a: Aggregate :: MethodName(a) in MethodNames
    ensures forall name :: name in MethodNames ==> SelectAggregate(name).statLabel != "平均值" || name == MethodName(Average)
  {
    forall a: Aggregate ensures MethodName(a) in MethodNames {
      match a
      case Median => assert MethodNames[0] == MethodName(a);
      case Average => assert MethodNames[1] == MethodName(a);
      case StdDev => assert MethodNames[2] == MethodName(a);
      case CoefVar => assert MethodNames[3] == MethodName(a);
      case Skewness => assert MethodNames[4] == MethodName(a);
      case Kurtosis => assert MethodNames[5] == MethodName(a);
      case Iqr => assert MethodNames[6] == MethodName(a);
      case PositiveShare => assert MethodNames[7] == MethodName(a);
    }
  }

  /** `SUM(CASE WHEN x > 0 THEN 1 ELSE 0 END) * 100.0 / COUNT(*)`: the share of
      positive values, in percent, of a non-empty group. */
  function PositiveShareOf(xs: seq<real>): (p: real)
    requires xs != []
    ensures 0.0 <= p <= 100.0
    ensures p == 100.0 <==> CountAbove(xs, 0.0) == |xs|
    ensures p == 0.0 <==> CountAbove(xs, 0.0) == 0
  {
    Percent(CountAbove(xs, 0.0), |xs|)
  }

  /** The heatmap's coefficient of variation: `CASE WHEN AVG = 0 THEN 0 ELSE
      STDDEV / ABS(AVG) * 100 END`, with the standard deviation NULL for a
      single value. */
  function HeatmapCoefVar(avg: real, std: Option<real>): (r: Option<real>)
    ensures avg == 0.0 ==> r == Some(0.0)
    ensures avg != 0.0 ==> (r.Some? <==> std.Some?)
    ensures r.Some? && std.Some? && std.value >= 0.0 ==> r.value >= 0.0
  {
    if avg == 0.0 then Some(0.0)
    else if std.None? then None
    else Some(std.value / Abs(avg) * 100.0)
  }

  /** The summary's coefficient of variation: `STDDEV / NULLIF(AVG, 0)`,
      neither in percent nor on the absolute mean. */
  function SummaryCoefVar(avg: real, std: Option<real>): (r: Option<real>)
    ensures r.Some? <==> avg != 0.0 && std.Some?
  {
    if avg == 0.0 || std.None? then None else Some(std.value / avg)
  }

  /** The two coefficients of variation the dashboard shows agree up to a
      factor of 100 and the sign of the mean, and disagree on a zero mean. */
  lemma CoefVarsAgree(avg: real, std: Option<real>)
    ensures avg > 0.0 && std.Some? ==> HeatmapCoefVar(avg, std).value == 100.0 * SummaryCoefVar(avg, std).value
    ensures avg < 0.0 && std.Some? ==> HeatmapCoefVar(avg, std).value == -100.0 * SummaryCoefVar(avg, std).value
    ensures avg == 0.0 ==> HeatmapCoefVar(avg, std) == Some(0.0) && SummaryCoefVar(avg, std).None?
  {
  }

  // ---------------------------------------------------------------------
  // Summary rows, and the buckets the prompt highlights.

  /** One row of the per-bucket summary query. */
  datatype SummaryRow = SummaryRow(
    returnBin: string,
    binOrder: nat,
    stockCount: nat,
    avgAnnualReturn: real,
    meanVal: real,
    medianVal: real,
    stdVal: Option<real>,
    cvVal: Option<real>,
    iqrVal: real,
    positiveRate: real)

  /** Which side of the market a bucket is on, found by the label's text. */
  datatype Side = Falling | Rising

  /** `return_bin.str.contains('下跌')` or `.str.contains('上漲')`. */
  predicate OnSide(row: SummaryRow, side: Side)
  {
    match side
    case Falling => Contains(row.returnBin, "下跌")
    case Rising => Contains(row.returnBin, "上漲")
  }

  /** `a` beats `b` on this side: a lower average return for the worst
      falling bucket, a higher one for the best rising bucket. */
  predicate Beats(side: Side, a: real, b: real)
  {
    match side
    case Falling => a < b
    case Rising => a > b
  }

  /** The position `idxmin`/`idxmax` returns on the rows of one side: the
      first row on that side whose average annual return no other row on that
      side beats; `None` when no row is on that side. */
  function ExtremeIndex(rows: seq<SummaryRow>, side: Side): (i: Option<nat>)
    ensures i.None? <==> forall j :: 0 <= j < |rows| ==> !OnSide(rows[j], side)
    ensures i.Some? ==> i.value < |rows| && OnSide(rows[i.value], side)
    ensures i.Some? ==> forall j :: 0 <= j < |rows| && OnSide(rows[j], side) ==>
      !Beats(side, rows[j].avgAnnualReturn, rows[i.value].avgAnnualReturn)
    ensures i.Some? ==> forall j :: 0 <= j < i.value && OnSide(rows[j], side) ==>
      Beats(side, rows[i.value].avgAnnualReturn, rows[j].avgAnnualReturn)
    decreases |rows|
  {
    if rows == [] then None
    else
      var n := |rows| - 1;
      var p := ExtremeIndex(rows[..n], side);
      assert forall j :: 0 <= j < n ==> rows[..n][j] == rows[j];
      if OnSide(rows[n], side) && (p.None? || Beats(side, rows[n].avgAnnualReturn, rows[p.value].avgAnnualReturn))
      then Some(n)
      else p
  }

  /** The name, average return and positive rate the prompt quotes for a bucket. */
  datatype Highlight = Highlight(binName: string, avgReturn: real, posRate: real)

  /** The worst falling or best rising bucket, or "無資料" with zeros when the
      summary has no bucket on that side. */
  function HighlightOf(rows: seq<SummaryRow>, side: Side): (h: Highlight)
    ensures (forall j :: 0 <= j < |rows| ==> !OnSide(rows[j], side)) ==> h == Highlight("無資料", 0.0, 0.0)
    ensures (exists j :: 0 <= j < |rows| && OnSide(rows[j], side)) ==>
      exists i :: 0 <= i < |rows| && OnSide(rows[i], side)
        && h == Highlight(rows[i].returnBin, rows[i].avgAnnualReturn, rows[i].positiveRate)
        && forall j :: 0 <= j < |rows| && OnSide(rows[j], side) ==> !Beats(side, rows[j].avgAnnualReturn, h.avgReturn)
  {
    match ExtremeIndex(rows, side)
    case None => Highlight("無資料", 0.0, 0.0)
    case Some(i) => Highlight(rows[i].returnBin, rows[i].avgAnnualReturn, rows[i].positiveRate)
  }

  /** The worst falling bucket has the lowest average return of all falling
      buckets, the best rising bucket the highest of all rising ones. */
  lemma HighlightIsExtreme(rows: seq<SummaryRow>, j: nat)
    requires j < |rows|
    ensures OnSide(rows[j], Falling) ==> HighlightOf(rows, Falling).avgReturn <= rows[j].avgAnnualReturn
    ensures OnSide(rows[j], Rising) ==> HighlightOf(rows, Rising).avgReturn >= rows[j].avgAnnualReturn
  {
  }

  /** The sum of `stock_count` over the rows on one side. */
  function SideTotal(rows: seq<SummaryRow>, side: Side): (n: nat)
    ensures n <= CountTotal(rows)
  {
    if rows == [] then 0
    else (if OnSide(rows[0], side) then rows[0].stockCount else 0) + SideTotal(rows[1..], side)
  }

  /** The sum of `stock_count` over all rows. */
  function CountTotal(rows: seq<SummaryRow>): nat
  {
    if rows == [] then 0 else rows[0].stockCount + CountTotal(rows[1..])
  }

  /** A row as the close-price summary query produces it: its label is the
      label of its `bin_order`. */
  predicate CloseRow(row: SummaryRow)
  {
    row.binOrder <= 21 && row.returnBin == CloseLabel(row.binOrder)
  }

  /** On the close-price summary every bucket is falling or rising and none is
      both, so the falling and rising totals add up to all stocks. */
  lemma {:induction false} SidesSplitTotal(rows: seq<SummaryRow>)
    requires forall j :: 0 <= j < |rows| ==> CloseRow(rows[j])
    ensures SideTotal(rows, Falling) + SideTotal(rows, Rising) == CountTotal(rows)
  {
    if rows != [] {
      CloseLabelDirection(rows[0].binOrder);
      SidesSplitTotal(rows[1..]);
    }
  }

  /** A side that holds every row counts every stock; a side that holds no row counts none. */
  lemma {:induction false} SideTotalAllOrNone(rows: seq<SummaryRow>, side: Side)
    ensures (forall j :: 0 <= j < |rows| ==> OnSide(rows[j], side)) ==> SideTotal(rows, side) == CountTotal(rows)
    ensures (forall j :: 0 <= j < |rows| ==> !OnSide(rows[j], side)) ==> SideTotal(rows, side) == 0
  {
    if rows != [] {
      SideTotalAllOrNone(rows[1..], side);
      assert forall j :: 0 <= j < |rows[1..]| ==> rows[1..][j] == rows[j + 1];
    }
  }

  // ---------------------------------------------------------------------
  // The sample count at the top of the page.

  /** One row of the heatmap query: a bucket, a report month and the number
      of stocks of the bucket with data in that month. */
  datatype HeatRow = HeatRow(returnBin: string, binOrder: nat, reportMonth: string, stockCount: nat, dataPoints: nat)

  /** The rows of one bucket. */
  function RowsOf(rows: seq<HeatRow>, bin: string): (r: seq<HeatRow>)
    ensures |r| <= |rows|
    ensures forall x :: x in r <==> x in rows && x.returnBin == bin
  {
    if rows == [] then []
    else (if rows[0].returnBin == bin then [rows[0]] else []) + RowsOf(rows[1..], bin)
  }

  /** The rows of every other bucket. */
  function RowsNotOf(rows: seq<HeatRow>, bin: string): (r: seq<HeatRow>)
    ensures |r| <= |rows|
    ensures forall x :: x in r <==> x in rows && x.returnBin != bin
  {
    if rows == [] then []
    else (if rows[0].returnBin != bin then [rows[0]] else []) + RowsNotOf(rows[1..], bin)
  }

  /** The largest `stock_count` among the rows (0 for none). */
  function MaxCount(rows: seq<HeatRow>): (m: nat)
    ensures forall x :: x in rows ==> x.stockCount <= m
    ensures rows != [] ==> exists x :: x in rows && x.stockCount == m
  {
    if rows == [] then 0
    else
      var rest := MaxCount(rows[1..]);
      assert forall x :: x in rows[1..] ==> x in rows;
      if rows[0].stockCount >= rest then rows[0].stockCount else rest
  }

  /** `df.groupby('return_bin')['stock_count'].max().sum()`: for every bucket,
      its largest monthly stock count, summed over the buckets. */
  function TotalSamples(rows: seq<HeatRow>): nat
    decreases |rows|
  {
    if rows == [] then 0
    else
      var bin := rows[0].returnBin;
      MaxCount(RowsOf(rows, bin)) + TotalSamples(RowsNotOf(rows[1..], bin))
  }

  function HeatCountTotal(rows: seq<HeatRow>): nat
  {
    if rows == [] then 0 else rows[0].stockCount + HeatCountTotal(rows[1..])
  }

  /** No bucket's count is lost: the total is at least any single row's
      count, zero for an empty query, and never more than the sum of all
      monthly counts. */
  lemma {:induction false} TotalSamplesBounds(rows: seq<HeatRow>)
    ensures rows == [] ==> TotalSamples(rows) == 0
    ensures forall x :: x in rows ==> x.stockCount <= TotalSamples(rows)
    ensures TotalSamples(rows) <= HeatCountTotal(rows)
    decreases |rows|
  {
    if rows != [] {
      var bin := rows[0].returnBin;
      var rest := RowsNotOf(rows[1..], bin);
      TotalSamplesBounds(rest);
      forall x | x in rows
        ensures x.stockCount <= TotalSamples(rows)
      {
        if x.returnBin == bin {
          assert x in RowsOf(rows, bin);
        } else {
          assert x == rows[0] || x in rows[1..];
          assert x in rest;
        }
      }
      SplitCount(rows[1..], bin);
      MaxCountAtMostSum(RowsOf(rows[1..], bin));
      assert RowsOf(rows, bin) == [rows[0]] + RowsOf(rows[1..], bin);
      MaxCountAtMostSum(RowsOf(rows, bin));
      assert HeatCountTotal(RowsOf(rows, bin)) == rows[0].stockCount + HeatCountTotal(RowsOf(rows[1..], bin));
    }
  }

  /** Splitting rows by bucket keeps the sum of the counts. */
  lemma {:induction false} SplitCount(rows: seq<HeatRow>, bin: string)
    ensures HeatCountTotal(RowsOf(rows, bin)) + HeatCountTotal(RowsNotOf(rows, bin)) == HeatCountTotal(rows)
  {
    if rows != [] {
      SplitCount(rows[1..], bin);
      if rows[0].returnBin == bin {
        assert RowsOf(rows, bin) == [rows[0]] + RowsOf(rows[1..], bin);
        assert RowsNotOf(rows, bin) == RowsNotOf(rows[1..], bin);
      } else {
        assert RowsOf(rows, bin) == RowsOf(rows[1..], bin);
        assert RowsNotOf(rows, bin) == [rows[0]] + RowsNotOf(rows[1..], bin);
      }
    }
  }

  lemma {:induction false} MaxCountAtMostSum(rows: seq<HeatRow>)
    ensures MaxCount(rows) <= HeatCountTotal(rows)
  {
    if rows != [] {
      MaxCountAtMostSum(rows[1..]);
    }
  }

  /** When every bucket has a single row (one report month), the sample count
      is the plain sum of the counts. */
  lemma {:induction false} TotalSamplesOneMonth(rows: seq<HeatRow>)
    requires forall i, j :: 0 <= i < j < |rows| ==> rows[i].returnBin != rows[j].returnBin
    ensures TotalSamples(rows) == HeatCountTotal(rows)
    decreases |rows|
  {
    if rows != [] {
      var bin := rows[0].returnBin;
      NoneOfBin(rows[1..], bin);
      assert RowsOf(rows, bin) == [rows[0]];
      assert RowsNotOf(rows[1..], bin) == rows[1..];
      TotalSamplesOneMonth(rows[1..]);
    }
  }

  /** Rows none of which is in bucket `bin` pass the filters unchanged. */
  lemma {:induction false} NoneOfBin(rows: seq<HeatRow>, bin: string)
    requires forall j :: 0 <= j < |rows| ==> rows[j].returnBin != bin
    ensures RowsOf(rows, bin) == [] && RowsNotOf(rows, bin) == rows
  {
    if rows != [] {
      NoneOfBin(rows[1..], bin);
    }
  }

  // ---------------------------------------------------------------------
  // The summary table of the prompt.

  const TableHeader: string := "| 漲幅區間 | 股票數量 | 均漲幅 | 均營收 | 中位數 | 標準差 | 變異係數 | 四分位距 | 正成長% |\n"
  const TableRule: string := "|----------|----------|--------|--------|--------|--------|----------|----------|---------|\n"

  /** The cells of one table line for a summary row, separators included.
      `fmt(x, d)` is Python's `{x:.<d>f}` (a missing value prints as `nan`);
      its digits are not modelled. */
  function TableCells(row: SummaryRow, fmt: (Option<real>, nat) -> string): seq<string>
  {
    [ "| ", row.returnBin, " | ", IntToString(row.stockCount), "檔 | ", fmt(Some(row.avgAnnualReturn), 1), "% ",
      "| ", fmt(Some(row.meanVal), 1), "% | ", fmt(Some(row.medianVal), 1), "% | ", fmt(row.stdVal, 1), " ",
      "| ", fmt(row.cvVal, 2), " | ", fmt(Some(row.iqrVal), 1), " | ", fmt(Some(row.positiveRate), 1), "% |" ]
  }

  /** One table line: the cells, then a line break. */
  function TableLine(row: SummaryRow, fmt: (Option<real>, nat) -> string): string
  {
    Concat(TableCells(row, fmt)) + "\n"
  }

  /** The table lines of all rows, in row order. */
  function TableBody(rows: seq<SummaryRow>, fmt: (Option<real>, nat) -> string): string
  {
    if rows == [] then [] else TableBody(rows[..|rows| - 1], fmt) + TableLine(rows[|rows| - 1], fmt)
  }

  /** The loop that builds the summary table: the header and rule lines,
      then one line per summary row, in row order. */
  method BuildSummaryTable(rows: seq<SummaryRow>, fmt: (Option<real>, nat) -> string) returns (table: string)
    ensures table == TableHeader + TableRule + TableBody(rows, fmt)
  {
    table := TableHeader;
    table := table + TableRule;
    ghost var head := table;
    var i := 0;
    while i < |rows|
      invariant 0 <= i <= |rows|
      invariant table == head + TableBody(rows[..i], fmt)
    {
      var line := TableLine(rows[i], fmt);
      TableBodySnoc(rows, i, fmt);
      AppendAssoc(head, TableBody(rows[..i], fmt), line);
      table := table + line;
      i := i + 1;
    }
    assert rows[..|rows|] == rows;
  }

  lemma AppendAssoc(a: string, b: string, c: string)
    ensures a + b + c == a + (b + c)
  {
  }

  lemma TableBodySnoc(rows: seq<SummaryRow>, i: nat, fmt: (Option<real>, nat) -> string)
    requires i < |rows|
    ensures TableBody(rows[..i + 1], fmt) == TableBody(rows[..i], fmt) + TableLine(rows[i], fmt)
  {
    assert rows[..i + 1][..i] == rows[..i];
  }

  /** The number of line breaks in a text. */
  function Lines(s: string): nat
  {
    if s == [] then 0 else (if s[0] == '\n' then 1 else 0) + Lines(s[1..])
  }

  lemma {:induction false} LinesAppend(s: string, t: string)
    ensures Lines(s + t) == Lines(s) + Lines(t)
  {
    if s != [] {
      assert (s + t)[0] == s[0] && (s + t)[1..] == s[1..] + t;
      LinesAppend(s[1..], t);
    } else {
      assert s + t == t;
    }
  }

  lemma {:induction false} NoLines(s: string)
    requires '\n' !in s
    ensures Lines(s) == 0
  {
    if s != [] {
      assert forall c :: c in s[1..] ==> c in s;
      NoLines(s[1..]);
    }
  }

  /** A row whose label and printed values hold no line break is one line. */
  ghost predicate SingleLineCells(row: SummaryRow, fmt: (Option<real>, nat) -> string)
  {
    '\n' !in row.returnBin
    && forall x: Option<real>, d: nat :: '\n' !in fmt(x, d)
  }

  lemma TableLineIsOneLine(row: SummaryRow, fmt: (Option<real>, nat) -> string)
    requires SingleLineCells(row, fmt)
    ensures Lines(TableLine(row, fmt)) == 1
  {
    var cells := TableCells(row, fmt);
    forall k | 0 <= k < |cells|
      ensures '\n' !in cells[k]
    {
      DigitsOnly(row.stockCount);
    }
    ConcatNoLines(cells);
    NoLines(Concat(cells));
    LinesAppend(Concat(cells), "\n");
  }

  function Concat(parts: seq<string>): string
  {
    if parts == [] then [] else Concat(parts[..|parts| - 1]) + parts[|parts| - 1]
  }

  lemma {:induction false} ConcatNoLines(parts: seq<string>)
    requires forall k :: 0 <= k < |parts| ==> '\n' !in parts[k]
    ensures '\n' !in Concat(parts)
  {
    if parts != [] {
      ConcatNoLines(parts[..|parts| - 1]);
    }
  }

  lemma DigitsOnly(n: nat)
    ensures '\n' !in IntToString(n)
  {
    var s := IntToString(n);
    assert forall i :: 0 <= i < |s| ==> s[i] != '\n';
  }

  /** After the header and rule lines, the table has one line per summary row. */
  lemma {:induction false} BodyLines(rows: seq<SummaryRow>, fmt: (Option<real>, nat) -> string)
    requires forall j :: 0 <= j < |rows| ==> SingleLineCells(rows[j], fmt)
    ensures Lines(TableBody(rows, fmt)) == |rows|
    decreases |rows|
  {
    if rows != [] {
      var n := |rows| - 1;
      BodyLines(rows[..n], fmt);
      TableLineIsOneLine(rows[n], fmt);
      LinesAppend(TableBody(rows[..n], fmt), TableLine(rows[n], fmt));
    }
  }
}
