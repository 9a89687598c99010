/** Monthly revenue reports are keyed by text `YYY_MM`: the Minguo (Republic
    of China) year, an underscore and the zero-padded month. Every page
    observes one "report year": the previous year's December report plus
    the current year's January to November reports, because a month's
    revenue is announced by the 10th of the following month. This module
    states the keys, the SQL text filters the pages put on them, and the
    announcement date computed from a key. */
module ReportCalendar {
  import opened Text

  /** The Minguo year of a Gregorian year. */
  function Minguo(gregorian: int): (y: int)
    ensures y + 1911 == gregorian
  {
    gregorian - 1911
  }

  /** The report key of Minguo year `y`, month `m`. */
  function Key(y: nat, m: nat): (k: string)
    requires m < 100
  {
    Decimal(y) + "_" + Pad2(m)
  }

  /** A key of the stored format: a three-digit Minguo year (Gregorian 2011
      to 2910, which holds every year the pages offer) and a month. */
  predicate ValidMonth(y: int, m: int)
  {
    100 <= y <= 999 && 1 <= m <= 12
  }

  /** `s LIKE p || '_%'` for a pattern text `p` without wildcards: `p`, then
      at least one more character. */
  predicate LikePrefixThenAny(s: string, p: string)
  {
    |s| > |p| && s[..|p|] == p
  }

  /** `s LIKE p || '_' || q` for texts `p`, `q` without wildcards. */
  predicate LikePrefixOneThen(s: string, p: string, q: string)
  {
    |s| == |p| + 1 + |q| && s[..|p|] == p && s[|p| + 1..] == q
  }

  /** The report-year filter of the heatmap and summary queries:
      `report_month = '{y-1}_12' OR (report_month LIKE '{y}_%' AND
      report_month < '{y}_12' AND LENGTH(report_month) <= 7)`. */
  predicate InHeatmapWindow(key: string, y: int)
  {
    key == IntToString(y - 1) + "_12"
    || (LikePrefixThenAny(key, IntToString(y)) && LexLess(key, IntToString(y) + "_12") && |key| <= 7)
  }

  /** The report-year filter of the hit counting queries:
      `report_month = '{y-1}_12' OR (report_month LIKE '{y}_%' AND
      report_month <= '{y}_11')`. */
  predicate InHitWindow(key: string, y: int)
  {
    key == IntToString(y - 1) + "_12"
    || (LikePrefixThenAny(key, IntToString(y)) && LexLessEq(key, IntToString(y) + "_11"))
  }

  /** The rows the first-crossing query reads: `report_month LIKE '{y}_%' OR
      report_month LIKE '{y-1}_12'`. */
  predicate InTimingRows(key: string, y: int)
  {
    LikePrefixThenAny(key, IntToString(y)) || LikePrefixOneThen(key, IntToString(y - 1), "12")
  }

  /** The rows a first-crossing event may come from: `report_month LIKE '{y}_%'`. */
  predicate InTimingTarget(key: string, y: int)
  {
    LikePrefixThenAny(key, IntToString(y))
  }

  /** The report year as the pages explain it: last December, then January to November. */
  predicate InReportYear(ky: int, km: int, y: int)
  {
    (ky == y - 1 && km == 12) || (ky == y && 1 <= km <= 11)
  }

  /** The twelve keys of report year `y`, oldest first. */
  function ReportYearKeys(y: nat): (keys: seq<string>)
    requires y >= 1
    ensures |keys| == 12
  {
    [Key(y - 1, 12)] + seq(11, i requires 0 <= i < 11 => Key(y, i + 1))
  }

  lemma KeyParts(y: nat, m: nat)
    requires 100 <= y <= 999 && m < 100
    ensures |Key(y, m)| == 6
    ensures Key(y, m)[..3] == Decimal(y)
    ensures Key(y, m)[3] == '_'
    ensures Key(y, m)[4..] == Pad2(m)
  {
    Decimal3(y);
  }

  /** Keys compare as their (year, month) pairs do, so ordering rows by
      `report_month` orders them by time. */
  lemma KeyOrder(y1: nat, m1: nat, y2: nat, m2: nat)
    requires 100 <= y1 <= 999 && 100 <= y2 <= 999 && m1 < 100 && m2 < 100
    ensures Key(y1, m1) == Key(y2, m2) <==> y1 == y2 && m1 == m2
    ensures LexLess(Key(y1, m1), Key(y2, m2)) <==> y1 < y2 || (y1 == y2 && m1 < m2)
  {
    Decimal3Order(y1, y2);
    Pad2Order(m1, m2);
    var p1, p2 := Decimal(y1) + "_", Decimal(y2) + "_";
    LexLessAppend(Decimal(y1), Decimal(y2), "_", "_");
    LexLessIrreflexive("_");
    LexLessAppend(p1, p2, Pad2(m1), Pad2(m2));
    assert p1 == p2 <==> Decimal(y1) == Decimal(y2) by {
      if p1 == p2 {
        assert p1[..3] == Decimal(y1) && p2[..3] == Decimal(y2);
      }
    }
    if Key(y1, m1) == Key(y2, m2) {
      assert Key(y1, m1)[..4] == p1 && Key(y2, m2)[..4] == p2;
      assert Key(y1, m1)[4..] == Pad2(m1) && Key(y2, m2)[4..] == Pad2(m2);
    }
  }

  lemma LiteralMonths()
    ensures Pad2(12) == "12" && Pad2(11) == "11" && Pad2(1) == "01"
  {
  }

  lemma LikeYearOfKey(ky: nat, km: nat, y: nat)
    requires ValidMonth(ky, km) && 100 <= y <= 999
    ensures LikePrefixThenAny(Key(ky, km), IntToString(y)) <==> ky == y
  {
    KeyParts(ky, km);
    Decimal3Order(ky, y);
  }

  /** The heatmap filter keeps exactly last December and January to November. */
  lemma HeatmapWindowExact(ky: nat, km: nat, y: nat)
    requires ValidMonth(ky, km) && 101 <= y <= 999
    ensures InHeatmapWindow(Key(ky, km), y) <==> InReportYear(ky, km, y)
  {
    LiteralMonths();
    KeyParts(ky, km);
    KeyOrder(ky, km, y - 1, 12);
    KeyOrder(ky, km, y, 12);
    LikeYearOfKey(ky, km, y);
    assert IntToString(y - 1) + "_12" == Key(y - 1, 12);
    assert IntToString(y) + "_12" == Key(y, 12);
  }

  /** The hit filter's `<= '_11'` keeps the same months as the heatmap's `< '_12'`. */
  lemma HitWindowExact(ky: nat, km: nat, y: nat)
    requires ValidMonth(ky, km) && 101 <= y <= 999
    ensures InHitWindow(Key(ky, km), y) <==> InReportYear(ky, km, y)
    ensures InHitWindow(Key(ky, km), y) <==> InHeatmapWindow(Key(ky, km), y)
  {
    LiteralMonths();
    KeyOrder(ky, km, y - 1, 12);
    KeyOrder(ky, km, y, 11);
    LikeYearOfKey(ky, km, y);
    assert IntToString(y - 1) + "_12" == Key(y - 1, 12);
    assert IntToString(y) + "_11" == Key(y, 11);
    HeatmapWindowExact(ky, km, y);
  }

  /** The first-crossing query reads the whole current year and last December,
      and takes events from the current year only. */
  lemma TimingRowsExact(ky: nat, km: nat, y: nat)
    requires ValidMonth(ky, km) && 101 <= y <= 999
    ensures InTimingRows(Key(ky, km), y) <==> ky == y || (ky == y - 1 && km == 12)
    ensures InTimingTarget(Key(ky, km), y) <==> ky == y
  {
    LiteralMonths();
    KeyParts(ky, km);
    LikeYearOfKey(ky, km, y);
    Decimal3Order(ky, y - 1);
    Pad2Order(km, 12);
    var k := Key(ky, km);
    assert LikePrefixOneThen(k, IntToString(y - 1), "12") <==> k[..3] == Decimal(y - 1) && k[4..] == "12";
  }

  /** For a year picked on a page (Gregorian 2012 to 2910), the filters built
      from its Minguo year keep the reports of December of the previous year
      and January to November of that year, and the first-crossing events
      come from that year. */
  lemma PageYearWindows(g: int, ky: nat, km: nat)
    requires ValidMonth(ky, km) && 2012 <= g <= 2910
    ensures InHeatmapWindow(Key(ky, km), Minguo(g)) <==> (ky + 1911 == g - 1 && km == 12) || (ky + 1911 == g && km <= 11)
    ensures InHitWindow(Key(ky, km), Minguo(g)) <==> InHeatmapWindow(Key(ky, km), Minguo(g))
    ensures InTimingTarget(Key(ky, km), Minguo(g)) <==> ky + 1911 == g
  {
    var y := Minguo(g);
    HeatmapWindowExact(ky, km, y);
    HitWindowExact(ky, km, y);
    TimingRowsExact(ky, km, y);
  }

  /** The report year holds twelve distinct keys, in time order, and a
      well-formed key is one of them exactly when the heatmap filter keeps it. */
  lemma ReportYearHasTwelveReports(y: nat)
    requires 101 <= y <= 999
    ensures forall i, j :: 0 <= i < j < 12 ==> LexLess(ReportYearKeys(y)[i], ReportYearKeys(y)[j])
    ensures forall ky: nat, km: nat :: ValidMonth(ky, km) ==>
      (Key(ky, km) in ReportYearKeys(y) <==> InHeatmapWindow(Key(ky, km), y))
  {
    ReportYearInOrder(y);
    forall ky: nat, km: nat | ValidMonth(ky, km)
      ensures Key(ky, km) in ReportYearKeys(y) <==> InHeatmapWindow(Key(ky, km), y)
    {
      ReportYearKeyExact(y, ky, km);
    }
  }

  lemma ReportYearInOrder(y: nat)
    requires 101 <= y <= 999
    ensures forall i, j :: 0 <= i < j < 12 ==> LexLess(ReportYearKeys(y)[i], ReportYearKeys(y)[j])
  {
    var keys := ReportYearKeys(y);
    forall i, j | 0 <= i < j < 12
      ensures LexLess(keys[i], keys[j])
    {
      if i == 0 {
        KeyOrder(y - 1, 12, y, j);
      } else {
        KeyOrder(y, i, y, j);
      }
    }
  }

  lemma ReportYearKeyExact(y: nat, ky: nat, km: nat)
    requires 101 <= y <= 999 && ValidMonth(ky, km)
    ensures Key(ky, km) in ReportYearKeys(y) <==> InHeatmapWindow(Key(ky, km), y)
  {
    HeatmapWindowExact(ky, km, y);
    if InReportYear(ky, km, y) {
      ReportYearKeyIn(y, ky, km);
    }
    if Key(ky, km) in ReportYearKeys(y) {
      ReportYearKeyOf(y, ky, km);
    }
  }

  lemma ReportYearKeyIn(y: nat, ky: nat, km: nat)
    requires 101 <= y <= 999 && ValidMonth(ky, km) && InReportYear(ky, km, y)
    ensures Key(ky, km) in ReportYearKeys(y)
  {
    var keys := ReportYearKeys(y);
    if ky == y - 1 {
      assert keys[0] == Key(ky, km);
    } else {
      assert keys[km] == Key(ky, km);
    }
  }

  lemma ReportYearKeyOf(y: nat, ky: nat, km: nat)
    requires 101 <= y <= 999 && ValidMonth(ky, km) && Key(ky, km) in ReportYearKeys(y)
    ensures InReportYear(ky, km, y)
  {
    var keys := ReportYearKeys(y);
    var i :| 0 <= i < 12 && keys[i] == Key(ky, km);
    if i == 0 {
      KeyOrder(ky, km, y - 1, 12);
    } else {
      assert keys[i] == Key(y, i);
      KeyOrder(ky, km, y, i);
    }
  }

  datatype Date = Date(year: int, month: int, day: int)

  predicate ValidDate(d: Date)
  {
    1 <= d.month <= 12 && 1 <= d.day <= 28
  }

  /** Months since year 0, so that consecutive months differ by one. */
  function MonthIndex(year: int, month: int): int
  {
    12 * year + month - 1
  }

  /** The announcement base date of the report for Minguo year `ky`, month
      `km`: the 10th of the following month; a December report rolls over to
      January 10th of the next Gregorian year. */
  function BaseDate(ky: int, km: int): (d: Date)
  {
    if km == 12 then Date(ky + 1 + 1911, 1, 10) else Date(ky + 1911, km + 1, 10)
  }

  /** The base date is a valid date on the 10th, exactly one month after the
      report month (counted in the Gregorian calendar). */
  lemma BaseDateIsNextMonthTenth(ky: int, km: int)
    requires 1 <= km <= 12
    ensures ValidDate(BaseDate(ky, km)) && BaseDate(ky, km).day == 10
    ensures MonthIndex(BaseDate(ky, km).year, BaseDate(ky, km).month) == MonthIndex(ky + 1911, km) + 1
  {
  }

  /** The text the query builds before casting it to a date. */
  function BaseDateText(ky: nat, km: nat): string
    requires km < 99
  {
    if km == 12 then Decimal(ky + 1 + 1911) + "-01-10"
    else Decimal(ky + 1911) + "-" + Pad2(km + 1) + "-10"
  }

  /** ISO `YYYY-MM-DD` text of a date with a non-negative year. */
  function IsoText(d: Date): string
    requires d.year >= 0 && 0 <= d.month < 100 && 0 <= d.day < 100
  {
    Decimal(d.year) + "-" + Pad2(d.month) + "-" + Pad2(d.day)
  }

  /** Both branches of the query's text spell the base date in ISO form,
      so the cast to a date reads back `BaseDate`. */
  lemma BaseDateTextIsIso(ky: nat, km: nat)
    requires 1 <= km <= 12
    ensures BaseDateText(ky, km) == IsoText(BaseDate(ky, km))
  {
    LiteralMonths();
    assert Pad2(10) == "10";
  }
}
