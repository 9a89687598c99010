/** The return buckets. Each page computes a stock's annual return in
    percent from its year-open price and a second price of the year (the
    close on the main heatmap, the high on the maximum-return page) and
    assigns it to a labelled, ordered bucket with a first-match SQL `CASE`.
    The `CASE` that gives the label and the `CASE` that gives `bin_order`
    are written separately in the source and are modelled separately here;
    the lemmas show that they agree. */
module Buckets {
  import opened Common
  import opened Text

  /** `((p - open) / open) * 100`. */
  function ReturnPct(open: real, p: real): (r: real)
    requires open != 0.0
    ensures open > 0.0 ==> (r >= 0.0 <==> p >= open)
  {
    ((p - open) / open) * 100.0
  }

  /** The value SQL computes for that expression: NULL when a price is
      NULL, a division error when the open price is zero. */
  datatype SqlNumber = Null | DivisionByZero | Value(v: real)

  function ReturnSql(open: Option<real>, p: Option<real>): (r: SqlNumber)
    ensures r.Value? <==> open.Some? && p.Some? && open.value != 0.0
    ensures r.Value? ==> r.v == ReturnPct(open.value, p.value)
    ensures r.DivisionByZero? <==> open.Some? && p.Some? && open.value == 0.0
  {
    if open.None? || p.None? then Null
    else if open.value == 0.0 then DivisionByZero
    else Value(ReturnPct(open.value, p.value))
  }

  /** A classified row: `return_bin` and `bin_order`. */
  datatype Classified = Classified(returnBin: string, binOrder: nat)

  // ---------------------------------------------------------------------
  // Close-price buckets: ten-point buckets below 0%, hundred-point buckets
  // from 0% to 1000%.

  /** The `return_bin` CASE of the close-price queries. */
  function CloseReturnBin(r: real): string
  {
    if r <= -100.0 then "00. 下跌-100%以下"
    else if r < -90.0 then "01. 下跌-100%至-90%"
    else if r < -80.0 then "02. 下跌-90%至-80%"
    else if r < -70.0 then "03. 下跌-80%至-70%"
    else if r < -60.0 then "04. 下跌-70%至-60%"
    else if r < -50.0 then "05. 下跌-60%至-50%"
    else if r < -40.0 then "06. 下跌-50%至-40%"
    else if r < -30.0 then "07. 下跌-40%至-30%"
    else if r < -20.0 then "08. 下跌-30%至-20%"
    else if r < -10.0 then "09. 下跌-20%至-10%"
    else if r < 0.0 then "10. 下跌-10%至0%"
    else if r < 100.0 then "11. 上漲0-100%"
    else if r < 200.0 then "12. 上漲100-200%"
    else if r < 300.0 then "13. 上漲200-300%"
    else if r < 400.0 then "14. 上漲300-400%"
    else if r < 500.0 then "15. 上漲400-500%"
    else if r < 600.0 then "16. 上漲500-600%"
    else if r < 700.0 then "17. 上漲600-700%"
    else if r < 800.0 then "18. 上漲700-800%"
    else if r < 900.0 then "19. 上漲800-900%"
    else if r < 1000.0 then "20. 上漲900-1000%"
    else "21. 上漲1000%以上"
  }

  /** The `bin_order` CASE of the close-price queries. */
  function CloseBinOrder(r: real): (k: nat)
    ensures k <= 21
  {
    if r <= -100.0 then 0
    else if r < -90.0 then 1
    else if r < -80.0 then 2
    else if r < -70.0 then 3
    else if r < -60.0 then 4
    else if r < -50.0 then 5
    else if r < -40.0 then 6
    else if r < -30.0 then 7
    else if r < -20.0 then 8
    else if r < -10.0 then 9
    else if r < 0.0 then 10
    else if r < 100.0 then 11
    else if r < 200.0 then 12
    else if r < 300.0 then 13
    else if r < 400.0 then 14
    else if r < 500.0 then 15
    else if r < 600.0 then 16
    else if r < 700.0 then 17
    else if r < 800.0 then 18
    else if r < 900.0 then 19
    else if r < 1000.0 then 20
    else 21
  }

  /** The `return_bin` CASE of the detail query, written out a third time in
      the source, which must give the same strings as the heatmap query's. */
  function DetailReturnBin(r: real): string
  {
    if r <= -100.0 then "00. 下跌-100%以下"
    else if r < -90.0 then "01. 下跌-100%至-90%"
    else if r < -80.0 then "02. 下跌-90%至-80%"
    else if r < -70.0 then "03. 下跌-80%至-70%"
    else if r < -60.0 then "04. 下跌-70%至-60%"
    else if r < -50.0 then "05. 下跌-60%至-50%"
    else if r < -40.0 then "06. 下跌-50%至-40%"
    else if r < -30.0 then "07. 下跌-40%至-30%"
    else if r < -20.0 then "08. 下跌-30%至-20%"
    else if r < -10.0 then "09. 下跌-20%至-10%"
    else if r < 0.0 then "10. 下跌-10%至0%"
    else if r < 100.0 then "11. 上漲0-100%"
    else if r < 200.0 then "12. 上漲100-200%"
    else if r < 300.0 then "13. 上漲200-300%"
    else if r < 400.0 then "14. 上漲300-400%"
    else if r < 500.0 then "15. 上漲400-500%"
    else if r < 600.0 then "16. 上漲500-600%"
    else if r < 700.0 then "17. 上漲600-700%"
    else if r < 800.0 then "18. 上漲700-800%"
    else if r < 900.0 then "19. 上漲800-900%"
    else if r < 1000.0 then "20. 上漲900-1000%"
    else "21. 上漲1000%以上"
  }

  /** The label of bucket `k`. */
  function CloseLabel(k: nat): string
    requires k <= 21
  {
    if k == 0 then "00. 下跌-100%以下"
    else if k == 1 then "01. 下跌-100%至-90%"
    else if k == 2 then "02. 下跌-90%至-80%"
    else if k == 3 then "03. 下跌-80%至-70%"
    else if k == 4 then "04. 下跌-70%至-60%"
    else if k == 5 then "05. 下跌-60%至-50%"
    else if k == 6 then "06. 下跌-50%至-40%"
    else if k == 7 then "07. 下跌-40%至-30%"
    else if k == 8 then "08. 下跌-30%至-20%"
    else if k == 9 then "09. 下跌-20%至-10%"
    else if k == 10 then "10. 下跌-10%至0%"
    else if k == 11 then "11. 上漲0-100%"
    else if k == 12 then "12. 上漲100-200%"
    else if k == 13 then "13. 上漲200-300%"
    else if k == 14 then "14. 上漲300-400%"
    else if k == 15 then "15. 上漲400-500%"
    else if k == 16 then "16. 上漲500-600%"
    else if k == 17 then "17. 上漲600-700%"
    else if k == 18 then "18. 上漲700-800%"
    else if k == 19 then "19. 上漲800-900%"
    else if k == 20 then "20. 上漲900-1000%"
    else "21. 上漲1000%以上"
  }

  /** Bucket `k` as an interval of returns, independent of the CASE chain. */
  predicate InCloseBin(k: nat, r: real)
  {
    if k == 0 then r <= -100.0
    else if k == 1 then -100.0 < r < -90.0
    else if k <= 10 then (10 * k - 110) as real <= r < (10 * k - 100) as real
    else if k == 11 then 0.0 <= r < 100.0
    else if k <= 20 then (100 * k - 1100) as real <= r < (100 * k - 1000) as real
    else if k == 21 then r >= 1000.0
    else false
  }

  /** Every return gets exactly one bucket, and it is the one whose interval
      holds the return: bucket 0 is closed at -100, bucket 1 is open at both
      ends, every other bucket includes its lower bound and excludes its upper. */
  lemma CloseBinExact(r: real, k: nat)
    ensures CloseBinOrder(r) == k <==> InCloseBin(k, r)
  {
  }

  /** A larger return never gets a lower bucket. */
  lemma CloseBinMonotone(r1: real, r2: real)
    requires r1 <= r2
    ensures CloseBinOrder(r1) <= CloseBinOrder(r2)
  {
  }

  /** The label CASE and the order CASE pick the same bucket. */
  lemma CloseLabelsAgree(r: real)
    ensures CloseReturnBin(r) == CloseLabel(CloseBinOrder(r))
  {
  }

  /** The detail query labels every return exactly as the heatmap query does,
      so a label picked from the heatmap selects the same stocks. */
  lemma DetailLabelsAgree(r: real)
    ensures DetailReturnBin(r) == CloseReturnBin(r)
  {
  }

  /** The two-digit prefix of a label is its `bin_order`. */
  lemma CloseLabelPrefix(k: nat)
    requires k <= 21
    ensures |CloseLabel(k)| > 2 && CloseLabel(k)[..2] == Pad2(k)
  {
    if k <= 10 {
      FallingLabelPrefix(k);
    } else {
      RisingLabelPrefix(k);
    }
  }

  lemma FallingLabelPrefix(k: nat)
    requires k <= 10
    ensures |CloseLabel(k)| > 2 && CloseLabel(k)[..2] == Pad2(k)
  {
  }

  lemma RisingLabelPrefix(k: nat)
    requires 11 <= k <= 21
    ensures |CloseLabel(k)| > 2 && CloseLabel(k)[..2] == Pad2(k)
  {
  }

  /** Labels 00 to 10 are the falling buckets and name a fall (下跌); labels 11
      to 21 are the rising buckets and name a rise (上漲); no label names both. */
  lemma CloseLabelDirection(k: nat)
    requires k <= 21
    ensures Contains(CloseLabel(k), "下跌") <==> k <= 10
    ensures Contains(CloseLabel(k), "上漲") <==> k >= 11
  {
    if k == 0 {
      CloseLabel0Falls();
    } else if k == 1 {
      CloseLabel1Falls();
    } else if k == 2 {
      CloseLabel2Falls();
    } else if k == 3 {
      CloseLabel3Falls();
    } else if k == 4 {
      CloseLabel4Falls();
    } else if k == 5 {
      CloseLabel5Falls();
    } else if k == 6 {
      CloseLabel6Falls();
    } else if k == 7 {
      CloseLabel7Falls();
    } else if k == 8 {
      CloseLabel8Falls();
    } else if k == 9 {
      CloseLabel9Falls();
    } else if k == 10 {
      CloseLabel10Falls();
    } else if k == 11 {
      CloseLabel11Rises();
    } else if k == 12 {
      CloseLabel12Rises();
    } else if k == 13 {
      CloseLabel13Rises();
    } else if k == 14 {
      CloseLabel14Rises();
    } else if k == 15 {
      CloseLabel15Rises();
    } else if k == 16 {
      CloseLabel16Rises();
    } else if k == 17 {
      CloseLabel17Rises();
    } else if k == 18 {
      CloseLabel18Rises();
    } else if k == 19 {
      CloseLabel19Rises();
    } else if k == 20 {
      CloseLabel20Rises();
    } else {
      CloseLabel21Rises();
    }
  }

  lemma CloseLabel0Falls()
    ensures Contains(CloseLabel(0), "下跌") && !Contains(CloseLabel(0), "上漲")
  {
    NamesFall(CloseLabel(0));
  }

  lemma CloseLabel1Falls()
    ensures Contains(CloseLabel(1), "下跌") && !Contains(CloseLabel(1), "上漲")
  {
    NamesFall(CloseLabel(1));
  }

  lemma CloseLabel2Falls()
    ensures Contains(CloseLabel(2), "下跌") && !Contains(CloseLabel(2), "上漲")
  {
    NamesFall(CloseLabel(2));
  }

  lemma CloseLabel3Falls()
    ensures Contains(CloseLabel(3), "下跌") && !Contains(CloseLabel(3), "上漲")
  {
    NamesFall(CloseLabel(3));
  }

  lemma CloseLabel4Falls()
    ensures Contains(CloseLabel(4), "下跌") && !Contains(CloseLabel(4), "上漲")
  {
    NamesFall(CloseLabel(4));
  }

  lemma CloseLabel5Falls()
    ensures Contains(CloseLabel(5), "下跌") && !Contains(CloseLabel(5), "上漲")
  {
    NamesFall(CloseLabel(5));
  }

  lemma CloseLabel6Falls()
    ensures Contains(CloseLabel(6), "下跌") && !Contains(CloseLabel(6), "上漲")
  {
    NamesFall(CloseLabel(6));
  }

  lemma CloseLabel7Falls()
    ensures Contains(CloseLabel(7), "下跌") && !Contains(CloseLabel(7), "上漲")
  {
    NamesFall(CloseLabel(7));
  }

  lemma CloseLabel8Falls()
    ensures Contains(CloseLabel(8), "下跌") && !Contains(CloseLabel(8), "上漲")
  {
    NamesFall(CloseLabel(8));
  }

  lemma CloseLabel9Falls()
    ensures Contains(CloseLabel(9), "下跌") && !Contains(CloseLabel(9), "上漲")
  {
    NamesFall(CloseLabel(9));
  }

  lemma CloseLabel10Falls()
    ensures Contains(CloseLabel(10), "下跌") && !Contains(CloseLabel(10), "上漲")
  {
    NamesFall(CloseLabel(10));
  }

  lemma CloseLabel11Rises()
    ensures Contains(CloseLabel(11), "上漲") && !Contains(CloseLabel(11), "下跌")
  {
    NamesRise(CloseLabel(11));
  }

  lemma CloseLabel12Rises()
    ensures Contains(CloseLabel(12), "上漲") && !Contains(CloseLabel(12), "下跌")
  {
    NamesRise(CloseLabel(12));
  }

  lemma CloseLabel13Rises()
    ensures Contains(CloseLabel(13), "上漲") && !Contains(CloseLabel(13), "下跌")
  {
    NamesRise(CloseLabel(13));
  }

  lemma CloseLabel14Rises()
    ensures Contains(CloseLabel(14), "上漲") && !Contains(CloseLabel(14), "下跌")
  {
    NamesRise(CloseLabel(14));
  }

  lemma CloseLabel15Rises()
    ensures Contains(CloseLabel(15), "上漲") && !Contains(CloseLabel(15), "下跌")
  {
    NamesRise(CloseLabel(15));
  }

  lemma CloseLabel16Rises()
    ensures Contains(CloseLabel(16), "上漲") && !Contains(CloseLabel(16), "下跌")
  {
    NamesRise(CloseLabel(16));
  }

  lemma CloseLabel17Rises()
    ensures Contains(CloseLabel(17), "上漲") && !Contains(CloseLabel(17), "下跌")
  {
    NamesRise(CloseLabel(17));
  }

  lemma CloseLabel18Rises()
    ensures Contains(CloseLabel(18), "上漲") && !Contains(CloseLabel(18), "下跌")
  {
    NamesRise(CloseLabel(18));
  }

  lemma CloseLabel19Rises()
    ensures Contains(CloseLabel(19), "上漲") && !Contains(CloseLabel(19), "下跌")
  {
    NamesRise(CloseLabel(19));
  }

  lemma CloseLabel20Rises()
    ensures Contains(CloseLabel(20), "上漲") && !Contains(CloseLabel(20), "下跌")
  {
    NamesRise(CloseLabel(20));
  }

  lemma CloseLabel21Rises()
    ensures Contains(CloseLabel(21), "上漲") && !Contains(CloseLabel(21), "下跌")
  {
    NamesRise(CloseLabel(21));
  }

  /** A label with 下跌 at position 4 and no 上 names a fall and not a rise. */
  lemma NamesFall(s: string)
    requires |s| >= 6 && s[4..6] == "下跌" && '上' !in s
    ensures Contains(s, "下跌") && !Contains(s, "上漲")
  {
    ContainsAt(s, "下跌", 4);
    NotContainsFirstChar(s, "上漲");
  }

  /** A label with 上漲 at position 4 and no 下 names a rise and not a fall. */
  lemma NamesRise(s: string)
    requires |s| >= 6 && s[4..6] == "上漲" && '下' !in s
    ensures Contains(s, "上漲") && !Contains(s, "下跌")
  {
    ContainsAt(s, "上漲", 4);
    NotContainsFirstChar(s, "下跌");
  }

  /** Sorting labels as text sorts buckets by `bin_order`. */
  lemma CloseLabelOrder(a: nat, b: nat)
    requires a <= 21 && b <= 21
    ensures LexLess(CloseLabel(a), CloseLabel(b)) <==> a < b
  {
    CloseLabelPrefix(a);
    CloseLabelPrefix(b);
    LabelOrderFromPrefix(CloseLabel(a), CloseLabel(b), a, b);
  }

  /** Two labels that start with their two-digit orders compare as the orders. */
  lemma LabelOrderFromPrefix(s: string, t: string, a: nat, b: nat)
    requires a < 100 && b < 100
    requires |s| >= 2 && |t| >= 2 && s[..2] == Pad2(a) && t[..2] == Pad2(b)
    requires a == b ==> s == t
    ensures LexLess(s, t) <==> a < b
  {
    Pad2Order(a, b);
    assert s == s[..2] + s[2..] && t == t[..2] + t[2..];
    LexLessAppend(s[..2], t[..2], s[2..], t[2..]);
    if a == b {
      LexLessIrreflexive(s);
    }
  }

  /** The close-price classification as app.py writes it: no row is filtered,
      so a NULL return matches no `WHEN` and takes the `ELSE` bucket, and a zero
      open price makes the query fail (`None`). */
  function CloseCaseAsWritten(ret: SqlNumber): (c: Option<Classified>)
    ensures ret.Value? ==> c == Some(Classified(CloseReturnBin(ret.v), CloseBinOrder(ret.v)))
    ensures ret.Null? ==> c == Some(Classified(CloseLabel(21), 21))
    ensures c.None? <==> ret.DivisionByZero?
  {
    match ret
    case Null => Some(Classified("21. 上漲1000%以上", 21))
    case DivisionByZero => None
    case Value(x) => Some(Classified(CloseReturnBin(x), CloseBinOrder(x)))
  }

  /** A stock whose year-close price is missing is counted among the stocks
      that rose more than 1000%. */
  lemma NullCloseLandsInTopBin(open: Option<real>)
    ensures CloseCaseAsWritten(ReturnSql(open, None)) == Some(Classified(CloseLabel(21), 21))
    ensures !InCloseBin(21, 0.0)
  {
  }

  /** The close-price classification with the row filter the maximum-return
      page applies: only rows with both prices present and a positive open
      price are classified. */
  function ClassifyCloseRow(open: Option<real>, close: Option<real>): (c: Option<Classified>)
    ensures c.Some? <==> open.Some? && close.Some? && open.value > 0.0
    ensures c.Some? ==> InCloseBin(c.value.binOrder, ReturnPct(open.value, close.value))
    ensures c.Some? ==> c.value.returnBin == CloseLabel(c.value.binOrder)
  {
    if open.Some? && close.Some? && open.value > 0.0 then
      var r := ReturnPct(open.value, close.value);
      CloseBinExact(r, CloseBinOrder(r));
      CloseLabelsAgree(r);
      Some(Classified(CloseReturnBin(r), CloseBinOrder(r)))
    else None
  }

  /** On the rows it keeps, the filtered classification is the one app.py computes. */
  lemma FilteredCloseAgrees(open: Option<real>, close: Option<real>)
    requires ClassifyCloseRow(open, close).Some?
    ensures ClassifyCloseRow(open, close) == CloseCaseAsWritten(ReturnSql(open, close))
  {
  }

  // ---------------------------------------------------------------------
  // Maximum-return buckets (year high against year open): eleven
  // hundred-point buckets.

  /** The `return_bin` CASE of the maximum-return queries. */
  function HighReturnBin(r: real): string
  {
    if r < 100.0 then "01. 上漲0-100%"
    else if r < 200.0 then "02. 上漲100-200%"
    else if r < 300.0 then "03. 上漲200-300%"
    else if r < 400.0 then "04. 上漲300-400%"
    else if r < 500.0 then "05. 上漲400-500%"
    else if r < 600.0 then "06. 上漲500-600%"
    else if r < 700.0 then "07. 上漲600-700%"
    else if r < 800.0 then "08. 上漲700-800%"
    else if r < 900.0 then "09. 上漲800-900%"
    else if r < 1000.0 then "10. 上漲900-1000%"
    else "11. 上漲1000%以上"
  }

  /** The `bin_order` CASE of the maximum-return queries. */
  function HighBinOrder(r: real): (k: nat)
    ensures 1 <= k <= 11
  {
    if r < 100.0 then 1
    else if r < 200.0 then 2
    else if r < 300.0 then 3
    else if r < 400.0 then 4
    else if r < 500.0 then 5
    else if r < 600.0 then 6
    else if r < 700.0 then 7
    else if r < 800.0 then 8
    else if r < 900.0 then 9
    else if r < 1000.0 then 10
    else 11
  }

  function HighLabel(k: nat): string
    requires 1 <= k <= 11
  {
    if k == 1 then "01. 上漲0-100%"
    else if k == 2 then "02. 上漲100-200%"
    else if k == 3 then "03. 上漲200-300%"
    else if k == 4 then "04. 上漲300-400%"
    else if k == 5 then "05. 上漲400-500%"
    else if k == 6 then "06. 上漲500-600%"
    else if k == 7 then "07. 上漲600-700%"
    else if k == 8 then "08. 上漲700-800%"
    else if k == 9 then "09. 上漲800-900%"
    else if k == 10 then "10. 上漲900-1000%"
    else "11. 上漲1000%以上"
  }

  /** Maximum-return bucket `k` as an interval: bucket 1 takes every return
      below 100, negative ones included; bucket 11 everything from 1000 on. */
  predicate InHighBin(k: nat, r: real)
  {
    if k == 1 then r < 100.0
    else if 2 <= k <= 10 then (100 * k - 100) as real <= r < (100 * k) as real
    else if k == 11 then r >= 1000.0
    else false
  }

  /** Every return gets exactly one maximum-return bucket, the one whose interval holds it. */
  lemma HighBinExact(r: real, k: nat)
    ensures HighBinOrder(r) == k <==> InHighBin(k, r)
  {
  }

  lemma HighBinMonotone(r1: real, r2: real)
    requires r1 <= r2
    ensures HighBinOrder(r1) <= HighBinOrder(r2)
  {
  }

  lemma HighLabelsAgree(r: real)
    ensures HighReturnBin(r) == HighLabel(HighBinOrder(r))
  {
  }

  /** Labels carry their order as a two-digit prefix, so text order is bucket order. */
  lemma HighLabelOrder(a: nat, b: nat)
    requires 1 <= a <= 11 && 1 <= b <= 11
    ensures |HighLabel(a)| > 2 && HighLabel(a)[..2] == Pad2(a)
    ensures LexLess(HighLabel(a), HighLabel(b)) <==> a < b
  {
    HighLabelPrefix(a);
    HighLabelPrefix(b);
    LabelOrderFromPrefix(HighLabel(a), HighLabel(b), a, b);
  }

  lemma HighLabelPrefix(k: nat)
    requires 1 <= k <= 11
    ensures |HighLabel(k)| > 2 && HighLabel(k)[..2] == Pad2(k)
  {
  }

  /** Every maximum-return label names a rise; none names a fall. */
  lemma HighLabelsRise(k: nat)
    requires 1 <= k <= 11
    ensures Contains(HighLabel(k), "上漲") && !Contains(HighLabel(k), "下跌")
  {
    if k == 1 {
      NamesRise(HighLabel(1));
    } else if k == 2 {
      NamesRise(HighLabel(2));
    } else if k == 3 {
      NamesRise(HighLabel(3));
    } else if k == 4 {
      NamesRise(HighLabel(4));
    } else if k == 5 {
      NamesRise(HighLabel(5));
    } else if k == 6 {
      NamesRise(HighLabel(6));
    } else if k == 7 {
      NamesRise(HighLabel(7));
    } else if k == 8 {
      NamesRise(HighLabel(8));
    } else if k == 9 {
      NamesRise(HighLabel(9));
    } else if k == 10 {
      NamesRise(HighLabel(10));
    } else {
      NamesRise(HighLabel(11));
    }
  }

  /** The maximum-return page's row filter and classification: rows with a
      missing open or high price, or an open price that is not positive, are
      dropped. */
  function ClassifyHighRow(open: Option<real>, high: Option<real>): (c: Option<Classified>)
    ensures c.Some? <==> open.Some? && high.Some? && open.value > 0.0
    ensures c.Some? ==> 1 <= c.value.binOrder <= 11 && InHighBin(c.value.binOrder, ReturnPct(open.value, high.value))
    ensures c.Some? ==> c.value.returnBin == HighLabel(c.value.binOrder)
  {
    if open.Some? && high.Some? && open.value > 0.0 then
      var r := ReturnPct(open.value, high.value);
      HighBinExact(r, HighBinOrder(r));
      HighLabelsAgree(r);
      Some(Classified(HighReturnBin(r), HighBinOrder(r)))
    else None
  }

  /** Since a year's high is never below its open, a kept row has a
      non-negative maximum return, and bucket 01 holds exactly those below 100%. */
  lemma HighAtLeastOpen(open: real, high: real)
    requires 0.0 < open <= high
    ensures ReturnPct(open, high) >= 0.0
    ensures HighBinOrder(ReturnPct(open, high)) == 1 <==> ReturnPct(open, high) < 100.0
  {
  }
}
