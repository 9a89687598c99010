/** Small shared vocabulary: optional values (a SQL NULL or a pandas NaN
    is `None`) and sums and counts over sequences of reals. */
module Common {

  datatype Option<+T> = None | Some(value: T)

  /** The values that are present, in order (pandas `dropna`). */
  function Present(column: seq<Option<real>>): (r: seq<real>)
    ensures |r| <= |column|
  {
    if column == [] then []
    else
      var rest := Present(column[1..]);
      if column[0].Some? then [column[0].value] + rest else rest
  }

  /** A value is among the present ones exactly when the column holds it. */
  lemma {:induction false} PresentExact(column: seq<Option<real>>, x: real)
    ensures x in Present(column) <==> Some(x) in column
  {
    if column != [] {
      PresentExact(column[1..], x);
      assert Some(x) in column <==> column[0] == Some(x) || Some(x) in column[1..];
    }
  }

  /** Dropping missing values works entry by entry: it keeps the present
      values of a column in order and with their multiplicity. */
  lemma {:induction false} PresentAppend(a: seq<Option<real>>, b: seq<Option<real>>)
    ensures Present(a + b) == Present(a) + Present(b)
  {
    if a == [] {
      assert a + b == b;
    } else {
      assert (a + b)[0] == a[0];
      assert (a + b)[1..] == a[1..] + b;
      PresentAppend(a[1..], b);
    }
  }

  /** A present value is kept and a missing one is dropped. */
  lemma PresentSingle(x: real)
    ensures Present([Some(x)]) == [x]
    ensures Present([None]) == []
  {
  }

  /** Some value of the column is missing exactly when dropping the missing
      values shortens it. */
  lemma {:induction false} PresentMissing(column: seq<Option<real>>)
    ensures None in column <==> |Present(column)| < |column|
  {
    if column != [] {
      PresentMissing(column[1..]);
      assert None in column <==> column[0] == None || None in column[1..];
    }
  }

  function Sum(xs: seq<real>): real
  {
    if xs == [] then 0.0 else xs[0] + Sum(xs[1..])
  }

  /** How many of `xs` are strictly greater than `bound`. */
  function CountAbove(xs: seq<real>, bound: real): (n: nat)
    ensures n <= |xs|
  {
    if xs == [] then 0 else (if xs[0] > bound then 1 else 0) + CountAbove(xs[1..], bound)
  }

  /** How many of `xs` are strictly below `bound`. */
  function CountBelow(xs: seq<real>, bound: real): (n: nat)
    ensures n <= |xs|
  {
    if xs == [] then 0 else (if xs[0] < bound then 1 else 0) + CountBelow(xs[1..], bound)
  }

  /** A larger bound can only leave fewer values above it. */
  lemma {:induction false} CountAboveAntitone(xs: seq<real>, lo: real, hi: real)
    requires lo <= hi
    ensures CountAbove(xs, hi) <= CountAbove(xs, lo)
  {
    if xs != [] {
      CountAboveAntitone(xs[1..], lo, hi);
    }
  }

  /** Values below `lo` and values above `hi` are disjoint groups when `lo <= hi`. */
  lemma {:induction false} TailsDisjoint(xs: seq<real>, lo: real, hi: real)
    requires lo <= hi
    ensures CountBelow(xs, lo) + CountAbove(xs, hi) <= |xs|
  {
    if xs != [] {
      TailsDisjoint(xs[1..], lo, hi);
    }
  }

  /** `part * 100 / whole`: the share of a non-empty whole, in percent. */
  function Percent(part: nat, whole: nat): (p: real)
    requires part <= whole && whole > 0
    ensures 0.0 <= p <= 100.0
    ensures p == 100.0 <==> part == whole
    ensures p == 0.0 <==> part == 0
  {
    assert (part as real) * 100.0 <= (whole as real) * 100.0;
    (part as real) * 100.0 / (whole as real)
  }

  /** A larger part of the same whole is a larger percentage. */
  lemma PercentMonotone(a: nat, b: nat, whole: nat)
    requires a <= b <= whole && whole > 0
    ensures Percent(a, whole) <= Percent(b, whole)
  {
    DivideMonotone((a as real) * 100.0, (b as real) * 100.0, whole as real);
  }

  lemma DivideMonotone(x: real, y: real, d: real)
    requires x <= y && d > 0.0
    ensures x / d <= y / d
  {
    assert x / d * d == x && y / d * d == y;
  }

  /** The magnitude of a real number. */
  function Abs(x: real): (r: real)
    ensures r >= 0.0 && (r == x || r == -x)
  {
    if x < 0.0 then -x else x
  }

  function Mean(xs: seq<real>): (r: Option<real>)
    ensures r.None? <==> xs == []
  {
    if xs == [] then None else Some(Sum(xs) / |xs| as real)
  }
}
