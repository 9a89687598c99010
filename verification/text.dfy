/** The string rules the dashboards rely on: Python's `str` of an integer,
    the two-digit zero padding of report months, the order in which
    Python and PostgreSQL (C collation) compare text, substring search
    (`str.contains`) and `SPLIT_PART(s, '.', 1)`. */
module Text {

  function Digit(d: nat): (c: char)
    requires d < 10
    ensures '0' <= c <= '9'
  {
    (d + '0' as int) as char
  }

  lemma DigitOrder(a: nat, b: nat)
    requires a < 10 && b < 10
    ensures Digit(a) < Digit(b) <==> a < b
    ensures Digit(a) == Digit(b) <==> a == b
  {
  }

  /** `str(n)` for a non-negative integer. */
  function Decimal(n: nat): (s: string)
    ensures |s| >= 1
    ensures forall i :: 0 <= i < |s| ==> '0' <= s[i] <= '9'
    decreases n
  {
    if n < 10 then [Digit(n)] else Decimal(n / 10) + [Digit(n % 10)]
  }

  /** `str(n)` for any integer. */
  function IntToString(n: int): string
  {
    if n < 0 then "-" + Decimal(-n) else Decimal(n)
  }

  /** Three-digit numbers (the Minguo years 100 to 999) print as exactly three digits. */
  lemma Decimal3(n: nat)
    requires 100 <= n <= 999
    ensures Decimal(n) == [Digit(n / 100), Digit(n / 10 % 10), Digit(n % 10)]
  {
    var m := n / 10;
    assert 10 <= m < 100 && m / 10 == n / 100;
    assert Decimal(m / 10) == [Digit(n / 100)];
    assert Decimal(m) == Decimal(m / 10) + [Digit(m % 10)];
    assert Decimal(n) == Decimal(m) + [Digit(n % 10)];
  }

  /** Three-character strings compare on their first differing character. */
  lemma LexLess3(a0: char, a1: char, a2: char, b0: char, b1: char, b2: char)
    ensures LexLess([a0, a1, a2], [b0, b1, b2]) <==>
      a0 < b0 || (a0 == b0 && (a1 < b1 || (a1 == b1 && a2 < b2)))
  {
    LexLessAppend([a0], [b0], [a1, a2], [b1, b2]);
    assert [a0, a1, a2] == [a0] + [a1, a2] && [b0, b1, b2] == [b0] + [b1, b2];
    LexLessAppend([a1], [b1], [a2], [b2]);
    assert [a1, a2] == [a1] + [a2] && [b1, b2] == [b1] + [b2];
    LexLessSingle(a0, b0);
    LexLessSingle(a1, b1);
    LexLessSingle(a2, b2);
  }

  lemma Split3(n: nat)
    requires 100 <= n <= 999
    ensures n == 100 * (n / 100) + 10 * (n / 10 % 10) + n % 10
    ensures 1 <= n / 100 < 10 && n / 10 % 10 < 10 && n % 10 < 10
  {
    assert n == 10 * (n / 10) + n % 10;
    assert n / 10 == 10 * (n / 10 / 10) + n / 10 % 10;
    assert n / 10 / 10 == n / 100;
  }

  /** Place value: three-digit numbers compare as their digit triples do. */
  lemma PlaceValue3(a0: nat, a1: nat, a2: nat, b0: nat, b1: nat, b2: nat)
    requires a1 < 10 && a2 < 10 && b1 < 10 && b2 < 10
    ensures 100 * a0 + 10 * a1 + a2 < 100 * b0 + 10 * b1 + b2 <==>
      a0 < b0 || (a0 == b0 && (a1 < b1 || (a1 == b1 && a2 < b2)))
    ensures 100 * a0 + 10 * a1 + a2 == 100 * b0 + 10 * b1 + b2 <==>
      a0 == b0 && a1 == b1 && a2 == b2
  {
  }

  /** Three-digit numbers print to distinct strings, ordered as the numbers are. */
  lemma Decimal3Order(a: nat, b: nat)
    requires 100 <= a <= 999 && 100 <= b <= 999
    ensures |Decimal(a)| == 3 && |Decimal(b)| == 3
    ensures Decimal(a) == Decimal(b) <==> a == b
    ensures LexLess(Decimal(a), Decimal(b)) <==> a < b
  {
    Decimal3(a);
    Decimal3(b);
    Split3(a);
    Split3(b);
    var a0, a1, a2 := a / 100, a / 10 % 10, a % 10;
    var b0, b1, b2 := b / 100, b / 10 % 10, b % 10;
    DigitOrder(a0, b0);
    DigitOrder(a1, b1);
    DigitOrder(a2, b2);
    LexLess3(Digit(a0), Digit(a1), Digit(a2), Digit(b0), Digit(b1), Digit(b2));
    PlaceValue3(a0, a1, a2, b0, b1, b2);
    if Decimal(a) == Decimal(b) {
      assert Digit(a0) == Digit(b0) && Digit(a1) == Digit(b1) && Digit(a2) == Digit(b2);
    }
  }

  /** `LPAD(n::text, 2, '0')`, and the `MM` part of a `YYY_MM` report key. */
  function Pad2(n: nat): (s: string)
    requires n < 100
    ensures |s| == 2
  {
    [Digit(n / 10), Digit(n % 10)]
  }

  /** Zero padding keeps numbers apart and orders them as numbers. */
  lemma Pad2Order(a: nat, b: nat)
    requires a < 100 && b < 100
    ensures Pad2(a) == Pad2(b) <==> a == b
    ensures LexLess(Pad2(a), Pad2(b)) <==> a < b
  {
    DigitOrder(a / 10, b / 10);
    DigitOrder(a % 10, b % 10);
    LexLessAppend([Digit(a / 10)], [Digit(b / 10)], [Digit(a % 10)], [Digit(b % 10)]);
    assert Pad2(a) == [Digit(a / 10)] + [Digit(a % 10)];
    assert Pad2(b) == [Digit(b / 10)] + [Digit(b % 10)];
    LexLessSingle(Digit(a / 10), Digit(b / 10));
    LexLessSingle(Digit(a % 10), Digit(b % 10));
  }

  /** Strict text order, character by character on code points; a proper
      prefix sorts first. This is Python's `<` on `str` and PostgreSQL's `<`
      on `text` under the C collation. */
  predicate LexLess(a: string, b: string)
    decreases |a|
  {
    if |a| == 0 then |b| > 0
    else if |b| == 0 then false
    else if a[0] == b[0] then LexLess(a[1..], b[1..])
    else a[0] < b[0]
  }

  predicate LexLessEq(a: string, b: string)
  {
    a == b || LexLess(a, b)
  }

  lemma LexLessSingle(c: char, d: char)
    ensures LexLess([c], [d]) <==> c < d
  {
    if c == d {
      assert [c][1..] == [] && [d][1..] == [];
    }
  }

  lemma {:induction false} LexLessIrreflexive(a: string)
    ensures !LexLess(a, a)
    decreases |a|
  {
    if |a| > 0 {
      LexLessIrreflexive(a[1..]);
    }
  }

  /** Comparing two strings that start with equally long parts compares
      those parts first and the rests only when the parts agree. */
  lemma {:induction false} LexLessAppend(p: string, q: string, s: string, t: string)
    requires |p| == |q|
    ensures LexLess(p + s, q + t) <==> LexLess(p, q) || (p == q && LexLess(s, t))
    decreases |p|
  {
    if |p| == 0 {
      assert p + s == s && q + t == t;
    } else {
      assert (p + s)[0] == p[0] && (q + t)[0] == q[0];
      assert (p + s)[1..] == p[1..] + s && (q + t)[1..] == q[1..] + t;
      LexLessAppend(p[1..], q[1..], s, t);
      if p[0] == q[0] {
        assert p == q <==> p[1..] == q[1..] by {
          assert p == [p[0]] + p[1..] && q == [q[0]] + q[1..];
        }
      } else {
        assert p != q;
      }
    }
  }

  /** `t` occurs in `s` as a contiguous substring (pandas `str.contains` with a
      literal pattern). */
  predicate Contains(s: string, t: string)
    decreases |s|
  {
    if |s| < |t| then false else s[..|t|] == t || Contains(s[1..], t)
  }

  lemma {:induction false} ContainsAt(s: string, t: string, i: nat)
    requires i + |t| <= |s| && s[i..i + |t|] == t
    ensures Contains(s, t)
    decreases i
  {
    if i > 0 {
      assert s[1..][i - 1..i - 1 + |t|] == s[i..i + |t|];
      ContainsAt(s[1..], t, i - 1);
    }
  }

  /** A string cannot contain a pattern whose first character it lacks. */
  lemma {:induction false} NotContainsFirstChar(s: string, t: string)
    requires |t| > 0 && t[0] !in s
    ensures !Contains(s, t)
    decreases |s|
  {
    if |s| >= |t| {
      assert s[0] in s;
      assert s[..|t|][0] == s[0];
      assert forall c :: c in s[1..] ==> c in s;
      NotContainsFirstChar(s[1..], t);
    }
  }

  /** `SPLIT_PART(s, '.', 1)`: the text before the first dot (all of it when
      there is none); it turns a ticker like `2330.TW` into the stock id. */
  function BeforeDot(s: string): (r: string)
    ensures |r| <= |s| && r == s[..|r|]
    ensures '.' !in r
    ensures |r| < |s| ==> s[|r|] == '.'
  {
    if s == [] || s[0] == '.' then [] else [s[0]] + BeforeDot(s[1..])
  }

  /** A stock id followed by a market suffix splits back to the stock id. */
  lemma {:induction false} BeforeDotOfTicker(id: string, suffix: string)
    requires '.' !in id
    ensures BeforeDot(id + "." + suffix) == id
    decreases |id|
  {
    if id == [] {
      assert (id + "." + suffix)[0] == '.';
    } else {
      assert (id + "." + suffix)[0] == id[0];
      assert (id + "." + suffix)[1..] == id[1..] + "." + suffix;
      assert id[0] in id;
      assert forall c :: c in id[1..] ==> c in id;
      BeforeDotOfTicker(id[1..], suffix);
    }
  }
}
