/**
 Text order, and fixed-width decimals under it.

 The columns are compared as text by SQLite's BINARY collation; every stored
 character is ASCII, so comparing characters is comparing bytes.
 */
module Decimals {

  /** a sorts strictly before b. */
  predicate Before(a: string, b: string) {
    b != "" && (a == "" || a[0] < b[0] || (a[0] == b[0] && Before(a[1..], b[1..])))
  }

  /** Texts with heads of one width are ordered by their heads first. */
  lemma {:induction false} BeforeByHead(a: string, b: string, x: string, y: string)
    requires |a| == |b|
    ensures Before(a + x, b + y) <==> Before(a, b) || (a == b && Before(x, y))
  {
    if a == "" {
      assert a + x == x && b + y == y;
    } else {
      assert (a + x)[1..] == a[1..] + x && (b + y)[1..] == b[1..] + y;
      BeforeByHead(a[1..], b[1..], x, y);
      assert a == [a[0]] + a[1..] && b == [b[0]] + b[1..];
    }
  }

  lemma BeforeIrreflexive(a: string)
    ensures !Before(a, a)
  {
    if a != "" { BeforeIrreflexive(a[1..]); }
  }

  predicate IsDigit(c: char) {
    '0' <= c <= '9'
  }

  function Digit(n: int): (c: char)
    requires 0 <= n < 10
    ensures IsDigit(c)
  {
    '0' + n as char
  }

  predicate AllDigits(s: string) {
    forall i :: 0 <= i < |s| ==> IsDigit(s[i])
  }

  /** The number a run of digits spells. */
  function Value(s: string): int {
    if s == "" then 0 else 10 * Value(s[..|s| - 1]) + (s[|s| - 1] as int - '0' as int)
  }

  function Power10(w: nat): (p: int)
    ensures 1 <= p
  {
    if w == 0 then 1 else 10 * Power10(w - 1)
  }

  /** The last w decimal digits of n. */
  function Decimal(n: int, w: nat): (s: string)
    ensures |s| == w && AllDigits(s)
    decreases w
  {
    if w == 0 then "" else Decimal(n / 10, w - 1) + [Digit(n % 10)]
  }

  lemma {:induction false} ValueOfDecimal(n: int, w: nat)
    requires 0 <= n < Power10(w)
    ensures Value(Decimal(n, w)) == n
  {
    if w > 0 {
      ValueOfDecimal(n / 10, w - 1);
      var s := Decimal(n, w);
      assert s[..|s| - 1] == Decimal(n / 10, w - 1);
    }
  }

  lemma {:induction false} DecimalOfValue(s: string)
    requires AllDigits(s)
    ensures 0 <= Value(s) < Power10(|s|)
    ensures Decimal(Value(s), |s|) == s
  {
    if s != "" {
      DecimalOfValue(s[..|s| - 1]);
      assert s == s[..|s| - 1] + [s[|s| - 1]];
    }
  }

  /** Decimals of one width sort as the numbers they spell. */
  lemma {:induction false} DecimalsInOrder(m: int, n: int, w: nat)
    requires 0 <= m < Power10(w) && 0 <= n < Power10(w)
    ensures Before(Decimal(m, w), Decimal(n, w)) <==> m < n
    ensures Decimal(m, w) == Decimal(n, w) <==> m == n
  {
    ValueOfDecimal(m, w);
    ValueOfDecimal(n, w);
    if w > 0 {
      DecimalsInOrder(m / 10, n / 10, w - 1);
      BeforeByHead(Decimal(m / 10, w - 1), Decimal(n / 10, w - 1), [Digit(m % 10)], [Digit(n % 10)]);
      LastDigits([Digit(m % 10)], [Digit(n % 10)]);
    }
  }

  lemma LastDigits(x: string, y: string)
    requires |x| == |y| == 1
    ensures Before(x, y) <==> x[0] < y[0]
  {
    BeforeIrreflexive("");
  }
}
