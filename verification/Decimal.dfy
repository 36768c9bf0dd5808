/** Fixed-width decimal text, its value, and the order of equally long strings. */
module Decimal {
  function Digit(d: nat): char
    requires d < 10
  {
    '0' + d as char
  }

  predicate IsDigit(c: char) { '0' <= c <= '9' }

  function DigitValue(c: char): nat
    requires IsDigit(c)
  {
    (c - '0') as nat
  }

  function Pow10(w: nat): nat { if w == 0 then 1 else 10 * Pow10(w - 1) }

  lemma Powers()
    ensures Pow10(2) == 100 && Pow10(3) == 1_000 && Pow10(4) == 10_000 && Pow10(6) == 1_000_000
  {
    assert Pow10(2) == 10 * Pow10(1);
    assert Pow10(4) == 100 * Pow10(2);
    assert Pow10(6) == 100 * Pow10(4);
  }

  /** The last w decimal digits of n. */
  function Pad(n: nat, w: nat): string {
    if w == 0 then "" else Pad(n / 10, w - 1) + [Digit(n % 10)]
  }

  /** n as JavaScript prints it, without leading zeros. */
  function Number(n: nat): string { (if n < 10 then "" else Number(n / 10)) + [Digit(n % 10)] }

  predicate AllDigits(s: string) { forall i | 0 <= i < |s| :: IsDigit(s[i]) }

  function Value(s: string): nat
    requires AllDigits(s)
  {
    if s == "" then 0 else 10 * Value(s[..|s| - 1]) + DigitValue(s[|s| - 1])
  }

  lemma {:induction false} PadDigits(n: nat, w: nat)
    ensures |Pad(n, w)| == w && AllDigits(Pad(n, w))
  {
    if w > 0 {
      PadDigits(n / 10, w - 1);
    }
  }

  /** A number of w digits needs no padding. */
  lemma {:induction false} NumberIsPad(n: nat, w: nat)
    requires w > 0 && Pow10(w - 1) <= n < Pow10(w)
    ensures Number(n) == Pad(n, w)
  {
    if w > 1 {
      assert Pow10(w - 1) == 10 * Pow10(w - 2);
      NumberIsPad(n / 10, w - 1);
    }
  }

  lemma {:induction false} NumberIsShort(n: nat, w: nat)
    requires w > 0 && n < Pow10(w)
    ensures |Number(n)| <= w
  {
    if w > 1 {
      NumberIsShort(n / 10, w - 1);
    }
  }

  lemma {:induction false} ValueOfPad(n: nat, w: nat)
    requires n < Pow10(w)
    ensures AllDigits(Pad(n, w)) && Value(Pad(n, w)) == n
  {
    PadDigits(n, w);
    if w > 0 {
      ValueOfPad(n / 10, w - 1);
      assert Pad(n, w)[..w - 1] == Pad(n / 10, w - 1) by { PadDigits(n / 10, w - 1); }
    }
  }

  lemma {:induction false} PadOfValue(s: string)
    requires AllDigits(s)
    ensures Value(s) < Pow10(|s|) && Pad(Value(s), |s|) == s
  {
    if s != "" {
      PadOfValue(s[..|s| - 1]);
    }
  }

  /** The order JavaScript's `<` puts on strings of equal length: smaller at the first difference. */
  ghost predicate LexLess(a: string, b: string)
    requires |a| == |b|
  {
    exists k | 0 <= k < |a| :: a[..k] == b[..k] && a[k] < b[k]
  }

  lemma LexSplit(a: string, b: string, u: string, v: string)
    requires |a| == |b| && |u| == |v| && LexLess(a + u, b + v)
    ensures LexLess(a, b) || (a == b && LexLess(u, v))
  {
    var s, t, n := a + u, b + v, |a|;
    assert a == s[..n] && u == s[n..] && b == t[..n] && v == t[n..];
    var k :| 0 <= k < |s| && s[..k] == t[..k] && s[k] < t[k];
    if k < n {
      assert a[..k] == s[..k] && b[..k] == t[..k] && a[k] < b[k];
    } else {
      assert a == s[..k][..n] && b == t[..k][..n];
      assert u[..k - n] == s[..k][n..] && v[..k - n] == t[..k][n..] && u[k - n] < v[k - n];
    }
  }

  lemma LexConcat(a: string, b: string, u: string, v: string)
    requires |a| == |b| && |u| == |v|
    ensures LexLess(a + u, b + v) <==> LexLess(a, b) || (a == b && LexLess(u, v))
    ensures a + u == b + v <==> a == b && u == v
  {
    var s, t, n := a + u, b + v, |a|;
    assert a == s[..n] && u == s[n..] && b == t[..n] && v == t[n..];
    if LexLess(s, t) {
      LexSplit(a, b, u, v);
    }
    if k :| 0 <= k < n && a[..k] == b[..k] && a[k] < b[k] {
      assert s[..k] == a[..k] && t[..k] == b[..k] && s[k] < t[k];
    }
    if k :| 0 <= k < |u| && a == b && u[..k] == v[..k] && u[k] < v[k] {
      assert s[..n + k] == a + u[..k] && t[..n + k] == b + v[..k] && s[n + k] < t[n + k];
    }
  }

  lemma LexOneDigit(x: nat, y: nat)
    requires x < 10 && y < 10
    ensures LexLess([Digit(x)], [Digit(y)]) <==> x < y
    ensures [Digit(x)] == [Digit(y)] <==> x == y
  {
    if x < y {
      assert [Digit(x)][..0] == [Digit(y)][..0];
    }
    assert [Digit(x)][0] == Digit(x) && [Digit(y)][0] == Digit(y);
  }

  lemma {:induction false} PadOrder(m: nat, n: nat, w: nat)
    requires m < Pow10(w) && n < Pow10(w)
    ensures |Pad(m, w)| == w == |Pad(n, w)|
    ensures LexLess(Pad(m, w), Pad(n, w)) <==> m < n
    ensures Pad(m, w) == Pad(n, w) <==> m == n
  {
    PadDigits(m, w);
    PadDigits(n, w);
    if w > 0 {
      PadOrder(m / 10, n / 10, w - 1);
      LexOneDigit(m % 10, n % 10);
      LexConcat(Pad(m / 10, w - 1), Pad(n / 10, w - 1), [Digit(m % 10)], [Digit(n % 10)]);
    }
  }
}
