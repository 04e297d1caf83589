/**
 String facts the other modules rest on: Rust's ordering of `String` values and
 the decimal rendering that `format!("{}", n)` produces.
 */
module Text {

  /** Strict lexicographic order, as Rust compares two `String` values. */
  predicate LexLess(a: string, b: string) {
    if b == "" then false
    else if a == "" then true
    else if a[0] != b[0] then a[0] < b[0]
    else LexLess(a[1..], b[1..])
  }

  lemma {:induction false} LexIrreflexive(a: string)
    ensures !LexLess(a, a)
  {
    if a == "" {
    } else {
      LexIrreflexive(a[1..]);
    }
  }

  lemma {:induction false} LexTransitive(a: string, b: string, c: string)
    requires LexLess(a, b) && LexLess(b, c)
    ensures LexLess(a, c)
  {
    if a != "" && b[0] == a[0] && c[0] == b[0] {
      LexTransitive(a[1..], b[1..], c[1..]);
    }
  }

  lemma {:induction false} LexTotal(a: string, b: string)
    ensures a == b || LexLess(a, b) || LexLess(b, a)
  {
    if a != "" && b != "" && a[0] == b[0] {
      LexTotal(a[1..], b[1..]);
      assert a == [a[0]] + a[1..] && b == [b[0]] + b[1..];
    }
  }

  lemma LexAsymmetric(a: string, b: string)
    requires LexLess(a, b)
    ensures !LexLess(b, a)
  {
    if LexLess(b, a) {
      LexTransitive(a, b, a);
      LexIrreflexive(a);
    }
  }

  /** The texts agree before position `k`, where the first has the smaller character. */
  ghost predicate SmallerAt(a: string, b: string, k: nat) {
    k < |a| && k < |b| && a[..k] == b[..k] && a[k] < b[k]
  }

  /** The order: a proper prefix comes first, otherwise the first difference decides. */
  lemma {:induction false} LexLessIff(a: string, b: string)
    ensures LexLess(a, b) <==> a < b || exists k: nat :: SmallerAt(a, b, k)
  {
    if a == "" || b == "" {
      assert a == "" && b != "" ==> a < b;
    } else if a[0] != b[0] {
      assert a[..0] == b[..0];
      assert a[0] < b[0] <==> SmallerAt(a, b, 0);
      forall k: nat | SmallerAt(a, b, k)
        ensures k == 0
      {
        if k > 0 {
          SameStart(a, b, k);
        }
      }
    } else {
      LexLessIff(a[1..], b[1..]);
      TailsDecide(a, b);
    }
  }

  lemma SameStart(a: string, b: string, k: nat)
    requires SmallerAt(a, b, k) && k > 0
    ensures a[0] == b[0]
  {
    assert a[..k][0] == b[..k][0];
  }

  lemma TailsDecide(a: string, b: string)
    requires a != "" && b != "" && a[0] == b[0]
    ensures a < b <==> a[1..] < b[1..]
    ensures (exists k: nat :: SmallerAt(a, b, k)) <==> exists k: nat :: SmallerAt(a[1..], b[1..], k)
  {
    assert a == [a[0]] + a[1..] && b == [b[0]] + b[1..];
    if k: nat :| SmallerAt(a, b, k) {
      assert k > 0;
      assert a[1..][..k - 1] == a[..k][1..] == b[..k][1..] == b[1..][..k - 1];
      assert SmallerAt(a[1..], b[1..], k - 1);
    }
    if k: nat :| SmallerAt(a[1..], b[1..], k) {
      assert a[..k + 1] == [a[0]] + a[1..][..k] && b[..k + 1] == [b[0]] + b[1..][..k];
      assert SmallerAt(a, b, k + 1);
    }
  }

  predicate IsDigit(c: char) {
    '0' <= c <= '9'
  }

  function Digit(d: nat): (c: char)
    requires d < 10
    ensures IsDigit(c) && c as int == '0' as int + d
  {
    ('0' as int + d) as char
  }

  /** Decimal rendering of a non-negative integer. */
  function Decimal(n: nat): (s: string)
    ensures s != "" && forall i :: 0 <= i < |s| ==> IsDigit(s[i])
  {
    if n < 10 then [Digit(n)] else Decimal(n / 10) + [Digit(n % 10)]
  }

  /** Decimal rendering of a signed integer. */
  function SignedDecimal(n: int): string {
    if n < 0 then "-" + Decimal(-n) else Decimal(n)
  }

  lemma {:induction false} DecimalInjective(m: nat, n: nat)
    requires Decimal(m) == Decimal(n)
    ensures m == n
  {
    var s := Decimal(m);
    if m >= 10 && n >= 10 {
      assert Decimal(m / 10) == s[..|s| - 1] == Decimal(n / 10);
      DecimalInjective(m / 10, n / 10);
      assert s[|s| - 1] == Digit(m % 10) == Digit(n % 10);
    }
  }

  lemma SignedDecimalInjective(m: int, n: int)
    requires SignedDecimal(m) == SignedDecimal(n)
    ensures m == n
  {
    assert (m < 0) == (SignedDecimal(m)[0] == '-');
    assert (n < 0) == (SignedDecimal(n)[0] == '-');
    if m < 0 {
      assert SignedDecimal(m)[1..] == Decimal(-m);
      assert SignedDecimal(n)[1..] == Decimal(-n);
      DecimalInjective(-m, -n);
    } else {
      DecimalInjective(m, n);
    }
  }

  function Pow10(k: nat): nat {
    if k == 0 then 1 else 10 * Pow10(k - 1)
  }

  lemma {:induction false} DecimalLength(n: nat, k: nat)
    requires k >= 1
    requires (k == 1 || Pow10(k - 1) <= n) && n < Pow10(k)
    ensures |Decimal(n)| == k
  {
    if k == 1 {
      assert Pow10(1) == 10 * Pow10(0) == 10;
    } else {
      assert Pow10(k - 1) == 10 * Pow10(k - 2) && Pow10(k) == 10 * Pow10(k - 1);
      assert Pow10(k - 2) >= 1 by { Pow10Positive(k - 2); }
      DecimalLength(n / 10, k - 1);
    }
  }

  lemma {:induction false} Pow10Positive(k: nat)
    ensures Pow10(k) >= 1
  {
    if k == 0 {
    } else {
      Pow10Positive(k - 1);
    }
  }

  lemma LastColon(a: string, x: string, b: string, y: string)
    requires ':' !in x
    requires a + ":" + x == b + ":" + y
    ensures |a| >= |b|
  {
    assert (b + ":" + y)[|b|] == ':';
    assert forall i :: |a| < i < |a + ":" + x| ==> (a + ":" + x)[i] in x;
  }

  lemma SignedDecimalHasNoColon(n: int)
    ensures ':' !in SignedDecimal(n)
  {
  }

  /** A rendered key `prefix + ":" + n` determines both parts. */
  lemma SuffixedKeyInjective(a: string, m: int, b: string, n: int)
    requires a + ":" + SignedDecimal(m) == b + ":" + SignedDecimal(n)
    ensures a == b && m == n
  {
    var x, y := SignedDecimal(m), SignedDecimal(n);
    SignedDecimalHasNoColon(m);
    SignedDecimalHasNoColon(n);
    LastColon(a, x, b, y);
    LastColon(b, y, a, x);
    assert a == (a + ":" + x)[..|a|] == b;
    assert x == (a + ":" + x)[|a| + 1..] == y;
    SignedDecimalInjective(m, n);
  }

  /** Unix times between September 2001 and November 2286. */
  ghost predicate TenDigits(t: int) {
    1_000_000_000 <= t < 10_000_000_000
  }

  lemma TenDigitText(t: int)
    requires TenDigits(t)
    ensures |SignedDecimal(t)| == 10
  {
    assert Pow10(9) == 1_000_000_000 && Pow10(10) == 10_000_000_000;
    DecimalLength(t, 10);
  }

  lemma SplitAt(a: string, x: string, b: string, y: string)
    requires |a| == |b| && a + x == b + y
    ensures a == b && x == y
  {
    assert a == (a + x)[..|a|] && x == (a + x)[|a|..];
    assert b == (b + y)[..|b|] && y == (b + y)[|b|..];
  }

  // ----- The value of a digit text -----

  predicate AllDigits(s: string) {
    forall i :: 0 <= i < |s| ==> IsDigit(s[i])
  }

  function DigitValue(c: char): (d: nat)
    requires IsDigit(c)
    ensures d < 10
  {
    c as int - '0' as int
  }

  function Number(s: string): nat
    requires AllDigits(s)
  {
    if s == "" then 0
    else 10 * Number(s[..|s| - 1]) + DigitValue(s[|s| - 1])
  }

  /** Reading back a rendered number. */
  lemma {:induction false} NumberOfDecimal(n: nat)
    ensures Number(Decimal(n)) == n
  {
    var s := Decimal(n);
    if n < 10 {
      assert s[..0] == "";
    } else {
      assert s[..|s| - 1] == Decimal(n / 10);
      NumberOfDecimal(n / 10);
    }
  }

  lemma {:induction false} NumberBelow(s: string)
    requires AllDigits(s)
    ensures Number(s) < Pow10(|s|)
  {
    if s == "" {
    } else {
      NumberBelow(s[..|s| - 1]);
    }
  }

  lemma {:induction false} NumberConcat(a: string, b: string)
    requires AllDigits(a) && AllDigits(b)
    ensures AllDigits(a + b) && Number(a + b) == Number(a) * Pow10(|b|) + Number(b)
    decreases |b|
  {
    if b == "" {
      assert a + b == a;
    } else {
      var init := b[..|b| - 1];
      assert (a + b)[..|a| + |b| - 1] == a + init;
      NumberConcat(a, init);
      var d := DigitValue(b[|b| - 1]);
      assert Number(a + b) == 10 * Number(a + init) + d && Number(b) == 10 * Number(init) + d;
      ShiftByDigit(Number(a), Number(init), Pow10(|init|), d);
    }
  }

  lemma ShiftByDigit(x: nat, y: nat, p: nat, d: nat)
    ensures 10 * (x * p + y) + d == x * (10 * p) + (10 * y + d)
  {
  }

  /** The first digit counts most. */
  lemma NumberFront(s: string)
    requires s != "" && AllDigits(s)
    ensures Number(s) == DigitValue(s[0]) * Pow10(|s| - 1) + Number(s[1..])
  {
    assert s == s[..1] + s[1..] && s[..1][..0] == "";
    NumberConcat(s[..1], s[1..]);
    assert Number(s[..1]) == DigitValue(s[0]);
  }

  /** Digit texts of one length compare as their values do. */
  lemma {:induction false} LexIsNumeric(a: string, b: string)
    requires |a| == |b| && AllDigits(a) && AllDigits(b)
    ensures LexLess(a, b) <==> Number(a) < Number(b)
    decreases |a|
  {
    if a == "" {
    } else {
      var p := Pow10(|a| - 1);
      NumberFront(a);
      NumberFront(b);
      NumberBelow(a[1..]);
      NumberBelow(b[1..]);
      if a[0] == b[0] {
        LexIsNumeric(a[1..], b[1..]);
      } else {
        LeadDecides(DigitValue(a[0]), DigitValue(b[0]), Number(a[1..]), Number(b[1..]), p);
      }
    }
  }

  lemma LeadDecides(x: nat, y: nat, u: nat, v: nat, p: nat)
    requires u < p && v < p && x != y
    ensures x < y <==> x * p + u < y * p + v
  {
    if x < y {
      assert (x + 1) * p <= y * p;
    } else {
      assert (y + 1) * p <= x * p;
    }
  }
}
