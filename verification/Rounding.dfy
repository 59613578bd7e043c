/** Rounding of bandwidths to significant digits (Tor proposal 276), over exact
    reals: the number of digits is counted instead of read off a logarithm. */
module Rounding {
  import opened Arithmetic

  /** Python's built-in `round` of a float to an integer: nearest, ties to even. */
  function RoundHalfEven(x: real): int {
    var below := x.Floor;
    var rest := x - below as real;
    if rest < 0.5 || (rest == 0.5 && below % 2 == 0) then below else below + 1
  }

  function Pow10(k: nat): (p: nat)
    ensures p > 0
  {
    if k == 0 then 1 else 10 * Pow10(k - 1)
  }

  /** `round(n, -k)`: the multiple of ten to the k nearest to n, ties to even. */
  function RoundTo(n: real, k: nat): int {
    RoundHalfEven(n / Pow10(k) as real) * Pow10(k)
  }

  /** `int(log10(n)) + 1` for n at least 1, on the integer part of n. */
  function DigitsIn(m: nat): (d: nat)
    requires m >= 1
    ensures d >= 1
  {
    if m < 10 then 1 else 1 + DigitsIn(m / 10)
  }

  /** How many digits in front of the decimal point are rounded away. */
  function RoundDigits(m: nat, digits: nat): nat
    requires m >= 1
  {
    if DigitsIn(m) > digits then DigitsIn(m) - digits else 0
  }

  function RoundSigDig(n: real, digits: nat): int
    requires digits >= 1
  {
    if n <= 1.0 then 1 else RoundTo(n, RoundDigits(n.Floor, digits))
  }

  function KbRoundSigDig(bwBytes: real, digits: nat): int
    requires digits >= 1
  {
    RoundSigDig(bwBytes / 1000.0, digits)
  }

  /** m is written with at most the given number of significant digits. */
  predicate HasSigDigits(m: int, digits: nat) {
    m >= 1 && m % Pow10(RoundDigits(m, digits)) == 0
  }

  function Distance(x: real, y: real): real { if x <= y then y - x else x - y }

  // ----- Rounding to an integer and to a power of ten

  lemma RoundHalfEvenOfInt(i: int)
    ensures RoundHalfEven(i as real) == i
  {
  }

  lemma RoundHalfEvenMonotone(x: real, y: real)
    requires x <= y
    ensures RoundHalfEven(x) <= RoundHalfEven(y)
  {
    if x.Floor == y.Floor {
    } else {
      assert x.Floor + 1 <= y.Floor;
    }
  }

  lemma RoundHalfEvenNearest(x: real, i: int)
    ensures Distance(RoundHalfEven(x) as real, x) <= 0.5
    ensures Distance(RoundHalfEven(x) as real, x) <= Distance(i as real, x)
  {
    assert i <= x.Floor || i >= x.Floor + 1;
  }

  /** It is the nearest integer, and of two the even one. */
  lemma RoundHalfEvenIff(x: real, n: int)
    ensures RoundHalfEven(x) == n
       <==> Distance(n as real, x) < 0.5 || (Distance(n as real, x) == 0.5 && n % 2 == 0)
  {
    assert n <= x.Floor || n >= x.Floor + 1;
  }

  lemma {:induction false} Pow10Sum(a: nat, b: nat)
    ensures Pow10(a + b) == Pow10(a) * Pow10(b)
  {
    if a != 0 {
      Pow10Sum(a - 1, b);
      assert 10 * (Pow10(a - 1) * Pow10(b)) == (10 * Pow10(a - 1)) * Pow10(b);
    }
  }

  lemma {:induction false} Pow10Monotone(a: nat, b: nat)
    requires a <= b
    ensures Pow10(a) <= Pow10(b)
    decreases b - a
  {
    if a < b { Pow10Monotone(a, b - 1); }
  }

  lemma RoundToMonotone(n: real, m: real, k: nat)
    requires n <= m
    ensures RoundTo(n, k) <= RoundTo(m, k)
  {
    var p := Pow10(k) as real;
    QuotientOrder(n, m, p);
    RoundHalfEvenMonotone(n / p, m / p);
    ScaleOrder(RoundHalfEven(n / p), RoundHalfEven(m / p), Pow10(k));
  }

  lemma RoundToOfMultiple(q: int, k: nat)
    ensures RoundTo((q * Pow10(k)) as real, k) == q * Pow10(k)
  {
    var p := Pow10(k);
    ProductAsReal(q, p);
    QuotientOfProduct(q as real, p as real);
    RoundHalfEvenOfInt(q);
  }

  lemma ScaleDistance(x: real, y: real, p: real)
    requires p > 0.0
    ensures Distance(x * p, y * p) == Distance(x, y) * p
  {
    if x <= y { ScaleRealOrder(x, y, p); } else { ScaleRealOrder(y, x, p); }
    assert (y - x) * p == y * p - x * p;
  }

  lemma ScaleNearest(r: real, x: real, q: real, p: real)
    requires p > 0.0
    requires Distance(r, x) <= 0.5 && Distance(r, x) <= Distance(q, x)
    ensures 2.0 * Distance(r * p, x * p) <= p
    ensures Distance(r * p, x * p) <= Distance(q * p, x * p)
  {
    ScaleDistance(r, x, p);
    ScaleDistance(q, x, p);
    var e, f := Distance(r, x), Distance(q, x);
    ScaleRealOrder(e, 0.5, p);
    ScaleRealOrder(e, f, p);
    assert e * p <= 0.5 * p;
  }

  lemma NearestMultiple(n: real, x: real, r: int, p: int, q: int)
    requires p > 0 && x * p as real == n
    requires Distance(r as real, x) <= 0.5 && Distance(r as real, x) <= Distance(q as real, x)
    ensures 2.0 * Distance((r * p) as real, n) <= p as real
    ensures Distance((r * p) as real, n) <= Distance((q * p) as real, n)
  {
    ScaleNearest(r as real, x, q as real, p as real);
    ProductAsReal(r, p);
    ProductAsReal(q, p);
  }

  /** Half a unit of the last kept digit, and nothing on the grid is nearer. */
  lemma RoundToNearest(n: real, k: nat, q: int)
    ensures 2.0 * Distance(RoundTo(n, k) as real, n) <= Pow10(k) as real
    ensures Distance(RoundTo(n, k) as real, n) <= Distance((q * Pow10(k)) as real, n)
  {
    var p := Pow10(k);
    var x := n / p as real;
    Quotient(n, p as real);
    RoundHalfEvenNearest(x, q);
    NearestMultiple(n, x, RoundHalfEven(x), p, q);
  }

  /** e is at most n divided by ten to the j. */
  predicate RelativelyWithin(e: real, j: nat, n: real) {
    e * Pow10(j) as real <= n
  }

  /** An error of half a unit of 10^k, relative to a number of at least 10^(k + j). */
  lemma RelativeError(e: real, k: nat, j: nat, n: real)
    requires e <= Pow10(k) as real && Pow10(k + j) as real <= n
    ensures RelativelyWithin(e, j, n)
  {
    var p, u := Pow10(j), Pow10(k);
    Pow10Sum(k, j);
    ScaleRealOrder(e, u as real, p as real);
    ProductAsReal(u, p);
  }

  // ----- Counting digits

  lemma {:induction false} DigitsBound(m: nat)
    requires m >= 1
    ensures Pow10(DigitsIn(m) - 1) <= m < Pow10(DigitsIn(m))
  {
    if m >= 10 {
      DigitsBound(m / 10);
      assert m == 10 * (m / 10) + m % 10;
    }
  }

  lemma Pow10Reflects(a: nat, b: nat)
    requires Pow10(a) < Pow10(b)
    ensures a < b
  {
    if b <= a { Pow10Monotone(b, a); }
  }

  lemma DigitsUnique(m: nat, d: nat)
    requires m >= 1 && d >= 1 && Pow10(d - 1) <= m < Pow10(d)
    ensures DigitsIn(m) == d
  {
    DigitsBound(m);
    Pow10Reflects(d - 1, DigitsIn(m));
    Pow10Reflects(DigitsIn(m) - 1, d);
  }

  lemma DigitsMonotone(m: nat, n: nat)
    requires 1 <= m <= n
    ensures DigitsIn(m) <= DigitsIn(n)
  {
    DigitsBound(m);
    DigitsBound(n);
    Pow10Reflects(DigitsIn(m) - 1, DigitsIn(n));
  }

  /** A power of ten is on every coarser or equal grid below it. */
  lemma Pow10Grid(k: nat, a: nat)
    requires k <= a
    ensures Pow10(a) == Pow10(a - k) * Pow10(k)
  {
    Pow10Sum(a - k, k);
  }

  lemma OnlyZeroMultiple(k: int, p: int)
    requires 0 < p && -p < k * p < p
    ensures k == 0
  {
    if k >= 1 { ScaleOrder(1, k, p); }
    if k <= -1 { ScaleOrder(k, -1, p); }
  }

  lemma MultipleMod(q: int, p: nat)
    requires p > 0
    ensures (q * p) % p == 0
  {
    var t := q * p / p;
    assert q * p == t * p + q * p % p;
    assert (q - t) * p == q * p - t * p;
    OnlyZeroMultiple(q - t, p);
  }

  lemma ModToMultiple(m: int, p: nat) returns (q: int)
    requires p > 0 && m % p == 0
    ensures m == q * p
  {
    q := m / p;
    assert m == p * q + m % p;
  }

  // ----- Significant digits

  /** m is a number below ten to the number of digits, with zeros after it. */
  predicate DigitsAndZeros(m: int, q: nat, zeros: nat, digits: nat) {
    m == q * Pow10(zeros) && q < Pow10(digits)
  }

  lemma SmallerFactor(q: nat, p: nat, r: nat)
    requires p > 0 && q * p < r * p
    ensures q < r
  {
    if q >= r { ScaleOrder(r, q, p); }
  }

  lemma DigitsKept(m: nat, digits: nat) returns (q: nat)
    requires digits >= 1 && HasSigDigits(m, digits)
    ensures DigitsAndZeros(m, q, RoundDigits(m, digits), digits)
  {
    var k := RoundDigits(m, digits);
    var q' := ModToMultiple(m, Pow10(k));
    if q' < 0 { ScaleOrder(q', -1, Pow10(k)); }
    q := q';
    DigitsBound(m);
    Pow10Monotone(DigitsIn(m), digits + k);
    Pow10Sum(digits, k);
    SmallerFactor(q, Pow10(k), Pow10(digits));
  }

  lemma {:induction false} PowerOrder(a: nat, b: nat)
    requires Pow10(a) < Pow10(b)
    ensures a < b
  {
    if b <= a { Pow10Monotone(b, a); }
  }

  lemma ZerosSuffice(m: nat, q: nat, zeros: nat, digits: nat)
    requires digits >= 1 && m >= 1 && DigitsAndZeros(m, q, zeros, digits)
    ensures HasSigDigits(m, digits)
  {
    var k := RoundDigits(m, digits);
    DigitsBound(m);
    ScaleOrder(q, Pow10(digits), Pow10(zeros));
    if q * Pow10(zeros) == Pow10(digits) * Pow10(zeros) { SameFactor(q, Pow10(digits), Pow10(zeros)); }
    Pow10Sum(digits, zeros);
    PowerOrder(DigitsIn(m) - 1, digits + zeros);
    assert k <= zeros;
    Pow10Grid(k, zeros);
    MulAssociates(q, Pow10(zeros - k), Pow10(k));
    MultipleMod(q * Pow10(zeros - k), Pow10(k));
  }

  lemma SameFactor(a: nat, b: nat, p: nat)
    requires p > 0 && a * p == b * p
    ensures a == b
  {
    if a < b { ScaleOrder(a + 1, b, p); }
    if b < a { ScaleOrder(b + 1, a, p); }
  }

  /** Having at most so many significant digits means just that. */
  lemma HasSigDigitsIff(m: int, digits: nat)
    requires digits >= 1
    ensures HasSigDigits(m, digits) <==> m >= 1 && exists q, zeros :: DigitsAndZeros(m, q, zeros, digits)
  {
    if HasSigDigits(m, digits) { var q := DigitsKept(m, digits); }
    if q, zeros :| m >= 1 && DigitsAndZeros(m, q, zeros, digits) { ZerosSuffice(m, q, zeros, digits); }
  }

  // ----- Rounding to significant digits

  /** The rounded value stays within the power-of-ten decade of n. */
  lemma StaysInDecade(n: real, digits: nat)
    requires digits >= 1 && n > 1.0
    ensures var d := DigitsIn(n.Floor);
            Pow10(d - 1) <= RoundSigDig(n, digits) <= Pow10(d)
    ensures var d := DigitsIn(n.Floor);
            Pow10(d - 1) as real <= n < Pow10(d) as real
  {
    var m := n.Floor;
    var d := DigitsIn(m);
    var k := RoundDigits(m, digits);
    DigitsBound(m);
    assert n < (m + 1) as real;
    Pow10Grid(k, d - 1);
    Pow10Grid(k, d);
    RoundToMonotone(Pow10(d - 1) as real, n, k);
    RoundToMonotone(n, Pow10(d) as real, k);
    RoundToOfMultiple(Pow10(d - 1 - k), k);
    RoundToOfMultiple(Pow10(d - k), k);
  }

  lemma RoundSigDigAtLeastOne(n: real, digits: nat)
    requires digits >= 1
    ensures RoundSigDig(n, digits) >= 1
    ensures n <= 1.0 ==> RoundSigDig(n, digits) == 1
  {
    if n > 1.0 { StaysInDecade(n, digits); }
  }

  /** Larger bandwidths never round to smaller ones, whatever decades they are in. */
  lemma RoundSigDigMonotone(x: real, y: real, digits: nat)
    requires digits >= 1 && x <= y
    ensures RoundSigDig(x, digits) <= RoundSigDig(y, digits)
  {
    RoundSigDigAtLeastOne(y, digits);
    if x > 1.0 {
      StaysInDecade(x, digits);
      StaysInDecade(y, digits);
      var dx, dy := DigitsIn(x.Floor), DigitsIn(y.Floor);
      DigitsMonotone(x.Floor, y.Floor);
      if dx == dy {
        RoundToMonotone(x, y, RoundDigits(x.Floor, digits));
      } else {
        Pow10Monotone(dx, dy - 1);
      }
    }
  }

  lemma RoundSigDigKeepsSigDigits(n: real, digits: nat)
    requires digits >= 1
    ensures HasSigDigits(RoundSigDig(n, digits), digits)
  {
    if n > 1.0 {
      var d := DigitsIn(n.Floor);
      var k := RoundDigits(n.Floor, digits);
      var r := RoundSigDig(n, digits);
      StaysInDecade(n, digits);
      if r < Pow10(d) {
        DigitsUnique(r, d);
        MultipleMod(RoundHalfEven(n / Pow10(k) as real), Pow10(k));
      } else {
        DigitsUnique(r, d + 1);
        var k' := RoundDigits(r, digits);
        Pow10Grid(k', d);
        MultipleMod(Pow10(d - k'), Pow10(k'));
      }
    }
  }

  lemma RoundSigDigFixpoint(m: int, digits: nat)
    requires digits >= 1 && HasSigDigits(m, digits)
    ensures RoundSigDig(m as real, digits) == m
  {
    var k := RoundDigits(m, digits);
    var q := ModToMultiple(m, Pow10(k));
    RoundToOfMultiple(q, k);
  }

  /** Rounding is a retraction onto the numbers that need no rounding. */
  lemma RoundSigDigIdempotent(n: real, digits: nat)
    requires digits >= 1
    ensures RoundSigDig(RoundSigDig(n, digits) as real, digits) == RoundSigDig(n, digits)
  {
    RoundSigDigKeepsSigDigits(n, digits);
    RoundSigDigFixpoint(RoundSigDig(n, digits), digits);
  }

  /** Twice the rounding error. */
  function DoubleError(n: real, digits: nat): real
    requires digits >= 1
  {
    2.0 * Distance(RoundSigDig(n, digits) as real, n)
  }

  /** At most half a unit of the last kept digit. */
  lemma RoundSigDigHalfUnit(n: real, digits: nat)
    requires digits >= 1 && n > 1.0
    ensures DoubleError(n, digits) <= Pow10(RoundDigits(n.Floor, digits)) as real
  {
    RoundToNearest(n, RoundDigits(n.Floor, digits), 0);
  }

  /** Relatively, at most half of 10^-(digits - 1) whenever a digit is rounded away. */
  lemma RoundSigDigRelativeError(n: real, digits: nat)
    requires digits >= 1 && n > 1.0 && DigitsIn(n.Floor) > digits
    ensures RelativelyWithin(DoubleError(n, digits), digits - 1, n)
  {
    var k := RoundDigits(n.Floor, digits);
    RoundSigDigHalfUnit(n, digits);
    StaysInDecade(n, digits);
    RelativeError(DoubleError(n, digits), k, digits - 1, n);
  }

  /** No number of at most `digits` significant digits, of any magnitude, is
      nearer to n than the one the rounding picks. */
  lemma RoundSigDigOptimal(n: real, digits: nat, m: int)
    requires digits >= 1 && n > 1.0 && HasSigDigits(m, digits)
    ensures Distance(RoundSigDig(n, digits) as real, n) <= Distance(m as real, n)
  {
    var d, k := DigitsIn(n.Floor), RoundDigits(n.Floor, digits);
    var km := RoundDigits(m, digits);
    var q := ModToMultiple(m, Pow10(km));
    if km >= k {
      Pow10Grid(k, km);
      MulAssociates(q, Pow10(km - k), Pow10(k));
      RoundToNearest(n, k, q * Pow10(km - k));
    } else {
      DigitsBound(m);
      Pow10Monotone(DigitsIn(m), d - 1);
      StaysInDecade(n, digits);
      Pow10Grid(k, d - 1);
      RoundToNearest(n, k, Pow10(d - 1 - k));
      assert m as real <= Pow10(d - 1) as real <= n;
    }
  }
}
