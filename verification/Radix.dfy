/** Positional notation, shared by the codecs, the decimal scanner and the checksums.
    Digit sequences are big-endian: the first digit is the most significant one. */
module Radix {

  function Power(base: nat, exponent: nat): nat
  {
    if exponent == 0 then 1 else Power(base, exponent - 1) * base
  }

  predicate InBase(base: nat, digits: seq<nat>)
  {
    forall i | 0 <= i < |digits| :: digits[i] < base
  }

  /** The number a digit sequence denotes, by Horner's rule. */
  function Value(base: nat, digits: seq<nat>): nat
  {
    if |digits| == 0 then 0
    else Value(base, digits[..|digits| - 1]) * base + digits[|digits| - 1]
  }

  /** The digits of n without leading zeros; zero has no digits. */
  function Minimal(base: nat, n: nat): (digits: seq<nat>)
    requires base >= 2
    ensures InBase(base, digits)
    ensures Value(base, digits) == n
    ensures |digits| > 0 ==> digits[0] != 0
    ensures digits == [] <==> n == 0
  {
    DivMod(n, base);
    if n == 0 then []
    else
      var rest := Minimal(base, n / base);
      ValueSnoc(base, rest, n % base);
      rest + [n % base]
  }

  /** Exactly `width` digits, with leading zeros. */
  function Fixed(base: nat, n: nat, width: nat): (digits: seq<nat>)
    requires base >= 1
    ensures InBase(base, digits)
    ensures |digits| == width
  {
    if width == 0 then []
    else Fixed(base, n / base, width - 1) + [n % base]
  }

  lemma {:induction false} FixedValue(base: nat, n: nat, width: nat)
    requires base >= 1 && n < Power(base, width)
    ensures Value(base, Fixed(base, n, width)) == n
  {
    if width > 0 {
      QuotientBound(base, n, Power(base, width - 1));
      FixedValue(base, n / base, width - 1);
      ValueSnoc(base, Fixed(base, n / base, width - 1), n % base);
    }
  }

  // ----- products, quotients and remainders -----

  lemma MulAssociates(x: int, y: int, z: int)
    ensures x * y * z == x * (y * z)
  {
  }

  lemma MulCommutes(x: int, y: int)
    ensures x * y == y * x
  {
  }

  lemma MulDistributes(x: int, y: int, z: int)
    ensures (x + y) * z == x * z + y * z && (x - y) * z == x * z - y * z
  {
  }

  lemma MulPositive(x: int, y: int)
    requires x > 0 && y > 0
    ensures x * y > 0
  {
  }

  lemma MulMonotone(a: nat, b: nat, factor: nat)
    ensures a <= b ==> a * factor <= b * factor
  {
  }

  lemma DivMod(n: nat, base: nat)
    requires base >= 1
    ensures (n / base) * base + n % base == n && n % base < base
    ensures base >= 2 && n > 0 ==> n / base < n
  {
  }

  lemma QuotientBound(base: nat, n: nat, bound: nat)
    requires base >= 1
    requires n < bound * base
    ensures n / base < bound && n % base < base
    ensures (n / base) * base + n % base == n
  {
    DivMod(n, base);
    MulMonotone(bound, n / base, base);
  }

  lemma PowerPositive(base: nat, exponent: nat)
    requires base >= 1
    ensures Power(base, exponent) >= 1
  {
    if exponent > 0 { PowerPositive(base, exponent - 1); }
  }

  lemma {:induction false} PowerAdd(base: nat, a: nat, b: nat)
    ensures Power(base, a + b) == Power(base, a) * Power(base, b)
  {
    if b > 0 {
      PowerAdd(base, a, b - 1);
      MulAssociates(Power(base, a), Power(base, b - 1), base);
    }
  }

  lemma ValueSnoc(base: nat, digits: seq<nat>, d: nat)
    ensures Value(base, digits + [d]) == Value(base, digits) * base + d
  {
    assert (digits + [d])[..|digits|] == digits;
  }

  lemma {:induction false} ValueAppend(base: nat, high: seq<nat>, low: seq<nat>)
    ensures Value(base, high + low) == Value(base, high) * Power(base, |low|) + Value(base, low)
  {
    if |low| == 0 {
      assert high + low == high;
    } else {
      var front, last := low[..|low| - 1], low[|low| - 1];
      ValueAppend(base, high, front);
      assert high + low == (high + front) + [last];
      ValueSnoc(base, high + front, last);
      MulDistributes(Value(base, high) * Power(base, |front|), Value(base, front), base);
      MulAssociates(Value(base, high), Power(base, |front|), base);
    }
  }

  lemma AppendBound(base: nat, q: nat, r: nat, bound: nat)
    requires q < bound && r < base
    ensures q * base + r < bound * base
  {
    MulMonotone(q + 1, bound, base);
    MulDistributes(q, 1, base);
  }

  lemma {:induction false} ValueBound(base: nat, digits: seq<nat>)
    requires InBase(base, digits)
    ensures Value(base, digits) < Power(base, |digits|)
  {
    if |digits| > 0 {
      var front := digits[..|digits| - 1];
      ValueBound(base, front);
      AppendBound(base, Value(base, front), digits[|digits| - 1], Power(base, |front|));
    }
  }

  lemma DivModUnique(base: nat, q: nat, r: nat, q': nat, r': nat)
    requires r < base && r' < base
    requires q * base + r == q' * base + r'
    ensures q == q' && r == r'
  {
    MulMonotone(q + 1, q', base);
    MulMonotone(q' + 1, q, base);
    MulDistributes(q, 1, base);
    MulDistributes(q', 1, base);
  }

  lemma QuotientRemainder(base: nat, q: nat, r: nat)
    requires r < base
    ensures (q * base + r) / base == q && (q * base + r) % base == r
  {
    var n := q * base + r;
    DivMod(n, base);
    DivModUnique(base, n / base, n % base, q, r);
  }

  /** Digits of a fixed width are determined by their value. */
  lemma {:induction false} FixedWidthUnique(base: nat, a: seq<nat>, b: seq<nat>)
    requires InBase(base, a) && InBase(base, b)
    requires |a| == |b| && Value(base, a) == Value(base, b)
    ensures a == b
  {
    if |a| > 0 {
      var n := |a| - 1;
      DivModUnique(base, Value(base, a[..n]), a[n], Value(base, b[..n]), b[n]);
      FixedWidthUnique(base, a[..n], b[..n]);
      assert a == a[..n] + [a[n]] && b == b[..n] + [b[n]];
    }
  }

  /** A number has one representation without leading zeros. */
  lemma {:induction false} MinimalUnique(base: nat, digits: seq<nat>)
    requires base >= 2
    requires InBase(base, digits)
    requires |digits| > 0 ==> digits[0] != 0
    ensures digits == Minimal(base, Value(base, digits))
  {
    if |digits| > 0 {
      var front, last := digits[..|digits| - 1], digits[|digits| - 1];
      MinimalUnique(base, front);
      LeadingNonzero(base, digits);
      QuotientRemainder(base, Value(base, front), last);
      assert digits == front + [last];
    }
  }

  lemma {:induction false} LeadingNonzero(base: nat, digits: seq<nat>)
    requires base >= 1
    requires |digits| > 0 && digits[0] != 0
    ensures Value(base, digits) > 0
  {
    if |digits| > 1 {
      LeadingNonzero(base, digits[..|digits| - 1]);
      assert Value(base, digits[..|digits| - 1]) * base >= 1;
    }
  }

  /** Leading zeros do not change the value. */
  lemma {:induction false} ValueZeros(base: nat, zeros: seq<nat>, digits: seq<nat>)
    requires forall i | 0 <= i < |zeros| :: zeros[i] == 0
    ensures Value(base, zeros + digits) == Value(base, digits)
  {
    ValueAppend(base, zeros, digits);
    AllZeros(base, zeros);
  }

  lemma {:induction false} AllZeros(base: nat, zeros: seq<nat>)
    requires forall i | 0 <= i < |zeros| :: zeros[i] == 0
    ensures Value(base, zeros) == 0
  {
    if |zeros| > 0 { AllZeros(base, zeros[..|zeros| - 1]); }
  }

  // ----- quotients and remainders by a product -----

  lemma SplitByProduct(n: nat, a: nat, b: nat)
    requires a > 0 && b > 0
    ensures a * b > 0
    ensures n / (a * b) == (n / a) / b
    ensures n % (a * b) == a * ((n / a) % b) + n % a
  {
    var q, r := n / a, n % a;
    var q2, r2 := q / b, q % b;
    DivMod(n, a);
    DivMod(q, b);
    MulPositive(a, b);
    MulDistributes(q2 * b, r2, a);
    MulAssociates(q2, b, a);
    MulCommutes(b, a);
    MulCommutes(a, r2);
    AppendBound(a, r2, r, b);
    QuotientRemainder(a * b, q2, r2 * a + r);
  }

  lemma ModDiv(n: nat, a: nat, b: nat)
    requires a > 0 && b > 0
    ensures a * b > 0
    ensures (n % (a * b)) / a == (n / a) % b
    ensures (n % (a * b)) % a == n % a
  {
    SplitByProduct(n, a, b);
    DivMod(n, a);
    QuotientRemainder(a, (n / a) % b, n % a);
    MulCommutes(a, (n / a) % b);
  }

  lemma MulMod(n: nat, a: nat, b: nat)
    requires a > 0 && b > 0
    ensures a * b > 0
    ensures (n * a) % (a * b) == (n % b) * a
  {
    SplitByProduct(n * a, a, b);
    QuotientRemainder(a, n, 0);
    MulCommutes(a, n % b);
  }

  lemma {:induction false} PowerOfPower(base: nat, inner: nat, n: nat)
    ensures Power(Power(base, inner), n) == Power(base, inner * n)
  {
    if n > 0 {
      PowerOfPower(base, inner, n - 1);
      PowerAdd(base, inner * (n - 1), inner);
      assert inner * n == inner * (n - 1) + inner;
    } else {
      assert inner * n == 0;
    }
  }
}
