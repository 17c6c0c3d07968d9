/** The checksum register read as a polynomial over GF(32), the way BIP-173 defines it:
    the fold is the remainder modulo a fixed generator polynomial of degree six. */
module Bech32Field {
  import opened Bech32

  // ----- GF(32), where x^5 = x^3 + 1 as in BIP-173 -----

  function Double(a: bv32): bv32
  {
    Xor((a & 15) << 1, When(Bit(a, 4), 9))
  }

  function Doubled(a: bv32, times: nat): bv32
  {
    if times == 0 then a else Double(Doubled(a, times - 1))
  }

  /** The product of `b` with the polynomial of the lowest `count` bits of `a`. */
  function Products(a: bv32, b: bv32, count: nat): bv32
    requires count <= 5
  {
    if count == 0 then 0
    else Xor(Products(a, b, count - 1), When(Bit(a, count - 1), Doubled(b, count - 1)))
  }

  function Mul(a: bv32, b: bv32): bv32
  {
    Products(a, b, 5)
  }

  lemma DoubleBound(a: bv32)
    requires a < 32
    ensures Double(a) < 32
  {
  }

  lemma DoubleLinear(a: bv32, b: bv32)
    ensures Double(Xor(a, b)) == Xor(Double(a), Double(b))
  {
    ShiftLinear(a, b);
    BitXor(a, b, 4);
    DoubleParts(a, b);
  }

  lemma ShiftLinear(a: bv32, b: bv32)
    ensures (Xor(a, b) & 15) << 1 == Xor((a & 15) << 1, (b & 15) << 1)
  {
  }

  lemma DoubleParts(a: bv32, b: bv32)
    requires (Xor(a, b) & 15) << 1 == Xor((a & 15) << 1, (b & 15) << 1)
    requires Bit(Xor(a, b), 4) <==> Bit(a, 4) != Bit(b, 4)
    ensures Double(Xor(a, b)) == Xor(Double(a), Double(b))
  {
    hide Xor, Bit, When;
    WhenXor(Bit(a, 4), Bit(b, 4), 9);
    XorInterchange((a & 15) << 1, (b & 15) << 1, When(Bit(a, 4), 9), When(Bit(b, 4), 9));
  }

  lemma {:induction false} DoubledLinear(a: bv32, b: bv32, times: nat)
    ensures Doubled(Xor(a, b), times) == Xor(Doubled(a, times), Doubled(b, times))
    decreases times
  {
    hide Xor, Double;
    if times > 0 {
      DoubledLinear(a, b, times - 1);
      DoubleLinear(Doubled(a, times - 1), Doubled(b, times - 1));
    }
  }

  lemma {:induction false} DoubledBound(a: bv32, times: nat)
    requires a < 32
    ensures Doubled(a, times) < 32
    decreases times
  {
    hide Double;
    if times > 0 {
      DoubledBound(a, times - 1);
      DoubleBound(Doubled(a, times - 1));
    }
  }

  lemma {:induction false} ProductsBound(a: bv32, b: bv32, count: nat)
    requires b < 32 && count <= 5
    ensures Products(a, b, count) < 32
    decreases count
  {
    hide Xor, Doubled, Bit;
    if count > 0 {
      ProductsBound(a, b, count - 1);
      DoubledBound(b, count - 1);
      XorBound(Products(a, b, count - 1), When(Bit(a, count - 1), Doubled(b, count - 1)));
    }
  }

  lemma {:induction false} ProductsLeft(a: bv32, b: bv32, c: bv32, count: nat)
    requires count <= 5
    ensures Products(Xor(a, b), c, count) == Xor(Products(a, c, count), Products(b, c, count))
    decreases count
  {
    hide Xor, Bit, When, Doubled;
    XorZero(0);
    if count > 0 {
      var n := count - 1;
      var w := Doubled(c, n);
      ProductsLeft(a, b, c, n);
      BitXor(a, b, n);
      WhenXor(Bit(a, n), Bit(b, n), w);
      XorInterchange(Products(a, c, n), Products(b, c, n), When(Bit(a, n), w), When(Bit(b, n), w));
    }
  }

  lemma {:induction false} ProductsRight(a: bv32, b: bv32, c: bv32, count: nat)
    requires count <= 5
    ensures Products(a, Xor(b, c), count) == Xor(Products(a, b, count), Products(a, c, count))
    decreases count
  {
    hide Xor, Bit, Doubled;
    XorZero(0);
    if count > 0 {
      var n := count - 1;
      ProductsRight(a, b, c, n);
      DoubledLinear(b, c, n);
      XorInterchange(Products(a, b, n), Products(a, c, n), When(Bit(a, n), Doubled(b, n)),
        When(Bit(a, n), Doubled(c, n)));
    }
  }

  lemma {:induction false} ProductsZero(c: bv32, count: nat)
    requires count <= 5
    ensures Products(0, c, count) == 0 && Products(c, 0, count) == 0
    decreases count
  {
    hide Xor, Doubled;
    if count > 0 {
      ProductsZero(c, count - 1);
      assert Doubled(0, count - 1) == 0 by { DoubledZero(count - 1); }
      assert !Bit(0, count - 1);
      XorZero(0);
    }
  }

  lemma {:induction false} DoubledZero(times: nat)
    ensures Doubled(0, times) == 0
  {
    if times > 0 { DoubledZero(times - 1); }
  }

  lemma MulUnfold(a: bv32, b: bv32)
    ensures Mul(a, b) ==
      Xor(Xor(Xor(Xor(When(Bit(a, 0), b), When(Bit(a, 1), Double(b))),
                  When(Bit(a, 2), Double(Double(b)))),
              When(Bit(a, 3), Double(Double(Double(b))))),
          When(Bit(a, 4), Double(Double(Double(Double(b))))))
  {
    hide Xor, Bit, When, Double;
    XorZero(When(Bit(a, 0), b));
    assert Doubled(b, 1) == Double(b);
    assert Doubled(b, 2) == Double(Double(b));
    assert Doubled(b, 3) == Double(Double(Double(b)));
    assert Doubled(b, 4) == Double(Double(Double(Double(b))));
    assert Products(a, b, 1) == When(Bit(a, 0), b);
    assert Products(a, b, 2) == Xor(Products(a, b, 1), When(Bit(a, 1), Doubled(b, 1)));
    assert Products(a, b, 3) == Xor(Products(a, b, 2), When(Bit(a, 2), Doubled(b, 2)));
    assert Products(a, b, 4) == Xor(Products(a, b, 3), When(Bit(a, 3), Doubled(b, 3)));
  }

  lemma DoubleBits(a: bv32)
    requires a < 32
    ensures Bit(Double(a), 0) <==> Bit(a, 4)
    ensures Bit(Double(a), 1) <==> Bit(a, 0)
    ensures Bit(Double(a), 2) <==> Bit(a, 1)
    ensures Bit(Double(a), 3) <==> Bit(a, 2) != Bit(a, 4)
    ensures Bit(Double(a), 4) <==> Bit(a, 3)
  {
  }

  lemma DoubleWhen(bit: bool, a: bv32)
    ensures Double(When(bit, a)) == When(bit, Double(a))
  {
  }

  lemma DoubleFiveTimes(b: bv32)
    requires b < 32
    ensures Double(Double(Double(Double(Double(b))))) == Xor(b, Double(Double(Double(b))))
  {
  }

  lemma Rearrange(low: bv32, one: bv32, two: bv32, three: bv32, third: bv32, four: bv32)
    ensures Xor(Xor(Xor(Xor(low, one), two), Xor(three, third)), four)
         == Xor(Xor(Xor(Xor(one, two), three), four), Xor(low, third))
  {
    hide Xor;
    XorAssociative(low, one, two);
    XorCommutative(three, third);
    XorInterchange(low, Xor(one, two), third, three);
    XorAssociative(Xor(low, third), Xor(Xor(one, two), three), four);
    XorCommutative(Xor(low, third), Xor(Xor(Xor(one, two), three), four));
  }

  lemma DoubleSum(s0: bv32, s1: bv32, s2: bv32, s3: bv32, s4: bv32)
    ensures Double(Xor(Xor(Xor(Xor(s0, s1), s2), s3), s4))
         == Xor(Xor(Xor(Xor(Double(s0), Double(s1)), Double(s2)), Double(s3)), Double(s4))
  {
    hide Xor, Double;
    DoubleLinear(Xor(Xor(Xor(s0, s1), s2), s3), s4);
    DoubleLinear(Xor(Xor(s0, s1), s2), s3);
    DoubleLinear(Xor(s0, s1), s2);
    DoubleLinear(s0, s1);
  }

  lemma MulDouble(a: bv32, b: bv32)
    requires a < 32 && b < 32
    ensures Mul(Double(a), b) == Double(Mul(a, b))
  {
    hide Mul, Xor, Bit, When, Double;
    var b1 := Double(b);
    var b2 := Double(b1);
    var b3 := Double(b2);
    var b4 := Double(b3);
    MulUnfold(a, b);
    MulUnfold(Double(a), b);
    DoubleBits(a);
    DoubleFiveTimes(b);
    DoubleSum(When(Bit(a, 0), b), When(Bit(a, 1), b1), When(Bit(a, 2), b2), When(Bit(a, 3), b3), When(Bit(a, 4), b4));
    DoubleWhen(Bit(a, 0), b);
    DoubleWhen(Bit(a, 1), b1);
    DoubleWhen(Bit(a, 2), b2);
    DoubleWhen(Bit(a, 3), b3);
    DoubleWhen(Bit(a, 4), b4);
    WhenXor(Bit(a, 2), Bit(a, 4), b3);
    WhenLinear(Bit(a, 4), b, b3);
    Rearrange(When(Bit(a, 4), b), When(Bit(a, 0), b1), When(Bit(a, 1), b2), When(Bit(a, 2), b3), When(Bit(a, 4), b3),
      When(Bit(a, 3), b4));
  }

  lemma WhenLinear(bit: bool, a: bv32, b: bv32)
    ensures When(bit, Xor(a, b)) == Xor(When(bit, a), When(bit, b))
  {
    hide Xor;
    XorZero(0);
  }

  lemma NoZeroDivisors(a: bv32, b: bv32)
    requires a < 32 && b < 32
    requires Mul(a, b) == 0
    ensures a == 0 || b == 0
  {
    hide Mul;
    MulUnfold(a, b);
  }

  lemma {:induction false} MulDoubled(a: bv32, b: bv32, times: nat)
    requires a < 32 && b < 32
    ensures Mul(Doubled(a, times), b) == Doubled(Mul(a, b), times)
    decreases times
  {
    hide Mul, Double;
    if times > 0 {
      MulDoubled(a, b, times - 1);
      DoubledBound(a, times - 1);
      MulDouble(Doubled(a, times - 1), b);
    }
  }

  lemma {:induction false} ProductsAssociative(a: bv32, b: bv32, c: bv32, count: nat)
    requires b < 32 && c < 32 && count <= 5
    ensures Mul(Products(a, b, count), c) == Products(a, Mul(b, c), count)
    decreases count
  {
    hide Xor, Bit, Doubled;
    ProductsZero(c, 5);
    if count > 0 {
      var n := count - 1;
      ProductsAssociative(a, b, c, n);
      ProductsLeft(Products(a, b, n), When(Bit(a, n), Doubled(b, n)), c, 5);
      MulDoubled(b, c, n);
    }
  }

  lemma MulAssociative(a: bv32, b: bv32, c: bv32)
    requires b < 32 && c < 32
    ensures Mul(Mul(a, b), c) == Mul(a, Mul(b, c))
  {
    ProductsAssociative(a, b, c, 5);
  }

  lemma MulOne(a: bv32)
    requires a < 32
    ensures Mul(a, 1) == a
  {
    hide Mul;
    MulUnfold(a, 1);
  }

  /** The product in closed form, to calculate with. */
  function Product(a: bv32, b: bv32): bv32
  {
    var p := (if a & 1 == 1 then b else 0) ^ (if (a >> 1) & 1 == 1 then b << 1 else 0)
      ^ (if (a >> 2) & 1 == 1 then b << 2 else 0) ^ (if (a >> 3) & 1 == 1 then b << 3 else 0)
      ^ (if (a >> 4) & 1 == 1 then b << 4 else 0);
    (p & 31) ^ (if (p >> 5) & 1 == 1 then 9 else 0) ^ (if (p >> 6) & 1 == 1 then 18 else 0)
    ^ (if (p >> 7) & 1 == 1 then 13 else 0) ^ (if (p >> 8) & 1 == 1 then 26 else 0)
  }

  lemma ProductIsMul(a: bv32, b: bv32)
    requires a < 32 && b < 32
    ensures Product(a, b) == Mul(a, b)
  {
    hide Mul;
    MulUnfold(a, b);
  }

  lemma ProductCommutative(a: bv32, b: bv32)
    requires a < 32 && b < 32
    ensures Product(a, b) == Product(b, a)
  {
  }

  lemma MulCommutative(a: bv32, b: bv32)
    requires a < 32 && b < 32
    ensures Mul(a, b) == Mul(b, a)
  {
    hide Product, Mul;
    ProductCommutative(a, b);
    ProductIsMul(a, b);
    ProductIsMul(b, a);
  }

  // ----- the register as six coefficients -----

  /** The coefficient of x^i in the residue held by the register. */
  function Coefficient(word: bv32, i: nat): bv32
    requires i < 6
  {
    if i == 0 then word & 31
    else if i == 1 then (word >> 5) & 31
    else if i == 2 then (word >> 10) & 31
    else if i == 3 then (word >> 15) & 31
    else if i == 4 then (word >> 20) & 31
    else (word >> 25) & 31
  }

  /** The generator of BIP-173, x^6 + 29x^5 + 22x^4 + 20x^3 + 21x^2 + 29x + 18, below x^6. */
  function GeneratorCoefficient(i: nat): bv32
    requires i < 6
  {
    if i == 0 then 18 else if i == 1 then 29 else if i == 2 then 21
    else if i == 3 then 20 else if i == 4 then 22 else 29
  }

  lemma CoefficientXor(a: bv32, b: bv32, i: nat)
    requires i < 6
    ensures Coefficient(Xor(a, b), i) == Xor(Coefficient(a, i), Coefficient(b, i))
  {
    if i == 0 { } else if i == 1 { } else if i == 2 { } else if i == 3 { } else if i == 4 { } else { }
  }

  lemma GeneratorIsDoubled(count: nat, i: nat)
    requires count < 5 && i < 6
    ensures Coefficient(Generator(count), i) == Doubled(GeneratorCoefficient(i), count)
  {
  }

  lemma {:induction false} TapsAreProducts(high: bv32, count: nat, i: nat)
    requires count <= 5 && i < 6
    ensures Coefficient(Taps(high, count), i) == Products(high, GeneratorCoefficient(i), count)
    decreases count
  {
    hide Xor, Bit, Generator, Doubled, GeneratorCoefficient, Coefficient;
    CoefficientZero(i);
    if count > 0 {
      TapsAreProducts(high, count - 1, i);
      GeneratorIsDoubled(count - 1, i);
      CoefficientXor(Taps(high, count - 1), When(Bit(high, count - 1), Generator(count - 1)), i);
    }
  }

  lemma CoefficientZero(i: nat)
    requires i < 6
    ensures Coefficient(0, i) == 0
  {
  }

  lemma CoefficientShifted(word: bv32, value: bv32, i: nat)
    requires value < 32 && i < 6
    ensures Coefficient(Shifted(word), i) == if i == 0 then 0 else Coefficient(word, i - 1)
    ensures Coefficient(value, i) == if i == 0 then value else 0
  {
  }

  /** One step multiplies the residue by x, adds the symbol, and reduces by the generator. */
  lemma StepIsPolynomialRemainder(word: bv32, value: bv32, i: nat)
    requires word < 0x4000_0000 && value < 32 && i < 6
    ensures Coefficient(Step(word, value), i)
         == Xor(if i == 0 then value else Coefficient(word, i - 1),
                Mul(Coefficient(word, 5), GeneratorCoefficient(i)))
  {
    hide Xor, Taps, Products, GeneratorCoefficient, Shifted, High, Coefficient;
    HighCoefficient(word);
    TapsAreProducts(High(word), 5, i);
    CoefficientShifted(word, value, i);
    CoefficientXor(Xor(Shifted(word), value), Taps(High(word), 5), i);
    CoefficientXor(Shifted(word), value, i);
    XorZero(if i == 0 then value else Coefficient(word, i - 1));
  }

  lemma HighCoefficient(word: bv32)
    requires word < 0x4000_0000
    ensures High(word) == Coefficient(word, 5) < 32
  {
  }

  // ----- runs of zero symbols, and scaled registers -----

  function ZeroRun(word: bv32, count: nat): bv32
    decreases count
  {
    if count == 0 then word else Step(ZeroRun(word, count - 1), 0)
  }

  /** Every coefficient of `scaled` is `factor` times that of `word`. */
  predicate Scaled(factor: bv32, word: bv32, scaled: bv32)
  {
    forall i | 0 <= i < 6 :: Coefficient(scaled, i) == Mul(factor, Coefficient(word, i))
  }

  lemma CoefficientBound(word: bv32, i: nat)
    requires i < 6
    ensures Coefficient(word, i) < 32
  {
  }

  lemma ScaledStep(factor: bv32, word: bv32, scaled: bv32)
    requires factor < 32 && word < 0x4000_0000 && scaled < 0x4000_0000
    requires Scaled(factor, word, scaled)
    ensures Scaled(factor, Step(word, 0), Step(scaled, 0))
  {
    hide Step, Mul, Xor, Coefficient, GeneratorCoefficient;
    forall i | 0 <= i < 6
      ensures Coefficient(Step(scaled, 0), i) == Mul(factor, Coefficient(Step(word, 0), i))
    {
      StepIsPolynomialRemainder(word, 0, i);
      StepIsPolynomialRemainder(scaled, 0, i);
      var g := GeneratorCoefficient(i);
      GeneratorBound(i);
      CoefficientBound(word, 5);
      assert Coefficient(scaled, 5) == Mul(factor, Coefficient(word, 5));
      MulAssociative(factor, Coefficient(word, 5), g);
      ScaledSum(factor, if i == 0 then 0 else Coefficient(word, i - 1), Mul(Coefficient(word, 5), g));
      MulZero(factor);
    }
  }

  lemma GeneratorBound(i: nat)
    requires i < 6
    ensures GeneratorCoefficient(i) < 32
  {
  }

  lemma ScaledSum(factor: bv32, a: bv32, b: bv32)
    ensures Mul(factor, Xor(a, b)) == Xor(Mul(factor, a), Mul(factor, b))
  {
    hide Products, Xor;
    ProductsRight(factor, a, b, 5);
  }

  lemma MulZero(a: bv32)
    ensures Mul(a, 0) == 0
  {
    ProductsZero(a, 5);
  }

  lemma ScaledStart(error: bv32)
    requires error < 32
    ensures Scaled(error, 1, error)
  {
    hide Mul, Coefficient;
    MulZero(error);
    MulOne(error);
    forall i | 0 <= i < 6 ensures Coefficient(error, i) == Mul(error, Coefficient(1, i)) {
      CoefficientOfSymbol(error, i);
      CoefficientOfSymbol(1, i);
    }
  }

  lemma CoefficientOfSymbol(value: bv32, i: nat)
    requires value < 32 && i < 6
    ensures Coefficient(value, i) == if i == 0 then value else 0
  {
  }

  lemma {:induction false} ScaledRun(error: bv32, count: nat)
    requires error < 32
    ensures ZeroRun(1, count) < 0x4000_0000 && ZeroRun(error, count) < 0x4000_0000
    ensures Scaled(error, ZeroRun(1, count), ZeroRun(error, count))
    decreases count
  {
    hide Step, Scaled;
    if count == 0 {
      ScaledStart(error);
    } else {
      ScaledRun(error, count - 1);
      StepBound(ZeroRun(1, count - 1), 0);
      StepBound(ZeroRun(error, count - 1), 0);
      ScaledStep(error, ZeroRun(1, count - 1), ZeroRun(error, count - 1));
    }
  }

  lemma {:induction false} FoldZeros(values: seq<bv32>, start: nat, until: nat)
    requires start <= until <= |values|
    requires forall k | start <= k < until :: values[k] == 0
    ensures Fold(0, values[..until]) == ZeroRun(Fold(0, values[..start]), until - start)
    decreases until
  {
    hide Step;
    if start < until {
      FoldZeros(values, start, until - 1);
      assert values[..until][..until - 1] == values[..until - 1];
    }
  }

  lemma StepSum(word: bv32, value: bv32)
    ensures Step(word, value) == Xor(Step(word, 0), value)
  {
    hide Step, Xor;
    StepLinear(word, 0, 0, value);
    XorZero(word);
    XorZero(value);
    assert Step(0, value) == value by { OnlySymbol(value); }
  }

  lemma OnlySymbol(value: bv32)
    ensures Step(0, value) == value
  {
    TapsUnfold(High(0));
  }

  lemma {:induction false} ZeroRunOfZero(count: nat)
    ensures ZeroRun(0, count) == 0
  {
    hide Step;
    if count > 0 {
      ZeroRunOfZero(count - 1);
      OnlySymbol(0);
    }
  }

  predicate AgreeExceptAt<T(==)>(a: seq<T>, b: seq<T>, i: nat, j: nat)
    requires |a| == |b|
  {
    forall k | 0 <= k < |a| && k != i && k != j :: a[k] == b[k]
  }

  lemma FoldEmpty(values: seq<bv32>)
    requires |values| == 0
    ensures Fold(0, values) == 0
  {
  }

  lemma FoldSnoc(values: seq<bv32>, k: nat)
    requires k < |values|
    ensures Fold(0, values[..k + 1]) == Step(Fold(0, values[..k]), values[k])
  {
    hide Step;
    assert values[..k + 1][..k] == values[..k];
  }

  lemma ZeroRunSnoc(error: bv32, count: nat)
    requires count > 0
    ensures ZeroRun(error, count) == Step(ZeroRun(error, count - 1), 0)
  {
    hide Step;
  }

  lemma FoldZerosOnly(values: seq<bv32>)
    requires forall k | 0 <= k < |values| :: values[k] == 0
    ensures Fold(0, values) == 0
  {
    hide Step, ZeroRun;
    FoldZeros(values, 0, |values|);
    assert values[..|values|] == values;
    ZeroRunOfZero(|values|);
  }
}
