/** The generator of BIP-173 has three consecutive powers among its roots in GF(1024), so a checksum shows any three
    wrong symbols that are less than 1023 apart. */
module Bech32Distance {
  import opened Bech32
  import opened Bech32Field

  // ----- GF(1024), as polynomials in one of its primitive elements -----

  /** Multiplication by the primitive element, a root of x^10 + x^8 + x^5 + x + 1. */
  function Turn(v: bv10): bv10
  {
    ((v & 511) << 1) ^ (v >> 9) ^ ((v >> 9) << 1) ^ ((v >> 9) << 5) ^ ((v >> 9) << 8)
  }

  function Turns(count: nat, v: bv10): bv10
  {
    if count == 0 then v else Turn(Turns(count - 1, v))
  }

  /** A sum under a name of its own, so that proofs about it can hide the bits. */
  function Plus(a: bv10, b: bv10): bv10
  {
    a ^ b
  }

  function Pick(bit: bool, v: bv10): bv10
  {
    if bit then v else 0
  }

  /** The product, one bit of `v` after the other. */
  function Times(v: bv10, w: bv10): bv10
  {
    Chosen(v & 1 == 1, (v >> 1) & 1 == 1, (v >> 2) & 1 == 1, (v >> 3) & 1 == 1, (v >> 4) & 1 == 1,
      (v >> 5) & 1 == 1, (v >> 6) & 1 == 1, (v >> 7) & 1 == 1, (v >> 8) & 1 == 1, (v >> 9) & 1 == 1, w)
  }

  function Chosen(b0: bool, b1: bool, b2: bool, b3: bool, b4: bool, b5: bool, b6: bool, b7: bool, b8: bool, b9: bool,
                  w: bv10): bv10
  {
    var w1 := Turn(w);
    var w2 := Turn(w1);
    var w3 := Turn(w2);
    var w4 := Turn(w3);
    var w5 := Turn(w4);
    var w6 := Turn(w5);
    var w7 := Turn(w6);
    var w8 := Turn(w7);
    var low := Plus(Plus(Plus(Plus(Pick(b0, w), Pick(b1, w1)), Pick(b2, w2)), Pick(b3, w3)), Pick(b4, w4));
    Plus(Plus(Plus(Plus(Plus(low, Pick(b5, w5)), Pick(b6, w6)), Pick(b7, w7)), Pick(b8, w8)), Pick(b9, Turn(w8)))
  }

  /** GF(32) within GF(1024). */
  function Embed(a: bv32): bv10
  {
    (if a & 1 == 1 then 0x1 else 0) ^ (if (a >> 1) & 1 == 1 then 0xe else 0) ^ (if (a >> 2) & 1 == 1 then 0x54 else 0)
    ^ (if (a >> 3) & 1 == 1 then 0x358 else 0) ^ (if (a >> 4) & 1 == 1 then 0xbf else 0)
  }

  lemma EmbedLinear(a: bv32, b: bv32)
    ensures Embed(Xor(a, b)) == Plus(Embed(a), Embed(b))
  {
  }

  lemma EmbedInjective(a: bv32)
    requires a < 32 && Embed(a) == 0
    ensures a == 0
  {
  }

  lemma TurnLinear(a: bv10, b: bv10)
    ensures Turn(Plus(a, b)) == Plus(Turn(a), Turn(b))
  {
  }

  lemma TurnInjective(a: bv10, b: bv10)
    requires Turn(a) == Turn(b)
    ensures a == b
  {
  }

  lemma {:induction false} TurnsLinear(count: nat, a: bv10, b: bv10)
    ensures Turns(count, Plus(a, b)) == Plus(Turns(count, a), Turns(count, b))
  {
    hide Turn, Plus;
    if count > 0 {
      TurnsLinear(count - 1, a, b);
      TurnLinear(Turns(count - 1, a), Turns(count - 1, b));
    }
  }

  lemma {:induction false} TurnsInjective(count: nat, a: bv10, b: bv10)
    requires Turns(count, a) == Turns(count, b)
    ensures a == b
  {
    hide Turn;
    if count > 0 {
      TurnInjective(Turns(count - 1, a), Turns(count - 1, b));
      TurnsInjective(count - 1, a, b);
    }
  }

  lemma {:induction false} TurnsAdd(m: nat, n: nat, v: bv10)
    ensures Turns(m, Turns(n, v)) == Turns(m + n, v)
  {
    hide Turn;
    if m > 0 {
      TurnsAdd(m - 1, n, v);
    }
  }

  lemma TurnPick(bit: bool, v: bv10)
    ensures Turn(Pick(bit, v)) == Pick(bit, Turn(v))
  {
  }

  lemma TurnTimes(v: bv10, w: bv10)
    ensures Turn(Times(v, w)) == Times(v, Turn(w))
  {
    hide Turn, Chosen;
    TurnChosen(v & 1 == 1, (v >> 1) & 1 == 1, (v >> 2) & 1 == 1, (v >> 3) & 1 == 1, (v >> 4) & 1 == 1,
      (v >> 5) & 1 == 1, (v >> 6) & 1 == 1, (v >> 7) & 1 == 1, (v >> 8) & 1 == 1, (v >> 9) & 1 == 1, w);
  }

  lemma TurnChosen(b0: bool, b1: bool, b2: bool, b3: bool, b4: bool, b5: bool, b6: bool, b7: bool, b8: bool, b9: bool,
                   w: bv10)
    ensures Turn(Chosen(b0, b1, b2, b3, b4, b5, b6, b7, b8, b9, w)) ==
      Chosen(b0, b1, b2, b3, b4, b5, b6, b7, b8, b9, Turn(w))
  {
    hide Turn, Pick, Plus;
    var w1 := Turn(w);
    var w2 := Turn(w1);
    var w3 := Turn(w2);
    var w4 := Turn(w3);
    var w5 := Turn(w4);
    var w6 := Turn(w5);
    var w7 := Turn(w6);
    var w8 := Turn(w7);
    TurnPick(b0, w);
    var s1 := TurnSum(Pick(b0, w), b1, w1);
    var s2 := TurnSum(s1, b2, w2);
    var s3 := TurnSum(s2, b3, w3);
    var s4 := TurnSum(s3, b4, w4);
    var s5 := TurnSum(s4, b5, w5);
    var s6 := TurnSum(s5, b6, w6);
    var s7 := TurnSum(s6, b7, w7);
    var s8 := TurnSum(s7, b8, w8);
    var s9 := TurnSum(s8, b9, Turn(w8));
  }

  lemma TurnSum(sum: bv10, bit: bool, w: bv10) returns (next: bv10)
    ensures next == Plus(sum, Pick(bit, w))
    ensures Turn(next) == Plus(Turn(sum), Pick(bit, Turn(w)))
  {
    hide Turn, Pick, Plus;
    next := Plus(sum, Pick(bit, w));
    TurnLinear(sum, Pick(bit, w));
    TurnPick(bit, w);
  }

  lemma TimesOne(v: bv10)
    ensures Times(v, 1) == v
  {
  }

  /** So many turns multiply by that power of the primitive element. */
  lemma {:induction false} TurnsIsTimes(count: nat, v: bv10)
    ensures Turns(count, v) == Times(v, Turns(count, 1))
  {
    hide Turn, Times;
    if count == 0 {
      TimesOne(v);
    } else {
      TurnsIsTimes(count - 1, v);
      TurnTimes(v, Turns(count - 1, 1));
    }
  }

  lemma PowerOfSum(m: nat, n: nat, x: bv10, y: bv10)
    requires Turns(m, 1) == x && Turns(n, 1) == y
    ensures Turns(m + n, 1) == Times(y, x)
  {
    hide Times, Turns;
    TurnsAdd(m, n, 1);
    TurnsIsTimes(m, y);
  }

  lemma Powers()
    ensures Turns(24, 1) == 0x3f0 && Turns(25, 1) == 0x2c3 && Turns(26, 1) == 0xa5
    ensures Turns(33, 1) == 0xb0 && Turns(93, 1) == 0x36a
    ensures Turns(341, 1) == 0x36 && Turns(1023, 1) == 1
  {
    hide Turns;
    assert Turns(1, 1) == 2 by { FirstPower(); }
    PowerOfSum(1, 1, 0x2, 0x2);
    PowerOfSum(2, 2, 0x4, 0x4);
    PowerOfSum(4, 4, 0x10, 0x10);
    PowerOfSum(8, 8, 0x100, 0x100);
    PowerOfSum(16, 8, 0x119, 0x100);
    PowerOfSum(24, 1, 0x3f0, 0x2);
    PowerOfSum(25, 1, 0x2c3, 0x2);
    PowerOfSum(24, 8, 0x3f0, 0x100);
    PowerOfSum(32, 1, 0x58, 0x2);
    PowerOfSum(32, 32, 0x58, 0x58);
    PowerOfSum(33, 24, 0xb0, 0x3f0);
    PowerOfSum(57, 4, 0x2b3, 0x10);
    PowerOfSum(61, 1, 0x228, 0x2);
    PowerOfSum(64, 24, 0xef, 0x3f0);
    PowerOfSum(88, 4, 0xed, 0x10);
    PowerOfSum(92, 1, 0x1b5, 0x2);
    PowerOfSum(93, 93, 0x36a, 0x36a);
    PowerOfSum(186, 93, 0x96, 0x36a);
    PowerOfSum(279, 62, 0x19e, 0x173);
    PowerOfSum(341, 341, 0x36, 0x36);
    PowerOfSum(682, 341, 0x37, 0x36);
  }

  lemma FirstPower()
    ensures Turns(1, 1) == 2
  {
    assert Turns(0, 1) == 1;
  }

  // ----- only whole rounds of 1023 turns have fixed points -----

  lemma FixedBy33(v: bv10)
    ensures Times(v, 0xb0) == v ==> v == 0
  {
  }

  lemma FixedBy93(v: bv10)
    ensures Times(v, 0x36a) == v ==> v == 0
  {
  }

  lemma FixedBy341(v: bv10)
    ensures Times(v, 0x36) == v ==> v == 0
  {
  }

  lemma NoFixedPower(v: bv10)
    ensures Turns(33, v) == v || Turns(93, v) == v || Turns(341, v) == v ==> v == 0
    ensures Turns(1023, v) == v
  {
    hide Turns, Times;
    Powers();
    FixedBy33(v);
    FixedBy93(v);
    FixedBy341(v);
    TurnsIsTimes(33, v);
    TurnsIsTimes(93, v);
    TurnsIsTimes(341, v);
    TurnsIsTimes(1023, v);
    TimesOne(v);
  }

  /** Euclid's algorithm on the numbers of turns that leave `v` alone. */
  lemma {:induction false} FixedByDivisor(m: nat, n: nat, v: bv10) returns (d: nat, q: nat, r: nat)
    requires m > 0 && n > 0 && Turns(m, v) == v && Turns(n, v) == v
    ensures Turns(d, v) == v && m == q * d && n == r * d
    decreases m + n
  {
    hide Turns;
    if m == n {
      d, q, r := m, 1, 1;
    } else if m < n {
      TurnsAdd(m, n - m, v);
      TurnsInjective(m, Turns(n - m, v), v);
      d, q, r := FixedByDivisor(m, n - m, v);
      r := q + r;
    } else {
      TurnsAdd(n, m - n, v);
      TurnsInjective(n, Turns(m - n, v), v);
      d, q, r := FixedByDivisor(m - n, n, v);
      q := q + r;
    }
  }

  lemma {:induction false} FixedByMultiple(d: nat, times: nat, v: bv10)
    requires Turns(d, v) == v
    ensures Turns(times * d, v) == v
  {
    hide Turns;
    if times == 0 {
      assert times * d == 0;
      assert Turns(0, v) == v by { NoTurns(v); }
    } else {
      FixedByMultiple(d, times - 1, v);
      TurnsAdd(d, (times - 1) * d, v);
      assert d + (times - 1) * d == times * d;
    }
  }

  lemma NoTurns(v: bv10)
    ensures Turns(0, v) == v
  {
  }

  /** The proper divisors of 1023 = 3 * 11 * 31 divide 33, 93 or 341. */
  lemma ProperDivisor(d: nat, r: nat)
    requires d * r == 1023 && r > 1
    ensures exists times: nat :: times * d == 33 || times * d == 93 || times * d == 341
  {
    if d <= 31 {
      SmallDivisor(d, r);
      assert 33 * d == 33 || 11 * d == 33 || 3 * d == 33 || 3 * d == 93;
    } else {
      assert r <= 31;
      SmallDivisor(r, d);
      assert 1 * d == 33 || 1 * d == 93 || 1 * d == 341;
    }
  }

  lemma SmallDivisor(d: nat, r: nat)
    requires d * r == 1023 && d <= 31
    ensures d == 1 || d == 3 || d == 11 || d == 31
  {
    assert d in {0, 1, 2, 3, 4, 5, 6, 7, 8, 9, 10, 11, 12, 13, 14, 15, 16, 17, 18, 19, 20, 21, 22, 23, 24, 25, 26, 27,
                 28, 29, 30, 31};
  }

  lemma NoFixedPoint(count: nat, v: bv10)
    requires 0 < count < 1023 && Turns(count, v) == v
    ensures v == 0
  {
    hide Turns;
    NoFixedPower(v);
    var d, q, r := FixedByDivisor(count, 1023, v);
    assert q > 0 && d <= q * d;
    ProperDivisor(d, r);
    var times: nat :| times * d == 33 || times * d == 93 || times * d == 341;
    FixedByMultiple(d, times, v);
  }

  // ----- three errors seen at three consecutive roots -----

  lemma PlusZero(a: bv10, b: bv10)
    ensures Plus(a, b) == 0 <==> a == b
    ensures Plus(a, 0) == a && Plus(0, a) == a
  {
  }

  /** Three sums that vanish, as of the errors x, y and z at three consecutive roots. */
  predicate Vanish(x: bv10, y: bv10, z: bv10, a: nat, b: nat)
  {
    && Plus(Plus(x, y), z) == 0
    && Plus(Plus(Turns(b, x), Turns(a, y)), z) == 0
    && Plus(Plus(Turns(b, Turns(b, x)), Turns(a, Turns(a, y))), z) == 0
  }

  lemma SameLast(x: bv10, y: bv10, p: bv10, q: bv10, z: bv10)
    requires Plus(Plus(x, y), z) == 0 && Plus(Plus(p, q), z) == 0
    ensures Plus(p, x) == Plus(q, y)
  {
  }

  /** The elimination of the Vandermonde determinant of three terms. */
  lemma NoThreeTerms(x: bv10, y: bv10, z: bv10, a: nat, b: nat)
    requires 0 < a < b < 1023 && Vanish(x, y, z, a, b)
    ensures x == 0 && y == 0 && z == 0
  {
    hide Turns, Plus;
    var u := Plus(Turns(b, x), x);
    SameLast(x, y, Turns(b, x), Turns(a, y), z);
    SameLast(Turns(b, x), Turns(a, y), Turns(b, Turns(b, x)), Turns(a, Turns(a, y)), z);
    TurnsLinear(b, Turns(b, x), x);
    TurnsLinear(a, Turns(a, y), y);
    assert Turns(b, u) == Turns(a, u);
    TurnsAdd(a, b - a, u);
    TurnsInjective(a, Turns(b - a, u), u);
    NoFixedPoint(b - a, u);
    PlusZero(Turns(b, x), x);
    PlusZero(Turns(a, y), y);
    NoFixedPoint(b, x);
    NoFixedPoint(a, y);
    PlusZero(x, y);
    PlusZero(x, z);
    PlusZero(0, z);
  }

  // ----- the register, evaluated at the roots -----

  /** Multiplication by one of the three roots, the powers 24, 25 and 26 of the primitive element. */
  function Root(m: nat, v: bv10): bv10
  {
    Turns(24 + m, v)
  }

  function RootPower(m: nat, count: nat, v: bv10): bv10
    decreases count
  {
    if count == 0 then v else Root(m, RootPower(m, count - 1, v))
  }

  /** The polynomial in the register, its coefficients in GF(32), at a root. */
  function Evaluate(m: nat, word: bv32): bv10
  {
    Plus(Plus(Plus(Plus(Plus(Term(m, word, 0), Term(m, word, 1)), Term(m, word, 2)), Term(m, word, 3)),
      Term(m, word, 4)), Term(m, word, 5))
  }

  function Term(m: nat, word: bv32, i: nat): bv10
    requires i < 6
  {
    RootPower(m, i, Embed(Coefficient(word, i)))
  }

  lemma {:induction false} RootPowerLinear(m: nat, count: nat, a: bv10, b: bv10)
    ensures RootPower(m, count, Plus(a, b)) == Plus(RootPower(m, count, a), RootPower(m, count, b))
    decreases count
  {
    hide Turns, Plus;
    if count > 0 {
      RootPowerLinear(m, count - 1, a, b);
      TurnsLinear(24 + m, RootPower(m, count - 1, a), RootPower(m, count - 1, b));
    }
  }

  /** The remainder of x^6 modulo the generator, at a root, times an element of GF(32). */
  function Reduced(m: nat, a: bv32): bv10
  {
    Plus(Plus(Plus(Plus(Plus(Tap(m, a, 0), Tap(m, a, 1)), Tap(m, a, 2)), Tap(m, a, 3)), Tap(m, a, 4)), Tap(m, a, 5))
  }

  function Tap(m: nat, a: bv32, i: nat): bv10
    requires i < 6
  {
    RootPower(m, i, Embed(Mul(a, GeneratorCoefficient(i))))
  }

  lemma {:induction false} RootPowerIsTurns(m: nat, count: nat, v: bv10)
    ensures RootPower(m, count, v) == Turns((24 + m) * count, v)
    decreases count
  {
    hide Turns;
    if count == 0 {
      NoTurns(v);
    } else {
      RootPowerIsTurns(m, count - 1, v);
      TurnsAdd(24 + m, (24 + m) * (count - 1), v);
      assert (24 + m) * count == (24 + m) + (24 + m) * (count - 1);
    }
  }

  /** The generator vanishes at a root with these powers. */
  predicate VanishesAt(a: bv32, p1: bv10, p2: bv10, p3: bv10, p4: bv10, p5: bv10, p6: bv10)
  {
    Times(Embed(a), p6) ==
      Plus(Plus(Plus(Plus(Plus(Embed(Product(a, 18)), Times(Embed(Product(a, 29)), p1)),
        Times(Embed(Product(a, 21)), p2)),
        Times(Embed(Product(a, 20)), p3)), Times(Embed(Product(a, 22)), p4)), Times(Embed(Product(a, 29)), p5))
  }

  lemma VanishesAt24(a: bv32)
    requires a < 32
    ensures VanishesAt(a, 0x3f0, 0x24d, 0x2b9, 0xb9, 0x9, 0x2ba)
  {
  }

  lemma VanishesAt25(a: bv32)
    requires a < 32
    ensures VanishesAt(a, 0x2c3, 0x372, 0x144, 0x1d6, 0x120, 0xa6)
  {
  }

  lemma VanishesAt26(a: bv32)
    requires a < 32
    ensures VanishesAt(a, 0xa5, 0x2ad, 0x66, 0x3aa, 0x27d, 0x98)
  {
  }

  lemma PowersOf24()
    requires Turns(24, 1) == 0x3f0
    ensures Turns(48, 1) == 0x24d && Turns(72, 1) == 0x2b9 && Turns(96, 1) == 0xb9
    ensures Turns(120, 1) == 0x9 && Turns(144, 1) == 0x2ba
  {
    hide Turns;
    PowerOfSum(24, 24, 0x3f0, 0x3f0);
    PowerOfSum(48, 24, 0x24d, 0x3f0);
    PowerOfSum(72, 24, 0x2b9, 0x3f0);
    PowerOfSum(96, 24, 0xb9, 0x3f0);
    PowerOfSum(120, 24, 0x9, 0x3f0);
  }

  lemma PowersOf25()
    requires Turns(25, 1) == 0x2c3
    ensures Turns(50, 1) == 0x372 && Turns(75, 1) == 0x144 && Turns(100, 1) == 0x1d6
    ensures Turns(125, 1) == 0x120 && Turns(150, 1) == 0xa6
  {
    hide Turns;
    PowerOfSum(25, 25, 0x2c3, 0x2c3);
    PowerOfSum(50, 25, 0x372, 0x2c3);
    PowerOfSum(75, 25, 0x144, 0x2c3);
    PowerOfSum(100, 25, 0x1d6, 0x2c3);
    PowerOfSum(125, 25, 0x120, 0x2c3);
  }

  lemma PowersOf26()
    requires Turns(26, 1) == 0xa5
    ensures Turns(52, 1) == 0x2ad && Turns(78, 1) == 0x66 && Turns(104, 1) == 0x3aa
    ensures Turns(130, 1) == 0x27d && Turns(156, 1) == 0x98
  {
    hide Turns;
    PowerOfSum(26, 26, 0xa5, 0xa5);
    PowerOfSum(52, 26, 0x2ad, 0xa5);
    PowerOfSum(78, 26, 0x66, 0xa5);
    PowerOfSum(104, 26, 0x3aa, 0xa5);
    PowerOfSum(130, 26, 0x27d, 0xa5);
  }

  lemma RootTerm(m: nat, i: nat, v: bv10, p: bv10)
    requires Turns((24 + m) * i, 1) == p
    ensures RootPower(m, i, v) == Times(v, p)
  {
    hide Turns, Times, RootPower;
    RootPowerIsTurns(m, i, v);
    TurnsIsTimes((24 + m) * i, v);
  }

  lemma VanishMeans(m: nat, a: bv32, p1: bv10, p2: bv10, p3: bv10, p4: bv10, p5: bv10, p6: bv10)
    requires a < 32 && VanishesAt(a, p1, p2, p3, p4, p5, p6)
    requires Turns((24 + m) * 1, 1) == p1 && Turns((24 + m) * 2, 1) == p2 && Turns((24 + m) * 3, 1) == p3
    requires Turns((24 + m) * 4, 1) == p4 && Turns((24 + m) * 5, 1) == p5 && Turns((24 + m) * 6, 1) == p6
    ensures RootPower(m, 6, Embed(a)) == Reduced(m, a)
  {
    hide Turns, Times, RootPower, Embed, Product, Mul, Plus;
    RootTerm(m, 6, Embed(a), p6);
    TapMeans(m, a, 1, p1);
    TapMeans(m, a, 2, p2);
    TapMeans(m, a, 3, p3);
    TapMeans(m, a, 4, p4);
    TapMeans(m, a, 5, p5);
    ProductIsMul(a, 18);
    assert RootPower(m, 0, Embed(Product(a, 18))) == Embed(Product(a, 18)) by { NoPower(m, Embed(Product(a, 18))); }
  }

  lemma NoPower(m: nat, v: bv10)
    ensures RootPower(m, 0, v) == v
  {
  }

  lemma TapMeans(m: nat, a: bv32, i: nat, p: bv10)
    requires a < 32 && i < 6 && Turns((24 + m) * i, 1) == p
    ensures Tap(m, a, i) == Times(Embed(Product(a, GeneratorCoefficient(i))), p)
  {
    hide Turns, Times, RootPower, Embed, Product, Mul;
    ProductIsMul(a, GeneratorCoefficient(i));
    RootTerm(m, i, Embed(Mul(a, GeneratorCoefficient(i))), p);
  }

  /** The three powers are roots of the generator. */
  lemma RootsOfGenerator(m: nat, a: bv32)
    requires m < 3 && a < 32
    ensures RootPower(m, 6, Embed(a)) == Reduced(m, a)
  {
    hide Turns, Times, RootPower, Embed, Product, Mul, Plus, VanishesAt, Reduced;
    Powers();
    if m == 0 {
      PowersOf24();
      VanishesAt24(a);
      VanishMeans(0, a, 0x3f0, 0x24d, 0x2b9, 0xb9, 0x9, 0x2ba);
    } else if m == 1 {
      PowersOf25();
      VanishesAt25(a);
      VanishMeans(1, a, 0x2c3, 0x372, 0x144, 0x1d6, 0x120, 0xa6);
    } else {
      PowersOf26();
      VanishesAt26(a);
      VanishMeans(2, a, 0xa5, 0x2ad, 0x66, 0x3aa, 0x27d, 0x98);
    }
  }

  lemma Interchange(a: bv10, b: bv10, c: bv10, d: bv10)
    ensures Plus(Plus(a, b), Plus(c, d)) == Plus(Plus(a, c), Plus(b, d))
  {
    hide Plus;
    PlusAssociative(a, b, Plus(c, d));
    PlusAssociative(b, c, d);
    PlusCommutative(b, c);
    PlusAssociative(c, b, d);
    PlusAssociative(a, c, Plus(b, d));
  }

  lemma PlusAssociative(a: bv10, b: bv10, c: bv10)
    ensures Plus(Plus(a, b), c) == Plus(a, Plus(b, c))
  {
  }

  lemma PlusCommutative(a: bv10, b: bv10)
    ensures Plus(a, b) == Plus(b, a)
  {
  }

  lemma FirstLast(a: bv10, b: bv10, c: bv10, d: bv10, e: bv10, f: bv10, sum: bv10)
    ensures Plus(Plus(Plus(Plus(Plus(Plus(a, b), c), d), e), f), sum) ==
      Plus(Plus(Plus(Plus(Plus(Plus(b, c), d), e), f), sum), a)
  {
  }

  /** Two sums of six, rearranged. */
  lemma SumOfSums(p0: bv10, p1: bv10, p2: bv10, p3: bv10, p4: bv10, p5: bv10,
                  q0: bv10, q1: bv10, q2: bv10, q3: bv10, q4: bv10, q5: bv10)
    ensures var sum := Plus(Plus(Plus(Plus(Plus(q0, q1), q2), q3), q4), q5);
      Plus(Plus(Plus(Plus(Plus(Plus(p0, q0), Plus(p1, q1)), Plus(p2, q2)), Plus(p3, q3)), Plus(p4, q4)), Plus(p5, q5))
      == Plus(Plus(Plus(Plus(Plus(Plus(p1, p2), p3), p4), p5), sum), p0)
  {
    hide Plus;
    var p01, q01 := Plus(p0, p1), Plus(q0, q1);
    var p02, q02 := Plus(p01, p2), Plus(q01, q2);
    var p03, q03 := Plus(p02, p3), Plus(q02, q3);
    var p04, q04 := Plus(p03, p4), Plus(q03, q4);
    Interchange(p0, q0, p1, q1);
    Interchange(p01, q01, p2, q2);
    Interchange(p02, q02, p3, q3);
    Interchange(p03, q03, p4, q4);
    Interchange(p04, q04, p5, q5);
    FirstLast(p0, p1, p2, p3, p4, p5, Plus(q04, q5));
  }

  lemma RootLinear(m: nat, a: bv10, b: bv10)
    ensures Root(m, Plus(a, b)) == Plus(Root(m, a), Root(m, b))
  {
    hide Turns, Plus;
    TurnsLinear(24 + m, a, b);
  }

  /** One term of the register after a step: the term below it moved up, and the tap of the generator. */
  lemma TermAfterStep(m: nat, word: bv32, value: bv32, i: nat)
    requires word < 0x4000_0000 && value < 32 && i < 6
    ensures Term(m, Step(word, value), i) ==
      Plus(if i == 0 then Embed(value) else Root(m, Term(m, word, i - 1)), Tap(m, Coefficient(word, 5), i))
  {
    hide Step, Mul, Embed, Plus, Xor, Coefficient, GeneratorCoefficient, Root;
    StepIsPolynomialRemainder(word, value, i);
    var below := if i == 0 then value else Coefficient(word, i - 1);
    var tap := Mul(Coefficient(word, 5), GeneratorCoefficient(i));
    EmbedLinear(below, tap);
    RootPowerLinear(m, i, Embed(below), Embed(tap));
  }

  /** At a root, a step multiplies by the root and adds the symbol. */
  lemma EvaluateStep(m: nat, word: bv32, value: bv32)
    requires m < 3 && word < 0x4000_0000 && value < 32
    ensures Evaluate(m, Step(word, value)) == Plus(Root(m, Evaluate(m, word)), Embed(value))
  {
    hide Step, Term, Tap, Plus, Root, Embed, Coefficient;
    TermAfterStep(m, word, value, 0);
    TermAfterStep(m, word, value, 1);
    TermAfterStep(m, word, value, 2);
    TermAfterStep(m, word, value, 3);
    TermAfterStep(m, word, value, 4);
    TermAfterStep(m, word, value, 5);
    var t0, t1, t2, t3, t4 := Term(m, word, 0), Term(m, word, 1), Term(m, word, 2), Term(m, word, 3), Term(m, word, 4);
    var t01 := Plus(t0, t1);
    var t02 := Plus(t01, t2);
    var t03 := Plus(t02, t3);
    var t04 := Plus(t03, t4);
    RootLinear(m, t0, t1);
    RootLinear(m, t01, t2);
    RootLinear(m, t02, t3);
    RootLinear(m, t03, t4);
    RootLinear(m, t04, Term(m, word, 5));
    LastTerm(m, word);
    var high := Coefficient(word, 5);
    SumOfSums(Embed(value), Root(m, t0), Root(m, t1), Root(m, t2), Root(m, t3), Root(m, t4),
      Tap(m, high, 0), Tap(m, high, 1), Tap(m, high, 2), Tap(m, high, 3), Tap(m, high, 4), Tap(m, high, 5));
  }

  lemma LastTerm(m: nat, word: bv32)
    requires m < 3
    ensures Root(m, Term(m, word, 5)) == Reduced(m, Coefficient(word, 5))
  {
    hide Root, Reduced, Embed, Coefficient;
    CoefficientBound(word, 5);
    RootsOfGenerator(m, Coefficient(word, 5));
  }

  lemma {:induction false} EvaluateRun(m: nat, word: bv32, count: nat)
    requires m < 3 && word < 0x4000_0000
    ensures ZeroRun(word, count) < 0x4000_0000
    ensures Evaluate(m, ZeroRun(word, count)) == RootPower(m, count, Evaluate(m, word))
    decreases count
  {
    hide Step, Evaluate, Plus, Root, Embed;
    if count > 0 {
      EvaluateRun(m, word, count - 1);
      StepBound(ZeroRun(word, count - 1), 0);
      EvaluateStep(m, ZeroRun(word, count - 1), 0);
      assert Embed(0) == 0 by { EmbedZero(); }
      PlusZero(Root(m, Evaluate(m, ZeroRun(word, count - 1))), 0);
    }
  }

  lemma EmbedZero()
    ensures Embed(0) == 0
  {
  }

  lemma {:induction false} RootPowerZero(m: nat, count: nat)
    ensures RootPower(m, count, 0) == 0
    decreases count
  {
    hide Turns, Plus;
    if count > 0 {
      RootPowerZero(m, count - 1);
      TurnsLinear(24 + m, 0, 0);
      PlusZero(0, 0);
      PlusZero(Turns(24 + m, 0), Turns(24 + m, 0));
    }
  }

  /** A single symbol is its own value at a root. */
  lemma EvaluateSymbol(m: nat, value: bv32)
    requires value < 32
    ensures Evaluate(m, value) == Embed(value)
  {
    hide Plus, Root, Embed, Coefficient;
    SymbolTerm(m, value, 0);
    SymbolTerm(m, value, 1);
    SymbolTerm(m, value, 2);
    SymbolTerm(m, value, 3);
    SymbolTerm(m, value, 4);
    SymbolTerm(m, value, 5);
    PlusZero(Embed(value), 0);
  }

  lemma SymbolTerm(m: nat, value: bv32, i: nat)
    requires value < 32 && i < 6
    ensures Term(m, value, i) == if i == 0 then Embed(value) else 0
  {
    hide Root, Coefficient, Embed;
    CoefficientOfSymbol(value, i);
    EmbedZero();
    RootPowerZero(m, i);
  }

  // ----- three errors -----

  lemma {:induction false} RootPowerAdd(m: nat, a: nat, b: nat, v: bv10)
    ensures RootPower(m, a, RootPower(m, b, v)) == RootPower(m, a + b, v)
    decreases a
  {
    hide Root;
    if a > 0 {
      RootPowerAdd(m, a - 1, b, v);
    }
  }

  /** The next root is the primitive element times this one. */
  lemma {:induction false} NextRoot(m: nat, count: nat, v: bv10)
    ensures RootPower(m + 1, count, v) == Turns(count, RootPower(m, count, v))
    decreases count
  {
    hide Turns;
    if count == 0 {
      NoTurns(v);
    } else {
      NextRoot(m, count - 1, v);
      var before := RootPower(m, count - 1, v);
      TurnsAdd(25 + m, count - 1, before);
      TurnsAdd(count, 24 + m, before);
    }
  }

  /** The value at a root of three errors, `b` and `a` symbols before the last one. */
  function Syndrome(m: nat, e: bv32, f: bv32, g: bv32, a: nat, b: nat): bv10
  {
    Plus(Plus(RootPower(m, b, Embed(e)), RootPower(m, a, Embed(f))), Embed(g))
  }

  lemma NoThreeErrors(e: bv32, f: bv32, g: bv32, a: nat, b: nat)
    requires e < 32 && f < 32 && g < 32 && 0 < a < b < 1023
    requires Syndrome(0, e, f, g, a, b) == 0 && Syndrome(1, e, f, g, a, b) == 0 && Syndrome(2, e, f, g, a, b) == 0
    ensures e == 0 && f == 0 && g == 0
  {
    hide Turns, Plus, Embed, RootPower;
    var x, y, z := RootPower(0, b, Embed(e)), RootPower(0, a, Embed(f)), Embed(g);
    NextRoot(0, b, Embed(e));
    NextRoot(1, b, Embed(e));
    NextRoot(0, a, Embed(f));
    NextRoot(1, a, Embed(f));
    NoThreeTerms(x, y, z, a, b);
    NoRootPower(0, b, Embed(e));
    NoRootPower(0, a, Embed(f));
    EmbedInjective(e);
    EmbedInjective(f);
    EmbedInjective(g);
  }

  lemma {:induction false} NoRootPower(m: nat, count: nat, v: bv10)
    requires RootPower(m, count, v) == 0
    ensures v == 0
    decreases count
  {
    hide Turns;
    if count > 0 {
      var before := RootPower(m, count - 1, v);
      RootPowerZero(m, 1);
      assert Root(m, 0) == RootPower(m, 1, 0) by { OneRootPower(m, 0); }
      TurnsInjective(24 + m, before, 0);
      NoRootPower(m, count - 1, v);
    }
  }

  lemma OneRootPower(m: nat, v: bv10)
    ensures RootPower(m, 1, v) == Root(m, v)
  {
    hide Root;
    assert RootPower(m, 0, v) == v;
  }

  predicate AgreeExceptAtThree<T(==)>(a: seq<T>, b: seq<T>, i: nat, j: nat, k: nat)
    requires |a| == |b|
  {
    forall t | 0 <= t < |a| && t != i && t != j && t != k :: a[t] == b[t]
  }

  /** Up to the last of two errors the register holds their sum, as seen at a root. */
  lemma EvaluateTwo(m: nat, d: seq<bv32>, i: nat, j: nat)
    requires m < 3 && Symbols(d) && i < j < |d|
    requires forall t | 0 <= t < j && t != i :: d[t] == 0
    ensures Fold(0, d[..j + 1]) < 0x4000_0000
    ensures Evaluate(m, Fold(0, d[..j + 1])) == Plus(RootPower(m, j - i, Embed(d[i])), Embed(d[j]))
  {
    hide Fold, Step, ZeroRun, Evaluate, Plus, Root, Embed;
    FoldEmpty(d[..0]);
    FoldZeros(d, 0, i);
    ZeroRunOfZero(i);
    FoldSnoc(d, i);
    OnlySymbol(d[i]);
    FoldZeros(d, i + 1, j);
    EvaluateSymbol(m, d[i]);
    EvaluateNext(m, d, j, j - i - 1, Fold(0, d[..i + 1]));
  }

  lemma EvaluateNext(m: nat, d: seq<bv32>, j: nat, count: nat, before: bv32)
    requires m < 3 && Symbols(d) && j < |d| && before < 0x4000_0000
    requires Fold(0, d[..j]) == ZeroRun(before, count)
    ensures Fold(0, d[..j + 1]) < 0x4000_0000
    ensures Evaluate(m, Fold(0, d[..j + 1])) == Plus(RootPower(m, count + 1, Evaluate(m, before)), Embed(d[j]))
  {
    hide Fold, Step, ZeroRun, Evaluate, Plus, Root, Embed;
    FoldSnoc(d, j);
    EvaluateRun(m, before, count);
    EvaluateStep(m, Fold(0, d[..j]), d[j]);
    StepBound(Fold(0, d[..j]), d[j]);
  }

  lemma EvaluateThree(m: nat, d: seq<bv32>, i: nat, j: nat, k: nat)
    requires m < 3 && Symbols(d) && i < j < k < |d|
    requires forall t | 0 <= t < k && t != i && t != j :: d[t] == 0
    ensures Evaluate(m, Fold(0, d[..k + 1])) == Syndrome(m, d[i], d[j], d[k], k - j, k - i)
  {
    hide Fold, Step, ZeroRun, Evaluate, Plus, RootPower, Embed;
    EvaluateTwo(m, d, i, j);
    FoldZeros(d, j + 1, k);
    EvaluateNext(m, d, k, k - j - 1, Fold(0, d[..j + 1]));
    RootPowerLinear(m, k - j, RootPower(m, j - i, Embed(d[i])), Embed(d[j]));
    RootPowerAdd(m, k - j, j - i, Embed(d[i]));
  }

  lemma DifferenceOfThree(a: seq<bv32>, b: seq<bv32>, i: nat, j: nat, k: nat)
    requires |a| == |b| && Symbols(a) && Symbols(b) && AgreeExceptAtThree(a, b, i, j, k)
    ensures Symbols(XorAll(a, b))
    ensures forall t | 0 <= t < |a| && t != i && t != j && t != k :: XorAll(a, b)[t] == 0
    ensures forall t | 0 <= t < |a| :: XorAll(a, b)[t] == 0 <==> a[t] == b[t]
  {
    hide Xor;
    forall t | 0 <= t < |a| ensures XorAll(a, b)[t] < 32 && (XorAll(a, b)[t] == 0 <==> a[t] == b[t]) {
      XorBound(a[t], b[t]);
      XorCancel(a[t], b[t]);
      XorZero(a[t]);
    }
  }

  /** Up to three wrong symbols, less than 1023 apart, always change the checksum, at any length. */
  lemma ThreeErrorsDetected(a: seq<bv32>, b: seq<bv32>, i: nat, j: nat, k: nat)
    requires |a| == |b| && Symbols(a) && Symbols(b)
    requires i < j < k < |a| && k - i < 1023 && AgreeExceptAtThree(a, b, i, j, k)
    ensures Fold(1, a) == Fold(1, b) <==> a == b
  {
    hide Fold, Xor, Evaluate, Syndrome;
    if Fold(1, a) == Fold(1, b) {
      var d := XorAll(a, b);
      DifferenceOfThree(a, b, i, j, k);
      FoldLinear(1, 1, a, b);
      XorZero(1);
      XorZero(Fold(1, a));
      assert d == d[..k + 1] + d[k + 1..];
      FoldAppend(0, d[..k + 1], d[k + 1..]);
      FoldBound(0, d[..k + 1]);
      FoldZerosOnly(d[k + 1..]);
      SuffixInjective(Fold(0, d[..k + 1]), 0, d[k + 1..]);
      EvaluateThree(0, d, i, j, k);
      EvaluateThree(1, d, i, j, k);
      EvaluateThree(2, d, i, j, k);
      NoValue(0);
      NoValue(1);
      NoValue(2);
      NoThreeErrors(d[i], d[j], d[k], k - j, k - i);
    }
  }

  lemma NoValue(m: nat)
    ensures Evaluate(m, 0) == 0
  {
    hide Evaluate, Embed;
    EvaluateSymbol(m, 0);
    EmbedZero();
  }

  /** Two wrong symbols are three, or next to each other. */
  lemma TwoErrorsDetected(a: seq<bv32>, b: seq<bv32>, i: nat, j: nat)
    requires |a| == |b| && Symbols(a) && Symbols(b)
    requires i < j < |a| && j - i < 1023 && AgreeExceptAt(a, b, i, j)
    ensures Fold(1, a) == Fold(1, b) <==> a == b
  {
    hide Fold;
    if j == i + 1 {
      BurstDetected(a, b, i);
    } else {
      ThreeErrorsDetected(a, b, i, i + 1, j);
    }
  }
}
