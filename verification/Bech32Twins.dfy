/** The errors that no Bech32 checksum detects: a wrong witness version also changes the constant that the
    checksum must reach, from that of Bech32 to that of Bech32m or back. */
module Bech32Twins {
  import opened Bech32
  import opened Bech32Field
  import opened Sequences

  /** How far apart the two constants are, 1 and 0x2bc830a3. */
  const CHANGE: bv32 := 0x2bc8_30a2

  /** The six symbols at the start of a data part of this length that move the checksum by CHANGE. */
  function TwinDifference(length: nat): (symbols: seq<bv32>)
    ensures |symbols| == 6 && Symbols(symbols)
  {
    if length == 39 then [2, 4, 16, 20, 15, 2] else [14, 12, 2, 17, 11, 8]
  }

  // ----- two registers side by side -----

  /** The coefficients of x^3 and x^5 of one register are not the same multiple of those of the other. */
  predicate Apart(word: bv32, other: bv32)
  {
    Product((word >> 15) & 31, (other >> 25) & 31) != Product((word >> 25) & 31, (other >> 15) & 31)
  }

  /** After `count` zero steps the two registers hold these words, and were apart all the way. */
  predicate At(start: bv32, count: nat, word: bv32, other: bv32)
    decreases count
  {
    && word == ZeroRun(1, count + 5) && other == ZeroRun(start, count)
    && AllApart(start, count)
  }

  predicate AllApart(start: bv32, count: nat)
  {
    Apart(ZeroRun(1, count + 5), ZeroRun(start, count)) && (count > 0 ==> AllApart(start, count - 1))
  }

  /** A zero step in closed form, to calculate with. */
  function Next(word: bv32): bv32
  {
    ((word & 0x01ff_ffff) << 5)
    ^ (if (word >> 25) & 1 == 1 then 0x3b6a57b2 else 0) ^ (if (word >> 26) & 1 == 1 then 0x26508e6d else 0)
    ^ (if (word >> 27) & 1 == 1 then 0x1ea119fa else 0) ^ (if (word >> 28) & 1 == 1 then 0x3d4233dd else 0)
    ^ (if (word >> 29) & 1 == 1 then 0x2a1462b3 else 0)
  }

  lemma NextIsStep(word: bv32)
    ensures Next(word) == Step(word, 0)
  {
    TapsUnfold(High(word));
  }

  lemma TwinStart(start: bv32)
    requires Apart(0x2000000, start)
    ensures At(start, 0, 0x2000000, start)
  {
    hide Apart, Step, ZeroRun;
    FirstFiveSteps();
    assert ZeroRun(start, 0) == start by { NoSteps(start); }
  }

  lemma NoSteps(word: bv32)
    ensures ZeroRun(word, 0) == word
  {
  }

  lemma FirstFiveSteps()
    ensures ZeroRun(1, 5) == 0x2000000
  {
    hide ZeroRun, Step;
    NoSteps(1);
    QuietStep(1, 0);
    QuietStep(0x20, 0);
    QuietStep(0x400, 0);
    QuietStep(0x8000, 0);
    QuietStep(0x100000, 0);
    ZeroRunSnoc(1, 1);
    ZeroRunSnoc(1, 2);
    ZeroRunSnoc(1, 3);
    ZeroRunSnoc(1, 4);
    ZeroRunSnoc(1, 5);
  }

  lemma TwinStep(start: bv32, count: nat, word: bv32, other: bv32, nextWord: bv32, nextOther: bv32)
    requires At(start, count, word, other)
    requires Next(word) == nextWord && Next(other) == nextOther && Apart(nextWord, nextOther)
    ensures At(start, count + 1, nextWord, nextOther)
  {
    hide Apart, Step, Next;
    NextIsStep(word);
    NextIsStep(other);
  }

  lemma ShortRun()
    ensures At(0x44851e2, 33, 0x17ebadab, 0x2bc830a2)
  {
    hide At;
    TwinStart(0x44851e2);
    TwinStep(0x44851e2, 0, 0x2000000, 0x44851e2, 0x3b6a57b2, 0x2f5ab22d);
    TwinStep(0x44851e2, 1, 0x3b6a57b2, 0x2f5ab22d, 0x1fd7e966, 0x2d9e736);
    TwinStep(0x44851e2, 2, 0x1fd7e966, 0x2d9e736, 0x424df38, 0x2056b172);
    TwinStep(0x44851e2, 3, 0x424df38, 0x2056b172, 0x22cb696d, 0x20c24cf3);
    TwinStep(0x44851e2, 4, 0x22cb696d, 0x20c24cf3, 0x81318a1, 0x325dfcd3);
    TwinStep(0x44851e2, 5, 0x81318a1, 0x325dfcd3, 0x1cc20dda, 0x27839cbc);
    TwinStep(0x44851e2, 6, 0x1cc20dda, 0x27839cbc, 0x1df21f0a, 0x75d2cec);
    TwinStep(0x44851e2, 7, 0x1df21f0a, 0x75d2cec, 0x3bf0450a, 0x369f445f);
    TwinStep(0x44851e2, 8, 0x3bf0450a, 0x369f445f, 0xc95be66, 0x19840351);
    TwinStep(0x44851e2, 9, 0xc95be66, 0x19840351, 0x2a465b57, 0x13634007);
    TwinStep(0x44851e2, 10, 0x2a465b57, 0x13634007, 0x714461b, 0x2a40648f);
    TwinStep(0x44851e2, 11, 0x714461b, 0x2a40648f, 0x3fb21abf, 0x7d3bd1b);
    TwinStep(0x44851e2, 12, 0x3fb21abf, 0x7d3bd1b, 0x228ec6ab, 0x274d7abf);
    TwinStep(0x44851e2, 13, 0x228ec6ab, 0x274d7abf, 0xa6e061, 0x1e81ec8c);
    TwinStep(0x44851e2, 14, 0xa6e061, 0x1e81ec8c, 0x14dc0c20, 0x2ee46278);
    TwinStep(0x44851e2, 15, 0x14dc0c20, 0x2ee46278, 0x9339b0, 0x3503ed96);
    TwinStep(0x44851e2, 16, 0x9339b0, 0x3503ed96, 0x12673600, 0x117b6dc3);
    TwinStep(0x44851e2, 17, 0x12673600, 0x117b6dc3, 0xacea46f, 0x122f8bbd);
    TwinStep(0x44851e2, 18, 0xacea46f, 0x122f8bbd, 0x3c1fc3a8, 0x3d913cf);
    TwinStep(0x44851e2, 19, 0x3c1fc3a8, 0x3d913cf, 0x2c5fb3f9, 0x482e52);
    TwinStep(0x44851e2, 20, 0x2c5fb3f9, 0x482e52, 0x19138a04, 0x905ca40);
    TwinStep(0x44851e2, 21, 0x19138a04, 0x905ca40, 0x1926aa7, 0x3e1851fa);
    TwinStep(0x44851e2, 22, 0x1926aa7, 0x3e1851fa, 0x324d54e0, 0x17c7ae0b);
    TwinStep(0x44851e2, 23, 0x324d54e0, 0x17c7ae0b, 0x25969adc, 0x188d2b62);
    TwinStep(0x44851e2, 24, 0x25969adc, 0x188d2b62, 0x3e97b75e, 0x32464667);
    TwinStep(0x44851e2, 25, 0x3e97b75e, 0x32464667, 0x63b7a8b, 0x24f4ca3c);
    TwinStep(0x44851e2, 26, 0x63b7a8b, 0x24f4ca3c, 0x1a5588bf, 0x12ddab5e);
    TwinStep(0x44851e2, 27, 0x1a5588bf, 0x12ddab5e, 0x12386a75, 0x1d9d0faf);
    TwinStep(0x44851e2, 28, 0x12386a75, 0x1d9d0faf, 0x1252acf, 0x361251aa);
    TwinStep(0x44851e2, 29, 0x1252acf, 0x361251aa, 0x24a559e0, 0x826bdf1);
    TwinStep(0x44851e2, 30, 0x24a559e0, 0x826bdf1, 0x18efd0de, 0x1a76a7da);
    TwinStep(0x44851e2, 31, 0x18efd0de, 0x1a76a7da, 0x3e1931e7, 0x165d86d5);
    TwinStep(0x44851e2, 32, 0x3e1931e7, 0x165d86d5, 0x17ebadab, 0x2bc830a2);
  }

  lemma LongRun()
    ensures At(0x1cc14568, 53, 0x3eb817be, 0x2bc830a2)
  {
    hide At;
    TwinStart(0x1cc14568);
    TwinStep(0x1cc14568, 0, 0x2000000, 0x1cc14568, 0x3b6a57b2, 0x1d9b094a);
    TwinStep(0x1cc14568, 1, 0x3b6a57b2, 0x1d9b094a, 0x1fd7e966, 0x36d28d0a);
    TwinStep(0x1cc14568, 2, 0x1fd7e966, 0x36d28d0a, 0x424df38, 0x103d29f1);
    TwinStep(0x1cc14568, 3, 0x424df38, 0x103d29f1, 0x22cb696d, 0x3ae70dfd);
    TwinStep(0x1cc14568, 4, 0x22cb696d, 0x3ae70dfd, 0x81318a1, 0x2e7ca086);
    TwinStep(0x1cc14568, 5, 0x81318a1, 0x2e7ca086, 0x1cc20dda, 0x261bb256);
    TwinStep(0x1cc14568, 6, 0x1cc20dda, 0x261bb256, 0x1df21f0a, 0x3458f1ac);
    TwinStep(0x1cc14568, 7, 0x1df21f0a, 0x3458f1ac, 0x3bf0450a, 0x3a18ea83);
    TwinStep(0x1cc14568, 8, 0x3bf0450a, 0x3a18ea83, 0xc95be66, 0x31804f46);
    TwinStep(0x1cc14568, 9, 0xc95be66, 0x31804f46, 0x2a465b57, 0x275fb9ae);
    TwinStep(0x1cc14568, 10, 0x2a465b57, 0x275fb9ae, 0x714461b, 0x1cd98eac);
    TwinStep(0x1cc14568, 11, 0x714461b, 0x1cd98eac, 0x3fb21abf, 0x1e8271ca);
    TwinStep(0x1cc14568, 12, 0x3fb21abf, 0x1e8271ca, 0x228ec6ab, 0x2e97cab8);
    TwinStep(0x1cc14568, 13, 0x228ec6ab, 0x2e97cab8, 0xa6e061, 0x3b76f596);
    TwinStep(0x1cc14568, 14, 0xa6e061, 0x3b76f596, 0x14dc0c20, 0x1c43ade6);
    TwinStep(0x1cc14568, 15, 0x14dc0c20, 0x1c43ade6, 0x9339b0, 0xdc6188a);
    TwinStep(0x1cc14568, 16, 0x9339b0, 0xdc6188a, 0x12673600, 0x3286d7);
    TwinStep(0x1cc14568, 17, 0x12673600, 0x3286d7, 0xacea46f, 0x650dae0);
    TwinStep(0x1cc14568, 18, 0xacea46f, 0x650dae0, 0x3c1fc3a8, 0x172185df);
    TwinStep(0x1cc14568, 19, 0x3c1fc3a8, 0x172185df, 0x2c5fb3f9, 0x44851e2);
    TwinStep(0x1cc14568, 20, 0x2c5fb3f9, 0x44851e2, 0x19138a04, 0x2f5ab22d);
    TwinStep(0x1cc14568, 21, 0x19138a04, 0x2f5ab22d, 0x1926aa7, 0x2d9e736);
    TwinStep(0x1cc14568, 22, 0x1926aa7, 0x2d9e736, 0x324d54e0, 0x2056b172);
    TwinStep(0x1cc14568, 23, 0x324d54e0, 0x2056b172, 0x25969adc, 0x20c24cf3);
    TwinStep(0x1cc14568, 24, 0x25969adc, 0x20c24cf3, 0x3e97b75e, 0x325dfcd3);
    TwinStep(0x1cc14568, 25, 0x3e97b75e, 0x325dfcd3, 0x63b7a8b, 0x27839cbc);
    TwinStep(0x1cc14568, 26, 0x63b7a8b, 0x27839cbc, 0x1a5588bf, 0x75d2cec);
    TwinStep(0x1cc14568, 27, 0x1a5588bf, 0x75d2cec, 0x12386a75, 0x369f445f);
    TwinStep(0x1cc14568, 28, 0x12386a75, 0x369f445f, 0x1252acf, 0x19840351);
    TwinStep(0x1cc14568, 29, 0x1252acf, 0x19840351, 0x24a559e0, 0x13634007);
    TwinStep(0x1cc14568, 30, 0x24a559e0, 0x13634007, 0x18efd0de, 0x2a40648f);
    TwinStep(0x1cc14568, 31, 0x18efd0de, 0x2a40648f, 0x3e1931e7, 0x7d3bd1b);
    TwinStep(0x1cc14568, 32, 0x3e1931e7, 0x7d3bd1b, 0x17ebadab, 0x274d7abf);
    TwinStep(0x1cc14568, 33, 0x17ebadab, 0x274d7abf, 0x1d0d5f62, 0x1e81ec8c);
    TwinStep(0x1cc14568, 34, 0x1d0d5f62, 0x1e81ec8c, 0x2418480a, 0x2ee46278);
    TwinStep(0x1cc14568, 35, 0x2418480a, 0x2ee46278, 0xf4ded9e, 0x3503ed96);
    TwinStep(0x1cc14568, 36, 0xf4ded9e, 0x3503ed96, 0x2a2673e5, 0x117b6dc3);
    TwinStep(0x1cc14568, 37, 0x2a2673e5, 0x117b6dc3, 0xb11505b, 0x122f8bbd);
    TwinStep(0x1cc14568, 38, 0xb11505b, 0x122f8bbd, 0x7e14528, 0x3d913cf);
    TwinStep(0x1cc14568, 39, 0x7e14528, 0x3d913cf, 0x21127cdf, 0x482e52);
    TwinStep(0x1cc14568, 40, 0x21127cdf, 0x482e52, 0x85bf953, 0x905ca40);
    TwinStep(0x1cc14568, 41, 0x85bf953, 0x905ca40, 0x15de339a, 0x3e1851fa);
    TwinStep(0x1cc14568, 42, 0x15de339a, 0x3e1851fa, 0x20d4cef0, 0x17c7ae0b);
    TwinStep(0x1cc14568, 43, 0x20d4cef0, 0x17c7ae0b, 0x308dbcb3, 0x188d2b62);
    TwinStep(0x1cc14568, 44, 0x308dbcb3, 0x188d2b62, 0x6e1c70e, 0x32464667);
    TwinStep(0x1cc14568, 45, 0x6e1c70e, 0x32464667, 0x102381f, 0x24f4ca3c);
    TwinStep(0x1cc14568, 46, 0x102381f, 0x24f4ca3c, 0x204703e0, 0x12ddab5e);
    TwinStep(0x1cc14568, 47, 0x204703e0, 0x12ddab5e, 0x22f41eb3, 0x1d9d0faf);
    TwinStep(0x1cc14568, 48, 0x22f41eb3, 0x1d9d0faf, 0xffde361, 0x361251aa);
    TwinStep(0x1cc14568, 49, 0xffde361, 0x361251aa, 0x3c27ac05, 0x826bdf1);
    TwinStep(0x1cc14568, 50, 0x3c27ac05, 0x826bdf1, 0x2b524659, 0x1a76a7da);
    TwinStep(0x1cc14568, 51, 0x2b524659, 0x1a76a7da, 0x2597e7db, 0x165d86d5);
    TwinStep(0x1cc14568, 52, 0x2597e7db, 0x165d86d5, 0x3eb817be, 0x2bc830a2);
  }

  // ----- the twins are the only undetected errors of their kind -----

  /** The whole difference between a data part and its twin. */
  function Twin(length: nat): (symbols: seq<bv32>)
    requires length == 39 || length == 59
    ensures |symbols| == length && Symbols(symbols)
  {
    TwinDifference(length) + Repeat<bv32>(0, length - 6)
  }

  function TwinWord(length: nat): bv32
  {
    if length == 39 then 0x44851e2 else 0x1cc14568
  }

  lemma TwinWordIsFold(length: nat)
    ensures Fold(0, TwinDifference(length)) == TwinWord(length)
  {
    assert length != 39 ==> TwinDifference(length) == Unpack(0x1cc14568, 6);
    assert length == 39 ==> TwinDifference(length) == Unpack(0x44851e2, 6);
    FoldUnpack(TwinWord(length), 6);
  }

  /** All steps of the two registers, up to the end of the data part. */
  lemma TwinRun(length: nat, count: nat)
    requires length == 39 || length == 59
    requires count <= length - 6
    ensures Apart(ZeroRun(1, count + 5), ZeroRun(TwinWord(length), count))
    ensures ZeroRun(TwinWord(length), length - 6) == CHANGE
  {
    hide Apart, ZeroRun, AllApart;
    if length == 39 {
      ShortRun();
    } else {
      LongRun();
    }
    ApartBelow(TwinWord(length), count, length - 6);
  }

  lemma {:induction false} ApartBelow(start: bv32, count: nat, limit: nat)
    requires count <= limit && AllApart(start, limit)
    ensures Apart(ZeroRun(1, count + 5), ZeroRun(start, count))
    decreases limit
  {
    hide Apart, ZeroRun;
    if count < limit {
      ApartBelow(start, count, limit - 1);
    }
  }

  lemma TwinPrefix(length: nat, count: nat)
    requires length == 39 || length == 59
    requires 6 <= count <= length
    ensures Fold(0, Twin(length)[..count]) == ZeroRun(TwinWord(length), count - 6)
  {
    hide Fold, ZeroRun, TwinWord;
    assert Twin(length)[..6] == TwinDifference(length);
    TwinWordIsFold(length);
    FoldZeros(Twin(length), 6, count);
  }

  /** The twin difference moves the checksum by exactly the change of constant. */
  lemma TwinMoves(length: nat)
    requires length == 39 || length == 59
    ensures Fold(0, Twin(length)) == CHANGE
  {
    hide Fold, ZeroRun, Apart, TwinWord, Twin;
    assert Twin(length)[..length] == Twin(length);
    TwinPrefix(length, length);
    TwinRun(length, 0);
  }

  lemma OnlyTwinInWindow(difference: seq<bv32>)
    requires |difference| == 39 || |difference| == 59
    requires Symbols(difference) && forall k | 6 <= k < |difference| :: difference[k] == 0
    ensures Fold(0, difference) == CHANGE <==> difference == Twin(|difference|)
  {
    hide Fold;
    var twin := Twin(|difference|);
    TwinMoves(|difference|);
    if Fold(0, difference) == CHANGE {
      assert difference[6..] == twin[6..];
      FoldPrefix(difference, twin, 6);
      WindowInjective(0, difference[..6], twin[..6]);
    }
  }

  /** A register made of a scaled one and one more symbol is not apart from the one that was scaled. */
  lemma ScaledNotApart(factor: bv32, symbol: bv32, word: bv32, scaled: bv32)
    requires factor < 32 && symbol < 32 && Scaled(factor, word, scaled)
    ensures !Apart(word, Xor(scaled, symbol))
  {
    hide Product, Mul, Xor;
    var other := Xor(scaled, symbol);
    CoefficientXor(scaled, symbol, 3);
    CoefficientXor(scaled, symbol, 5);
    CoefficientOfSymbol(symbol, 3);
    CoefficientOfSymbol(symbol, 5);
    XorZero(Coefficient(scaled, 3));
    XorZero(Coefficient(scaled, 5));
    var three, five := Coefficient(word, 3), Coefficient(word, 5);
    CoefficientBound(other, 3);
    CoefficientBound(other, 5);
    assert Coefficient(other, 3) == Mul(factor, three) && Coefficient(other, 5) == Mul(factor, five);
    ProductIsMul(three, Coefficient(other, 5));
    ProductIsMul(five, Coefficient(other, 3));
    SwapFactors(three, factor, five);
    SwapFactors(five, factor, three);
    MulCommutative(three, five);
  }

  lemma SwapFactors(a: bv32, factor: bv32, b: bv32)
    requires a < 32 && factor < 32 && b < 32
    ensures Mul(a, Mul(factor, b)) == Mul(factor, Mul(b, a))
  {
    hide Products;
    ProductsBound(factor, b, 5);
    MulCommutative(a, Mul(factor, b));
    MulAssociative(factor, b, a);
  }

  /** Two wrong symbols, the first and one beyond the sixth, never move the checksum by the change of constant. */
  lemma NoTwinOfTwo(difference: seq<bv32>, j: nat)
    requires |difference| == 39 || |difference| == 59
    requires Symbols(difference) && 6 <= j < |difference|
    requires forall k | 0 < k < |difference| && k != j :: difference[k] == 0
    ensures Fold(0, difference) != CHANGE
  {
    hide Fold, Step, Xor, ZeroRun, Apart, Scaled, TwinWord;
    var n := |difference|;
    var twin := Twin(n);
    TwinMoves(n);
    FoldSnoc(difference, 0);
    FoldEmpty(difference[..0]);
    OnlySymbol(difference[0]);
    FoldZeros(difference, 1, j);
    FoldSnoc(difference, j);
    StepSum(Fold(0, difference[..j]), difference[j]);
    ZeroRunSnoc(difference[0], j);
    var last := Fold(0, difference[..j + 1]);
    ScaledRun(difference[0], j);
    ScaledNotApart(difference[0], difference[j], ZeroRun(1, j), ZeroRun(difference[0], j));
    TwinPrefix(n, j + 1);
    TwinRun(n, j - 5);
    assert last != Fold(0, twin[..j + 1]);
    if Fold(0, difference) == CHANGE {
      assert difference[j + 1..] == twin[j + 1..];
      FoldPrefix(difference, twin, j + 1);
    }
  }
}
