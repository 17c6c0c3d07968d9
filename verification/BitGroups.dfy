/** Regrouping 5-bit symbols into bytes through an accumulator that drops high bits. */
module BitGroups {
  import opened Options
  import opened Radix

  const U32: nat := 0x1_0000_0000

  /** Two to the power `count`. */
  function Bits(count: nat): (power: nat)
    requires count <= 12
    ensures power > 0
  {
    if count == 0 then 1
    else if count == 1 then 2
    else if count == 2 then 4
    else if count == 3 then 8
    else if count == 4 then 16
    else if count == 5 then 32
    else if count == 6 then 64
    else if count == 7 then 128
    else if count == 8 then 256
    else if count == 9 then 512
    else if count == 10 then 1024
    else if count == 11 then 2048
    else 4096
  }

  /** Symbols that stand for whole bytes: the bits left over are few and all zero. */
  predicate Regroupable(values: seq<nat>)
  {
    && InBase(32, values)
    && (5 * |values|) % 8 <= 4
    && Value(32, values) % Bits((5 * |values|) % 8) == 0
  }

  /** The bytes whose bits are those of the symbols, short of the bits left over. */
  function Regroup(values: seq<nat>): (bytes: seq<nat>)
    requires Regroupable(values)
    ensures |bytes| == 5 * |values| / 8 && InBase(256, bytes)
    ensures Value(256, bytes) * Bits((5 * |values|) % 8) == Value(32, values)
  {
    QuotientFits(values);
    FixedValue(256, Value(32, values) / Bits((5 * |values|) % 8), 5 * |values| / 8);
    Fixed(256, Value(32, values) / Bits((5 * |values|) % 8), 5 * |values| / 8)
  }

  /** The bits above the lowest `bitCount`, and the byte just above them. */
  function Above(whole: nat, bitCount: nat): nat
    requires bitCount <= 12
  {
    whole / Bits(bitCount)
  }

  function ByteAbove(whole: nat, bitCount: nat): nat
    requires bitCount <= 12
  {
    Above(whole, bitCount) % 256
  }

  function Narrow(whole: nat): nat
  {
    whole % U32
  }

  predicate NoBitsLeft(accumulator: nat, bitCount: nat)
    requires bitCount < 8
  {
    Narrow(accumulator * Bits(8 - bitCount)) % 256 == 0
  }

  method ConvertToBytes(values: seq<nat>) returns (r: Option<seq<nat>>)
    requires InBase(256, values)
    ensures r.Some? <==> Regroupable(values)
    ensures r.Some? ==> r.value == Regroup(values)
  {
    hide Bits, Above, ByteAbove, Narrow, NoBitsLeft, Value, Regroup, Regroupable;
    var accumulator: nat := 0;
    var bitCount: nat := 0;
    var decoded: seq<nat> := [];
    Start();
    for i := 0 to |values|
      invariant InBase(32, values[..i]) && InBase(256, decoded)
      invariant bitCount < 8 && 8 * |decoded| + bitCount == 5 * i
      invariant accumulator == Narrow(Value(32, values[..i]))
      invariant Value(256, decoded) == Above(Value(32, values[..i]), bitCount)
    {
      if values[i] > 31 {
        assert !Regroupable(values) by { SymbolOutOfRange(values, i); }
        return None;
      }
      ghost var whole := Value(32, values[..i + 1]);
      assert values[..i + 1] == values[..i] + [values[i]];
      ValueSnoc(32, values[..i], values[i]);
      PushSymbol(Value(32, values[..i]), values[i], bitCount);
      accumulator := Narrow(accumulator * 32) + values[i];
      bitCount := bitCount + 5;
      while bitCount >= 8
        invariant bitCount <= 12 && 8 * |decoded| + bitCount == 5 * (i + 1)
        invariant InBase(256, decoded)
        invariant accumulator == Narrow(whole)
        invariant Value(256, decoded) == Above(whole, bitCount)
      {
        bitCount := bitCount - 8;
        PopByte(whole, bitCount);
        ValueSnoc(256, decoded, ByteAbove(accumulator, bitCount));
        decoded := decoded + [ByteAbove(accumulator, bitCount)];
      }
    }
    assert values[..|values|] == values;
    Decide(values, |decoded|, bitCount);
    if bitCount >= 5 || !NoBitsLeft(accumulator, bitCount) {
      return None;
    }
    Finish(values, decoded, bitCount);
    return Some(decoded);
  }

  lemma Start()
    ensures Narrow(Value(32, [])) == 0 && Value(256, []) == Above(Value(32, []), 0)
  {
  }

  lemma SymbolOutOfRange(values: seq<nat>, i: nat)
    requires i < |values| && values[i] > 31
    ensures !Regroupable(values)
  {
  }

  lemma Decide(values: seq<nat>, count: nat, bitCount: nat)
    requires InBase(32, values) && bitCount < 8 && 8 * count + bitCount == 5 * |values|
    ensures Regroupable(values) <==> bitCount <= 4 && NoBitsLeft(Narrow(Value(32, values)), bitCount)
  {
    hide NoBitsLeft, Value, Bits, Narrow, Power;
    QuotientRemainder(8, count, bitCount);
    LeftOver(Value(32, values), bitCount);
  }

  lemma Finish(values: seq<nat>, decoded: seq<nat>, bitCount: nat)
    requires Regroupable(values) && bitCount < 8
    requires 8 * |decoded| + bitCount == 5 * |values|
    requires InBase(256, decoded) && Value(256, decoded) == Above(Value(32, values), bitCount)
    ensures decoded == Regroup(values)
  {
    hide Bits, Value, Power;
    QuotientRemainder(Bits(bitCount), Value(256, Regroup(values)), 0);
    FixedWidthUnique(256, decoded, Regroup(values));
  }

  lemma PushSymbol(before: nat, symbol: nat, bitCount: nat)
    requires symbol < 32 && bitCount < 8
    ensures Narrow(Narrow(before) * 32) + symbol == Narrow(before * 32 + symbol)
    ensures Above(before * 32 + symbol, bitCount + 5) == Above(before, bitCount)
  {
    hide Bits, Above, Narrow;
    PushNarrow(before, symbol);
    PushAbove(before, symbol, bitCount);
  }

  lemma PushNarrow(before: nat, symbol: nat)
    requires symbol < 32
    ensures Narrow(Narrow(before) * 32) + symbol == Narrow(before * 32 + symbol)
  {
    MulMod(before % U32, 32, 0x800_0000);
    ModDiv(before, 0x800_0000, 32);
    SplitByProduct(before * 32 + symbol, 32, 0x800_0000);
    QuotientRemainder(32, before, symbol);
  }

  lemma PushAbove(before: nat, symbol: nat, bitCount: nat)
    requires symbol < 32 && bitCount < 8
    ensures Above(before * 32 + symbol, bitCount + 5) == Above(before, bitCount)
  {
    BitsPlusFive(bitCount);
    QuotientRemainder(32, before, symbol);
    SplitByProduct(before * 32 + symbol, 32, Bits(bitCount));
  }

  lemma BitsPlusFive(bitCount: nat)
    requires bitCount < 8
    ensures Bits(bitCount + 5) == 32 * Bits(bitCount)
  {
  }

  lemma PopByte(whole: nat, bitCount: nat)
    requires bitCount <= 4
    ensures ByteAbove(Narrow(whole), bitCount) == ByteAbove(whole, bitCount) < 256
    ensures Above(whole, bitCount + 8) * 256 + ByteAbove(whole, bitCount) == Above(whole, bitCount)
  {
    var b := Bits(bitCount);
    var rest := Bits(4 - bitCount) * 0x10_0000;
    ModDiv(whole, b, 256 * rest);
    ModDiv(whole / b, 256, rest);
    SplitByProduct(whole, b, 256);
  }

  lemma LeftOver(whole: nat, bitCount: nat)
    requires bitCount < 8
    ensures NoBitsLeft(Narrow(whole), bitCount) <==> whole % Bits(bitCount) == 0
  {
    var b, c := Bits(bitCount), Bits(8 - bitCount);
    assert b * c == 256;
    ModDiv((whole % U32) * c, 256, 0x100_0000);
    MulMod(whole % U32, c, b);
    ModDiv(whole, b, c * 0x100_0000);
    assert b * (c * 0x100_0000) == U32;
    assert (whole % b) * c == 0 <==> whole % b == 0;
  }

  lemma BitsIsPower(count: nat)
    requires count < 8
    ensures Bits(count) == Power(2, count)
  {
    if count > 0 { BitsIsPower(count - 1); }
  }

  lemma QuotientFits(values: seq<nat>)
    requires InBase(32, values)
    ensures Value(32, values) / Bits((5 * |values|) % 8) < Power(256, 5 * |values| / 8)
  {
    var n, q, r := |values|, 5 * |values| / 8, (5 * |values|) % 8;
    ValueBound(32, values);
    PowerSplit(n);
    BitsIsPower(r);
    QuotientBound(Bits(r), Value(32, values), Power(256, q));
  }

  lemma PowerSplit(n: nat)
    ensures Power(32, n) == Power(256, 5 * n / 8) * Power(2, (5 * n) % 8)
  {
    var q, r := 5 * n / 8, (5 * n) % 8;
    assert Power(2, 5) == 32 && Power(2, 8) == 256 by { assert Power(2, 3) == 8; assert Power(2, 6) == 64; }
    PowerOfPower(2, 5, n);
    PowerOfPower(2, 8, q);
    PowerAdd(2, 8 * q, r);
  }

  // ----- the reference encoder, and the two round trips -----

  function SymbolCount(byteCount: nat): (count: nat)
    ensures 0 <= 5 * count - 8 * byteCount <= 4
  {
    (8 * byteCount + 4) / 5
  }

  /** The symbols of a byte string, with zero bits to fill the last symbol. */
  function Ungroup(bytes: seq<nat>): (symbols: seq<nat>)
    requires InBase(256, bytes)
    ensures InBase(32, symbols) && |symbols| == SymbolCount(|bytes|)
    ensures Value(32, symbols) == Value(256, bytes) * Bits(5 * SymbolCount(|bytes|) - 8 * |bytes|)
  {
    PaddedFits(bytes);
    FixedValue(32, Value(256, bytes) * Bits(5 * SymbolCount(|bytes|) - 8 * |bytes|), SymbolCount(|bytes|));
    Fixed(32, Value(256, bytes) * Bits(5 * SymbolCount(|bytes|) - 8 * |bytes|), SymbolCount(|bytes|))
  }

  lemma PaddedFits(bytes: seq<nat>)
    requires InBase(256, bytes)
    ensures Value(256, bytes) * Bits(5 * SymbolCount(|bytes|) - 8 * |bytes|) < Power(32, SymbolCount(|bytes|))
  {
    hide Bits;
    var n, l := SymbolCount(|bytes|), |bytes|;
    ValueBound(256, bytes);
    PowerSplit(n);
    BitsIsPower(5 * n - 8 * l);
    assert 5 * n / 8 == l && (5 * n) % 8 == 5 * n - 8 * l;
    AppendBound(Bits(5 * n - 8 * l), Value(256, bytes), 0, Power(256, l));
  }

  /** Every byte string has symbols that regroup to it. */
  lemma RegroupUngroup(bytes: seq<nat>)
    requires InBase(256, bytes)
    ensures Regroupable(Ungroup(bytes)) && Regroup(Ungroup(bytes)) == bytes
  {
    hide Bits, Value;
    var symbols := Ungroup(bytes);
    var n, l := |symbols|, |bytes|;
    var pad := Bits((5 * n) % 8);
    assert 5 * n / 8 == l && (5 * n) % 8 == 5 * n - 8 * l;
    QuotientRemainder(pad, Value(256, bytes), 0);
    assert Regroupable(symbols);
    var back := Regroup(symbols);
    DivModUnique(pad, Value(256, back), 0, Value(256, bytes), 0);
    FixedWidthUnique(256, back, bytes);
  }

  /** Regrouping loses nothing: the accepted symbols are those of their bytes. */
  lemma UngroupRegroup(symbols: seq<nat>)
    requires Regroupable(symbols)
    ensures Ungroup(Regroup(symbols)) == symbols
  {
    hide Bits, Value;
    var n := |symbols|;
    var bytes := Regroup(symbols);
    assert SymbolCount(|bytes|) == n && (5 * n) % 8 == 5 * n - 8 * |bytes|;
    FixedWidthUnique(32, Ungroup(bytes), symbols);
  }
}
